/** Stepping over arbitrary bytes: offsets, slices and error offsets. */
module BsonIterBounds {
  import opened Basics
  import opened BsonDocument
  import opened BsonEncoding
  import opened BsonIter

  /** A slice of the buffer. */
  datatype Span = Span(lo: nat, hi: nat)

  /** What the accessor for the element's type reads: slices, and for binary and bool the offset of a byte. */
  datatype Access = Access(byteAt: Option<nat>, spans: seq<Span>)

  predicate StepOf(data: seq<Byte>, e: Step) {
    |data| <= INT_MAX && e.Element? && StepAt(data, e.off) == e
  }

  predicate IsText(t: Byte) { t == 0x02 || t == 0x0D || t == 0x0E }

  function FixedSize(t: Byte): nat {
    if t == 0x01 || t == 0x09 || t == 0x11 || t == 0x12 then 8
    else if t == 0x07 then 12
    else if t == 0x10 then 4
    else if t == 0x13 then 16
    else 0
  }

  /** The layout of an element that a step has produced. */
  lemma {:induction false} StepLayout(data: seq<Byte>, e: Step)
    requires StepOf(data, e)
    ensures e.off + 1 < e.d1 <= |data| && FindNul(data, e.off + 1) + 1 == e.d1
    ensures LayoutAt(data, e.off, data[e.off], e.d1) == Fields(e.d2, e.d3, e.d4, e.next) && e.next < |data|
  {
  }

  function Max0(n: int): nat { if n < 0 then 0 else n }

  /** An element whose fields are a given layout inside the buffer. */
  predicate Laid(data: seq<Byte>, e: Step, l: Layout) {
    |data| <= INT_MAX && e.Element? && e.d1 <= |data| && l == Fields(e.d2, e.d3, e.d4, e.next) && e.next < |data|
  }

  predicate Within(a: Access, e: Step)
    requires e.Element?
  {
    && (forall s <- a.spans :: e.d1 <= s.lo <= s.hi <= e.next)
    && (a.byteAt.Some? ==> e.d1 <= a.byteAt.value < e.next)
  }

  /** bson_iter_utf8, bson_iter_code and bson_iter_symbol. */
  function TextAccess(data: seq<Byte>, e: Step): (a: Access)
    requires e.Element? && e.d1 <= |data| <= INT_MAX && Laid(data, e, StringLayout(data, e.d1))
    ensures Within(a, e)
  {
    Access(None, [Span(e.d2, e.d2 + Max0(U32(data, e.d1) - 1))])
  }

  /** bson_iter_binary; the deprecated subtype repeats the length inside. */
  function BinaryAccess(data: seq<Byte>, e: Step): (a: Access)
    requires e.Element? && e.d1 <= |data| <= INT_MAX && Laid(data, e, BinaryLayout(data, e.d1))
    ensures Within(a, e)
  {
    var l := U32(data, e.d1);
    Access(Some(e.d2), [if data[e.d2] == 2 then Span(e.d3 + 4, e.d3 + 4 + (l - 4)) else Span(e.d3, e.d3 + l)])
  }

  /** bson_iter_document and bson_iter_array. */
  function DocumentAccess(data: seq<Byte>, e: Step): (a: Access)
    requires e.Element? && e.d1 <= |data| <= INT_MAX && Laid(data, e, DocumentLayout(data, e.d1))
    ensures Within(a, e) && |a.spans| == 1 && a.spans[0].hi == e.next
  {
    Access(None, [Span(e.d1, e.d1 + U32(data, e.d1))])
  }

  /** bson_iter_regex. */
  function RegexAccess(data: seq<Byte>, e: Step): (a: Access)
    requires e.Element? && e.d1 <= |data| <= INT_MAX && Laid(data, e, RegexLayout(data, e.off, e.d1))
    ensures Within(a, e)
  {
    Access(None, [Span(e.d1, FindNul(data, e.d1)), Span(e.d2, FindNul(data, e.d2))])
  }

  /** bson_iter_dbpointer. */
  function PointerAccess(data: seq<Byte>, e: Step): (a: Access)
    requires e.Element? && e.d1 <= |data| <= INT_MAX && Laid(data, e, PointerLayout(data, e.d1))
    ensures Within(a, e)
  {
    Access(None, [Span(e.d2, e.d2 + Max0(U32(data, e.d1) - 1)), Span(e.d3, e.d3 + 12)])
  }

  /** bson_iter_codewscope. */
  function ScopeAccess(data: seq<Byte>, e: Step): (a: Access)
    requires e.Element? && e.d1 <= |data| <= INT_MAX && Laid(data, e, ScopeLayout(data, e.d1))
    ensures Within(a, e) && |a.spans| == 2 && a.spans[1].hi == e.next
  {
    Access(None, [Span(e.d3, e.d3 + (U32(data, e.d2) - 1)), Span(e.d4, e.d4 + U32(data, e.d4))])
  }

  /** The accessor for a type. */
  function AccessBy(data: seq<Byte>, t: Byte, e: Step): (a: Access)
    requires e.Element? && 0 < e.d1 <= |data| <= INT_MAX && Laid(data, e, LayoutAt(data, e.off, t, e.d1))
    ensures Within(a, e)
  {
    if IsText(t) then TextAccess(data, e)
    else if t == 0x03 || t == 0x04 then DocumentAccess(data, e)
    else if t == 0x05 then BinaryAccess(data, e)
    else if t == 0x08 then Access(Some(e.d1), [])
    else if t == 0x0B then RegexAccess(data, e)
    else if t == 0x0C then PointerAccess(data, e)
    else if t == 0x0F then ScopeAccess(data, e)
    else if FixedSize(t) > 0 then Access(None, [Span(e.d1, e.d1 + FixedSize(t))])
    else Access(None, [])
  }

  /** The accessor for an element's type: all it reads lies inside the element. */
  function Accessed(data: seq<Byte>, e: Step): (a: Access)
    requires StepOf(data, e)
    ensures Within(a, e)
  {
    StepLayout(data, e);
    AccessBy(data, data[e.off], e)
  }

  /** Every offset of an element lies inside it, and it ends before the buffer does. */
  lemma {:induction false} Inside(data: seq<Byte>, e: Step)
    requires StepOf(data, e)
    ensures e.off < e.off + 1 < e.d1 <= e.next < |data|
    ensures e.d2 == 0 || e.d1 <= e.d2 <= e.next
    ensures e.d3 == 0 || e.d1 <= e.d3 <= e.next
    ensures e.d4 == 0 || e.d1 <= e.d4 <= e.next
  {
    StepLayout(data, e);
  }

  /** A scope or embedded document ends exactly where its element does. */
  lemma {:induction false} ChildEnds(data: seq<Byte>, e: Step)
    requires StepOf(data, e) && (data[e.off] == 0x03 || data[e.off] == 0x04 || data[e.off] == 0x0F)
    ensures var spans := Accessed(data, e).spans; spans != [] && spans[|spans| - 1].hi == e.next
  {
    StepLayout(data, e);
  }

  /** On a buffer with a final zero, a failing step stands on that zero exactly when it reports no error. */
  lemma {:induction false} ErrorOffset(data: seq<Byte>, at: nat)
    requires 5 <= |data| <= INT_MAX && data[|data| - 1] == 0 && 4 <= at < |data|
    ensures StepAt(data, at) == Invalid(0, false) <==> at == |data| - 1
    ensures StepAt(data, at).Invalid? ==> (StepAt(data, at).err == 0 <==> at == |data| - 1)
  {
    if at < |data| - 1 {
      BeforeNul(data, at + 1);
      assert FindNul(data, at + 1) < |data|;
    }
  }

  /** The elements from an offset on, and the error offset at which they stop. */
  function Walk(data: seq<Byte>, at: nat): (r: (seq<Step>, nat))
    requires |data| <= INT_MAX
    ensures |r.0| <= |data| - at || r.0 == []
    ensures forall e <- r.0 :: e.Element?
    decreases |data| - at
  {
    var e := StepAt(data, at);
    if e.Invalid? then ([], e.err)
    else
      Inside(data, e);
      var (rest, err) := Walk(data, e.next);
      ([e] + rest, err)
  }

  /** The elements follow each other without gaps, from the first offset on. */
  lemma {:induction false} Contiguous(data: seq<Byte>, at: nat)
    requires |data| <= INT_MAX
    ensures var es := Walk(data, at).0;
            && (es != [] ==> es[0].off == at)
            && (forall i :: 0 <= i < |es| ==> StepOf(data, es[i]))
            && (forall i :: 0 <= i < |es| - 1 ==> es[i].next == es[i + 1].off)
    decreases |data| - at
  {
    var e := StepAt(data, at);
    if e.Element? {
      Inside(data, e);
      Contiguous(data, e.next);
    }
  }

  /** On an accepted buffer the walk stops without an error exactly when it ends on the final zero. */
  lemma {:induction false} WalkError(data: seq<Byte>, at: nat)
    requires 5 <= |data| <= INT_MAX && data[|data| - 1] == 0 && 4 <= at < |data|
    ensures var (es, err) := Walk(data, at);
            err == 0 <==> (if es == [] then at else es[|es| - 1].next) == |data| - 1
    decreases |data| - at
  {
    var e := StepAt(data, at);
    ErrorOffset(data, at);
    if e.Element? {
      Inside(data, e);
      WalkError(data, e.next);
    }
  }

  /** Where a walk ends: behind its last element. */
  function Behind(data: seq<Byte>, at: nat): nat
    requires |data| <= INT_MAX
  {
    var es := Walk(data, at).0;
    if es == [] then at else es[|es| - 1].next
  }

  /** On any bytes, a walk stops without an error exactly when no zero byte follows the type byte it stops on. */
  lemma {:induction false} WalkErrorExactly(data: seq<Byte>, at: nat)
    requires |data| <= INT_MAX && 4 <= at
    ensures Walk(data, at).1 == 0 <==> forall k :: Behind(data, at) < k < |data| ==> data[k] != 0
    decreases |data| - at
  {
    var e := StepAt(data, at);
    if e.Element? {
      Inside(data, e);
      WalkErrorExactly(data, e.next);
    } else if at + 1 <= |data| {
      BeforeNul(data, at + 1);
    }
  }

  /** The embedded buffer of a document or array element. */
  function Embedded(data: seq<Byte>, e: Step): (child: seq<Byte>)
    requires StepOf(data, e) && (data[e.off] == 0x03 || data[e.off] == 0x04)
    ensures |child| < |data|
  {
    StepLayout(data, e);
    Inside(data, e);
    data[e.d1..e.d1 + U32(data, e.d1)]
  }

  /**
   * The iterator over an embedded buffer. Below five bytes it always ends at once and without an error. From five
   * bytes on it ends without an error on the last byte, and elsewhere exactly when only non-zero bytes follow, which
   * a final zero rules out; recursing checks none of this.
   */
  lemma {:induction false} ChildError(data: seq<Byte>, e: Step)
    requires StepOf(data, e) && (data[e.off] == 0x03 || data[e.off] == 0x04)
    ensures var child := Embedded(data, e);
            && |child| == U32(data, e.d1)
            && (|child| < 5 ==> Walk(child, 4) == ([], 0))
            && (|child| >= 5 ==> Behind(child, 4) < |child|)
            && (|child| >= 5 ==>
                  (Walk(child, 4).1 == 0 <==> forall k :: Behind(child, 4) < k < |child| ==> child[k] != 0))
            && (|child| >= 5 && child[|child| - 1] == 0 ==>
                  (Walk(child, 4).1 == 0 <==> Behind(child, 4) == |child| - 1))
  {
    StepLayout(data, e);
    var child := Embedded(data, e);
    Contiguous(child, 4);
    WalkErrorExactly(child, 4);
    var es := Walk(child, 4).0;
    if es != [] { Inside(child, es[|es| - 1]); }
    if |child| >= 5 && child[|child| - 1] == 0 { WalkError(child, 4); }
  }

  lemma {:induction false} LastElement(data: seq<Byte>, at: nat)
    requires |data| <= INT_MAX && StepAt(data, at).Element? && Walk(data, StepAt(data, at).next) == ([], 0)
    ensures Walk(data, at) == ([StepAt(data, at)], 0)
  {
    WalkOn(data, at, []);
    assert [] + Walk(data, at).0 == Walk(data, at).0;
    assert [] + [StepAt(data, at)] + [] == [StepAt(data, at)];
  }

  /** An accepted buffer with an embedded document of four bytes; both it and its parent end without an error. */
  lemma ShortChild() returns (data: seq<Byte>)
    ensures Accepted(data) && StepOf(data, StepAt(data, 4)) && data[4] == 0x03
    ensures |Embedded(data, StepAt(data, 4))| == 4
    ensures Walk(data, 4) == ([StepAt(data, 4)], 0) && Walk(Embedded(data, StepAt(data, 4)), 4) == ([], 0)
  {
    data := [12, 0, 0, 0, 3, 0x61, 0, 4, 0, 0, 0, 0];
    assert U32(data, 0) == 12 && U32(data, 7) == 4;
    NulIs(data, 5, 6);
    assert StepAt(data, 4) == Element(4, 7, 0, 0, 0, 11);
    ChildError(data, StepAt(data, 4));
    assert StepAt(data, 11) == Invalid(0, false) && Walk(data, 11) == ([], 0);
    LastElement(data, 4);
  }

  lemma {:induction false} WalkOn(data: seq<Byte>, at: nat, es: seq<Step>)
    requires |data| <= INT_MAX
    ensures var e := StepAt(data, at);
            if e.Invalid? then es + Walk(data, at).0 == es && Walk(data, at).1 == e.err
            else es + Walk(data, at).0 == es + [e] + Walk(data, e.next).0 && Walk(data, at).1 == Walk(data, e.next).1
                 && at < e.next < |data|
  {
    var e := StepAt(data, at);
    if e.Element? {
      Inside(data, e);
      assert es + ([e] + Walk(data, e.next).0) == es + [e] + Walk(data, e.next).0;
    }
  }

  /** The loop every visitor runs: it ends within as many steps as the buffer has bytes. */
  method Drain(iter: Iter) returns (es: seq<Step>)
    requires iter.Valid() && iter.live
    modifies iter
    ensures !iter.live && (es, iter.errOff) == Walk(old(iter.raw), old(iter.nextOff))
    ensures |es| <= |old(iter.raw)|
  {
    es := [];
    ghost var data, all := iter.raw, Walk(iter.raw, iter.nextOff);
    assert es + all.0 == all.0;
    var more := true;
    while more
      invariant iter.Valid() && more == iter.live
      invariant more ==> iter.raw == data && Walk(data, iter.nextOff).1 == all.1
      invariant more ==> es + Walk(data, iter.nextOff).0 == all.0
      invariant !more ==> es == all.0 && iter.errOff == all.1
      decreases more, |data| + 5 - iter.nextOff
    {
      WalkOn(data, iter.nextOff, es);
      var unsupported;
      more, unsupported := iter.Next();
      if more {
        es := es + [iter.Here()];
      }
    }
  }
}
