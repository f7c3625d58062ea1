/** Iterating over an encoded document yields exactly its elements. */
module BsonIterDecode {
  import opened BsonDocument
  import opened BsonEncoding
  import opened BsonIter
  import opened BsonIterBounds

  function Slice(data: seq<Byte>, s: Span): seq<Byte>
    requires s.lo <= s.hi <= |data|
  {
    data[s.lo..s.hi]
  }

  /** The bytes behind the slices an accessor hands out. */
  function Fetched(data: seq<Byte>, t: Byte, a: Access): Content
    requires forall s <- a.spans :: s.lo <= s.hi <= |data|
    requires a.byteAt.Some? ==> a.byteAt.value < |data|
  {
    if t == 0x08 && a.byteAt.Some? then Flag(data[a.byteAt.value] == 1)
    else if t == 0x05 && a.byteAt.Some? && |a.spans| == 1 then Bin(data[a.byteAt.value], Slice(data, a.spans[0]))
    else if IsText(t) && |a.spans| == 1 then Text(Slice(data, a.spans[0]))
    else if (t == 0x03 || t == 0x04) && |a.spans| == 1 then Sub(Slice(data, a.spans[0]))
    else if t == 0x0B && |a.spans| == 2 then Pair(Slice(data, a.spans[0]), Slice(data, a.spans[1]))
    else if t == 0x0C && |a.spans| == 2 then Pointer(Slice(data, a.spans[0]), Slice(data, a.spans[1]))
    else if t == 0x0F && |a.spans| == 2 then Scoped(Slice(data, a.spans[0]), Slice(data, a.spans[1]))
    else if FixedSize(t) > 0 && |a.spans| == 1 then Fixed(Slice(data, a.spans[0]))
    else Nothing
  }

  /** What one element shows its user: type, key and content. */
  datatype Seen = Seen(t: Byte, key: seq<Byte>, content: Content)

  function Show(data: seq<Byte>, e: Step): Seen
    requires StepOf(data, e)
  {
    StepLayout(data, e);
    Inside(data, e);
    Seen(data[e.off], data[e.off + 1..e.d1 - 1], Fetched(data, data[e.off], Accessed(data, e)))
  }

  /** The parts of a string payload. */
  lemma {:induction false} StringAt(data: seq<Byte>, o: nat, s: seq<Byte>)
    requires At(data, o, EncodeString(s)) && |data| <= INT_MAX
    ensures U32(data, o) == |s| + 1 && o + 4 + |s| < |data|
    ensures data[o + 4..o + 4 + |s|] == s && data[o + 4 + |s|] == 0
  {
    AtAppend(data, o, LE32(|s| + 1), s + [0]);
    AtU32(data, o, |s| + 1);
    AtAppend(data, o + 4, s, [0]);
    AtSlice(data, o + 4, s);
    assert data[o + 4 + |s| + 0] == [0][0];
  }

  lemma {:induction false} TextDecodes(data: seq<Byte>, o: nat, s: seq<Byte>)
    requires At(data, o, EncodeString(s)) && o + |EncodeString(s)| < |data| <= INT_MAX
    ensures StringLayout(data, o) == Fields(o + 4, 0, 0, o + |EncodeString(s)|)
    ensures U32(data, o) == |s| + 1 && data[o + 4..o + 4 + |s|] == s
  {
    StringAt(data, o, s);
  }

  lemma {:induction false} DocAt(data: seq<Byte>, o: nat, doc: Doc)
    requires At(data, o, EncodeDoc(doc)) && |data| <= INT_MAX
    ensures U32(data, o) == |EncodeDoc(doc)| >= 5 && o + |EncodeDoc(doc)| <= |data|
    ensures data[o..o + |EncodeDoc(doc)|] == EncodeDoc(doc)
  {
    var elems := EncodeElems(doc);
    assert EncodeDoc(doc) == LE32(|elems| + 5) + (elems + [0]);
    AtSlice(data, o, EncodeDoc(doc));
    AtAppend(data, o, LE32(|elems| + 5), elems + [0]);
    AtU32(data, o, |elems| + 5);
  }

  lemma {:induction false} DocumentDecodes(data: seq<Byte>, o: nat, doc: Doc)
    requires At(data, o, EncodeDoc(doc)) && o + |EncodeDoc(doc)| < |data| <= INT_MAX
    ensures DocumentLayout(data, o) == Fields(0, 0, 0, o + |EncodeDoc(doc)|)
    ensures U32(data, o) == |EncodeDoc(doc)| && data[o..o + |EncodeDoc(doc)|] == EncodeDoc(doc)
  {
    DocAt(data, o, doc);
  }

  lemma {:induction false} PlainBinaryDecodes(data: seq<Byte>, o: nat, subtype: Byte, s: seq<Byte>)
    requires subtype != 2
    requires At(data, o, LE32(|s|) + ([subtype] + s)) && o + 5 + |s| < |data| <= INT_MAX
    ensures BinaryLayout(data, o) == Fields(o + 4, o + 5, 0, o + 5 + |s|)
    ensures U32(data, o) == |s| && data[o + 4] == subtype && data[o + 5..o + 5 + |s|] == s
  {
    AtAppend(data, o, LE32(|s|), [subtype] + s);
    AtU32(data, o, |s|);
    AtAppend(data, o + 4, [subtype], s);
    assert data[o + 4 + 0] == [subtype][0];
    AtSlice(data, o + 5, s);
  }

  lemma {:induction false} OldBinaryDecodes(data: seq<Byte>, o: nat, s: seq<Byte>)
    requires At(data, o, LE32(|s| + 4) + ([2] + (LE32(|s|) + s))) && o + 9 + |s| < |data| <= INT_MAX
    ensures BinaryLayout(data, o) == Fields(o + 4, o + 5, 0, o + 9 + |s|)
    ensures U32(data, o) == |s| + 4 && data[o + 4] == 2 && data[o + 9..o + 9 + |s|] == s
  {
    AtAppend(data, o, LE32(|s| + 4), [2] + (LE32(|s|) + s));
    AtU32(data, o, |s| + 4);
    AtAppend(data, o + 4, [2], LE32(|s|) + s);
    assert data[o + 4 + 0] == [2][0];
    AtAppend(data, o + 5, LE32(|s|), s);
    AtU32(data, o + 5, |s|);
    AtSlice(data, o + 9, s);
  }

  lemma {:induction false} RegexDecodes(data: seq<Byte>, at: nat, o: nat, p: CString, q: CString)
    requires At(data, o, (p + [0]) + (q + [0])) && o + |p| + |q| + 2 < |data| <= INT_MAX
    ensures RegexLayout(data, at, o) == Fields(o + |p| + 1, 0, 0, o + |p| + |q| + 2)
    ensures FindNul(data, o) == o + |p| && FindNul(data, o + |p| + 1) == o + |p| + 1 + |q|
    ensures data[o..o + |p|] == p && data[o + |p| + 1..o + |p| + 1 + |q|] == q
  {
    AtAppend(data, o, p + [0], q + [0]);
    AtString(data, o, p);
    AtString(data, o + |p| + 1, q);
  }

  lemma {:induction false} PointerDecodes(data: seq<Byte>, o: nat, c: seq<Byte>, id: Bytes12)
    requires At(data, o, EncodeString(c) + id) && o + |EncodeString(c)| + 12 < |data| <= INT_MAX
    ensures PointerLayout(data, o) == Fields(o + 4, o + 5 + |c|, 0, o + 17 + |c|)
    ensures U32(data, o) == |c| + 1 && data[o + 4..o + 4 + |c|] == c && data[o + 5 + |c|..o + 17 + |c|] == id
  {
    AtAppend(data, o, EncodeString(c), id);
    StringAt(data, o, c);
    AtSlice(data, o + 5 + |c|, id);
  }

  lemma {:induction false} ScopeDecodes(data: seq<Byte>, o: nat, s: seq<Byte>, scope: Doc)
    requires 4 <= o && At(data, o, Payload(CodeWScope(s, scope)))
    requires o + |Payload(CodeWScope(s, scope))| < |data| <= INT_MAX
    ensures ScopeLayout(data, o) == Fields(o + 4, o + 8, o + 9 + |s|, o + |Payload(CodeWScope(s, scope))|)
    ensures U32(data, o + 4) == |s| + 1 && data[o + 8..o + 8 + |s|] == s
    ensures U32(data, o + 9 + |s|) == |EncodeDoc(scope)|
         && data[o + 9 + |s|..o + 9 + |s| + |EncodeDoc(scope)|] == EncodeDoc(scope)
  {
    ScopeParts(data, o, s, scope);
    ScopeFits(data, o, |s|, |EncodeDoc(scope)|);
  }

  lemma {:induction false} ScopeFits(data: seq<Byte>, o: nat, n: nat, m: nat)
    requires 4 <= o && 5 <= m && o + 9 + n + m < |data| <= INT_MAX
    requires U32(data, o) == 9 + n + m && U32(data, o + 4) == n + 1 && U32(data, o + 9 + n) == m
    ensures ScopeLayout(data, o) == Fields(o + 4, o + 8, o + 9 + n, o + 9 + n + m)
  {
    assert o + 8 + (n + 1) == o + 9 + n;
  }

  lemma {:induction false} ScopeParts(data: seq<Byte>, o: nat, s: seq<Byte>, scope: Doc)
    requires At(data, o, Payload(CodeWScope(s, scope))) && |data| <= INT_MAX
    ensures |Payload(CodeWScope(s, scope))| == 9 + |s| + |EncodeDoc(scope)| == U32(data, o)
    ensures U32(data, o + 4) == |s| + 1 && data[o + 8..o + 8 + |s|] == s
    ensures U32(data, o + 9 + |s|) == |EncodeDoc(scope)| >= 5
         && data[o + 9 + |s|..o + 9 + |s| + |EncodeDoc(scope)|] == EncodeDoc(scope)
  {
    var total := 4 + |EncodeString(s)| + |EncodeDoc(scope)|;
    assert Payload(CodeWScope(s, scope)) == LE32(total) + (EncodeString(s) + EncodeDoc(scope));
    AtAppend(data, o, LE32(total), EncodeString(s) + EncodeDoc(scope));
    AtU32(data, o, total);
    AtAppend(data, o + 4, EncodeString(s), EncodeDoc(scope));
    ScopeInside(data, o, s, scope);
  }

  lemma {:induction false} ScopeInside(data: seq<Byte>, o: nat, s: seq<Byte>, scope: Doc)
    requires At(data, o + 4, EncodeString(s)) && At(data, o + 4 + |EncodeString(s)|, EncodeDoc(scope))
    requires |data| <= INT_MAX
    ensures U32(data, o + 4) == |s| + 1 && data[o + 8..o + 8 + |s|] == s
    ensures U32(data, o + 9 + |s|) == |EncodeDoc(scope)| >= 5
         && data[o + 9 + |s|..o + 9 + |s| + |EncodeDoc(scope)|] == EncodeDoc(scope)
  {
    StringAt(data, o + 4, s);
    DocAt(data, o + 4 + |EncodeString(s)|, scope);
  }

  /** The key and the type of an encoded element are found where they were put. */
  lemma {:induction false} KeyDecodes(data: seq<Byte>, at: nat, e: Elem)
    requires At(data, at, EncodeElem(e))
    ensures var o := at + |e.key| + 2;
            && o + |Payload(e.value)| == at + |EncodeElem(e)| && data[at] == TypeCode(e.value)
            && o <= |data| && FindNul(data, at + 1) + 1 == o && data[at + 1..o - 1] == e.key
            && At(data, o, Payload(e.value))
  {
    var t := TypeCode(e.value);
    AtAppend(data, at, [t], (e.key + [0]) + Payload(e.value));
    assert data[at + 0] == [t][0];
    AtAppend(data, at + 1, e.key + [0], Payload(e.value));
    AtString(data, at + 1, e.key);
  }

  /** The layout found for a payload ends with it, and the accessor hands out its content. */
  predicate Decoded(data: seq<Byte>, at: nat, o: nat, v: Value)
    requires 0 < o <= |data| <= INT_MAX
  {
    var l := LayoutAt(data, at, TypeCode(v), o);
    && l.Fields? && l.next == o + |Payload(v)| < |data|
    && var e := Element(at, o, l.d2, l.d3, l.d4, l.next);
       Fetched(data, TypeCode(v), AccessBy(data, TypeCode(v), e)) == ContentOf(v)
  }

  /** A payload with room behind it. */
  ghost predicate Encoded(data: seq<Byte>, o: nat, v: Value) {
    4 <= o && At(data, o, Payload(v)) && o + |Payload(v)| < |data| <= INT_MAX
  }

  lemma {:induction false} TextCase(data: seq<Byte>, at: nat, o: nat, v: Value, s: seq<Byte>)
    requires Encoded(data, o, v) && (v == Utf8(s) || v == Code(s) || v == Symbol(s))
    ensures Decoded(data, at, o, v)
  {
    TextDecodes(data, o, s);
  }

  lemma {:induction false} DocumentCase(data: seq<Byte>, at: nat, o: nat, v: Value, doc: Doc)
    requires Encoded(data, o, v) && (v == Document(doc) || v == Array(doc))
    ensures Decoded(data, at, o, v)
  {
    DocumentDecodes(data, o, doc);
  }

  lemma {:induction false} BinaryCase(data: seq<Byte>, at: nat, o: nat, subtype: Byte, s: seq<Byte>)
    requires Encoded(data, o, Binary(subtype, s))
    ensures Decoded(data, at, o, Binary(subtype, s))
  {
    if subtype == 2 { OldBinaryDecodes(data, o, s); } else { PlainBinaryDecodes(data, o, subtype, s); }
  }

  lemma {:induction false} RegexCase(data: seq<Byte>, at: nat, o: nat, p: CString, q: CString)
    requires Encoded(data, o, Regex(p, q))
    ensures Decoded(data, at, o, Regex(p, q))
  {
    RegexDecodes(data, at, o, p, q);
  }

  lemma {:induction false} PointerCase(data: seq<Byte>, at: nat, o: nat, c: seq<Byte>, id: Bytes12)
    requires Encoded(data, o, DbPointer(c, id))
    ensures Decoded(data, at, o, DbPointer(c, id))
  {
    PointerDecodes(data, o, c, id);
  }

  lemma {:induction false} ScopeCase(data: seq<Byte>, at: nat, o: nat, s: seq<Byte>, scope: Doc)
    requires Encoded(data, o, CodeWScope(s, scope))
    ensures Decoded(data, at, o, CodeWScope(s, scope))
  {
    hide ScopeLayout, EncodeDoc;
    ScopeDecodes(data, o, s, scope);
    ScopeParts(data, o, s, scope);
  }

  lemma {:induction false} BoolCase(data: seq<Byte>, at: nat, o: nat, b: bool)
    requires Encoded(data, o, Bool(b))
    ensures Decoded(data, at, o, Bool(b))
  {
    assert data[o + 0] == Payload(Bool(b))[0];
  }

  lemma {:induction false} FixedCase(data: seq<Byte>, at: nat, o: nat, v: Value)
    requires Encoded(data, o, v) && (ContentOf(v).Fixed? || ContentOf(v).Nothing?)
    ensures Decoded(data, at, o, v)
  {
    hide StringLayout, BinaryLayout, DocumentLayout, RegexLayout, PointerLayout, ScopeLayout, EncodeDoc;
    AtSlice(data, o, Payload(v));
  }

  /** Every kind of payload is decoded. */
  lemma {:induction false} PayloadDecodes(data: seq<Byte>, at: nat, o: nat, v: Value)
    requires Encoded(data, o, v)
    ensures Decoded(data, at, o, v)
  {
    match v
    case Utf8(s) => TextCase(data, at, o, v, s);
    case Code(s) => TextCase(data, at, o, v, s);
    case Symbol(s) => TextCase(data, at, o, v, s);
    case Document(doc) => DocumentCase(data, at, o, v, doc);
    case Array(doc) => DocumentCase(data, at, o, v, doc);
    case Binary(subtype, s) => BinaryCase(data, at, o, subtype, s);
    case Regex(p, q) => RegexCase(data, at, o, p, q);
    case DbPointer(c, id) => PointerCase(data, at, o, c, id);
    case CodeWScope(s, scope) => ScopeCase(data, at, o, s, scope);
    case Bool(b) => BoolCase(data, at, o, b);
    case _ => FixedCase(data, at, o, v);
  }

  /** What an abstract element shows. */
  function SeenOf(e: Elem): Seen { Seen(TypeCode(e.value), e.key, ContentOf(e.value)) }

  /** A step at an encoded element decodes it up to its last byte. */
  lemma {:induction false} StepDecodes(data: seq<Byte>, at: nat, e: Elem)
    requires 4 <= at && At(data, at, EncodeElem(e)) && at + |EncodeElem(e)| < |data| <= INT_MAX
    ensures StepOf(data, StepAt(data, at)) && StepAt(data, at).off == at
    ensures StepAt(data, at).next == at + |EncodeElem(e)|
    ensures Show(data, StepAt(data, at)) == SeenOf(e)
  {
    KeyDecodes(data, at, e);
    PayloadDecodes(data, at, at + |e.key| + 2, e.value);
    DecodedStep(data, at, e);
  }

  lemma {:induction false} DecodedStep(data: seq<Byte>, at: nat, e: Elem)
    requires |data| <= INT_MAX && 4 <= at && at + |e.key| + 2 <= |data| && data[at] == TypeCode(e.value)
    requires FindNul(data, at + 1) == at + |e.key| + 1 && data[at + 1..at + |e.key| + 1] == e.key
    requires Decoded(data, at, at + |e.key| + 2, e.value)
    ensures StepOf(data, StepAt(data, at)) && StepAt(data, at).off == at
    ensures StepAt(data, at).next == at + |e.key| + 2 + |Payload(e.value)|
    ensures Show(data, StepAt(data, at)) == SeenOf(e)
  {
    hide LayoutAt, AccessBy, Fetched, ContentOf, Payload;
    var o := at + |e.key| + 2;
    var l := LayoutAt(data, at, data[at], o);
    StepIs(data, at, o, l);
    assert o - 1 == at + |e.key| + 1;
    ShowIs(data, Element(at, o, l.d2, l.d3, l.d4, l.next), ContentOf(e.value));
  }

  lemma {:induction false} StepIs(data: seq<Byte>, at: nat, o: nat, l: Layout)
    requires at + 1 < o <= |data| <= INT_MAX && FindNul(data, at + 1) + 1 == o
    requires l == LayoutAt(data, at, data[at], o) && l.Fields? && l.next < |data|
    ensures StepAt(data, at) == Element(at, o, l.d2, l.d3, l.d4, l.next)
  {
  }

  lemma {:induction false} ShowIs(data: seq<Byte>, e: Step, c: Content)
    requires StepOf(data, e) && e.off + 1 < e.d1 <= |data|
    requires Laid(data, e, LayoutAt(data, e.off, data[e.off], e.d1))
    requires Fetched(data, data[e.off], AccessBy(data, data[e.off], e)) == c
    ensures Show(data, e) == Seen(data[e.off], data[e.off + 1..e.d1 - 1], c)
  {
  }

  function ShowAll(data: seq<Byte>, es: seq<Step>): (r: seq<Seen>)
    requires forall e <- es :: StepOf(data, e)
    ensures |r| == |es|
  {
    if es == [] then [] else [Show(data, es[0])] + ShowAll(data, es[1..])
  }

  function SeenAll(doc: Doc): (r: seq<Seen>)
    ensures |r| == |doc|
  {
    if doc == [] then [] else [SeenOf(doc[0])] + SeenAll(doc[1..])
  }

  /** Walking over encoded elements shows each of them, in order, and stops on the final zero without an error. */
  lemma {:induction false} WalkDecodes(data: seq<Byte>, at: nat, doc: Doc)
    requires 4 <= at && At(data, at, EncodeElems(doc)) && at + |EncodeElems(doc)| + 1 == |data| <= INT_MAX
    decreases doc
    ensures forall e <- Walk(data, at).0 :: StepOf(data, e)
    ensures ShowAll(data, Walk(data, at).0) == SeenAll(doc)
    ensures Walk(data, at).1 == 0
  {
    hide StepAt, Show, EncodeElem;
    if doc == [] {
      WalkEnd(data, at);
    } else {
      var first, rest := EncodeElem(doc[0]), EncodeElems(doc[1..]);
      assert EncodeElems(doc) == first + rest;
      AtAppend(data, at, first, rest);
      StepDecodes(data, at, doc[0]);
      WalkDecodes(data, at + |first|, doc[1..]);
      WalkCons(data, at, doc);
    }
  }

  lemma {:induction false} WalkEnd(data: seq<Byte>, at: nat)
    requires at + 1 == |data| <= INT_MAX
    ensures Walk(data, at) == ([], 0)
  {
    assert FindNul(data, at + 1) == |data|;
  }

  lemma {:induction false} WalkCons(data: seq<Byte>, at: nat, doc: Doc)
    requires doc != [] && |data| <= INT_MAX && StepOf(data, StepAt(data, at))
    requires Show(data, StepAt(data, at)) == SeenOf(doc[0])
    requires forall e <- Walk(data, StepAt(data, at).next).0 :: StepOf(data, e)
    requires ShowAll(data, Walk(data, StepAt(data, at).next).0) == SeenAll(doc[1..])
    ensures forall e <- Walk(data, at).0 :: StepOf(data, e)
    ensures ShowAll(data, Walk(data, at).0) == SeenAll(doc)
    ensures Walk(data, at).1 == Walk(data, StepAt(data, at).next).1
  {
    WalkFirst(data, at);
    ShowFirst(data, Walk(data, at).0);
  }

  lemma {:induction false} ShowFirst(data: seq<Byte>, es: seq<Step>)
    requires es != [] && StepOf(data, es[0]) && forall e <- es[1..] :: StepOf(data, e)
    ensures forall e <- es :: StepOf(data, e)
    ensures ShowAll(data, es) == [Show(data, es[0])] + ShowAll(data, es[1..])
  {
    forall e <- es ensures StepOf(data, e) {
      if e != es[0] { assert e in es[1..]; }
    }
  }

  lemma {:induction false} WalkFirst(data: seq<Byte>, at: nat)
    requires |data| <= INT_MAX && StepAt(data, at).Element?
    ensures var e := StepAt(data, at);
            && Walk(data, at).0 != [] && Walk(data, at).0[0] == e && Walk(data, at).0[1..] == Walk(data, e.next).0
            && Walk(data, at).1 == Walk(data, e.next).1
  {
    Inside(data, StepAt(data, at));
  }

  /** Iterating over an encoded document: accepted, all elements with their contents, no error at the end. */
  lemma {:induction false} DecodesDocument(doc: Doc)
    requires |EncodeDoc(doc)| <= INT_MAX
    ensures Accepted(EncodeDoc(doc))
    ensures var (es, err) := Walk(EncodeDoc(doc), 4);
            (forall e <- es :: StepOf(EncodeDoc(doc), e)) && ShowAll(EncodeDoc(doc), es) == SeenAll(doc) && err == 0
  {
    var data := EncodeDoc(doc);
    assert At(data, 0, data);
    DocAt(data, 0, doc);
    assert data == LE32(|EncodeElems(doc)| + 5) + (EncodeElems(doc) + [0]);
    AtAppend(data, 0, LE32(|EncodeElems(doc)| + 5), EncodeElems(doc) + [0]);
    AtAppend(data, 4, EncodeElems(doc), [0]);
    WalkDecodes(data, 4, doc);
  }

  /** The iterator object on an encoded document: accepted, every element seen, no error. */
  method IterateDocument(doc: Doc, iter: Iter) returns (ghost seen: seq<Seen>, count: nat)
    requires |EncodeDoc(doc)| <= INT_MAX
    modifies iter
    ensures seen == SeenAll(doc) && count == |doc| && iter.errOff == 0 && !iter.live
  {
    DecodesDocument(doc);
    var ok := iter.InitFromData(EncodeDoc(doc));
    var es := Drain(iter);
    seen := ShowAll(EncodeDoc(doc), es);
    count := |es|;
  }
}
