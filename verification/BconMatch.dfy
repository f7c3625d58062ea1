/** The extraction machine against recursive pattern matching, and extraction as the inverse of building. */
module BconMatch {
  import opened Basics
  import opened BsonDocument
  import opened BconExtract

  datatype Pat =
    | Leaf(spec: Spec)
    | DocPat(fields: seq<PatField>, dangling: Option<CString>)
    | ArrPat(items: seq<Pat>)

  datatype PatField = PatField(name: CString, pat: Pat)

  function DanglingKey(k: Option<CString>): seq<Probe> { if k.None? then [] else [Raw(k.value)] }

  function Flat(p: Pat): (ts: seq<Probe>)
    decreases p
  {
    match p
    case Leaf(spec) => [Probe.Typed(spec)]
    case DocPat(fields, dangling) => [EnterDoc] + (FlatFields(fields) + (DanglingKey(dangling) + [LeaveDoc]))
    case ArrPat(items) => [EnterArray] + (FlatItems(items) + [LeaveArray])
  }

  function FlatFields(fs: seq<PatField>): seq<Probe>
    decreases fs
  {
    if fs == [] then []
    else FlatFields(fs[..|fs| - 1]) + ([Raw(fs[|fs| - 1].name)] + Flat(fs[|fs| - 1].pat))
  }

  function FlatItems(items: seq<Pat>): seq<Probe>
    decreases items
  {
    if items == [] then [] else FlatItems(items[..|items| - 1]) + Flat(items[|items| - 1])
  }

  lemma FlatFieldsSnoc(fs: seq<PatField>, f: PatField)
    ensures FlatFields(fs + [f]) == FlatFields(fs) + ([Raw(f.name)] + Flat(f.pat))
  {
    assert (fs + [f])[..|fs|] == fs;
  }

  lemma FlatItemsSnoc(items: seq<Pat>, p: Pat)
    ensures FlatItems(items + [p]) == FlatItems(items) + Flat(p)
  {
    assert (items + [p])[..|items|] == items;
  }

  /** Yes with the captured values in pattern order; Deep when the match needs more levels than the stack has. */
  datatype Verdict = Yes(captured: seq<Value>) | No | Deep

  function Then(a: Verdict, b: Verdict): Verdict {
    if a.Yes? && b.Yes? then Yes(a.captured + b.captured) else if a.Yes? then b else a
  }

  /** Whether a value matches a pattern at some level of nesting. */
  function Match(p: Pat, v: Value, level: nat): Verdict
    decreases p, 0
  {
    match p
    case Leaf(spec) => (match Single(v, spec) case None => No case Some(out) => Yes(out))
    case DocPat(fields, _) =>
      if !v.Document? then No else if level >= STACK_MAX then Deep else MatchFields(fields, v.doc, level + 1)
    case ArrPat(items) =>
      if !v.Array? then No else if level >= STACK_MAX then Deep else MatchItems(items, v.doc, level + 1)
  }

  /** The first element with the key decides. */
  function MatchKey(key: CString, p: Pat, doc: Doc, level: nat): Verdict
    decreases p, 1
  {
    match Lookup(doc, key)
    case None => No
    case Some(v) => Match(p, v, level)
  }

  function MatchFields(fs: seq<PatField>, doc: Doc, level: nat): Verdict
    decreases fs
  {
    if fs == [] then Yes([])
    else
      var last := fs[|fs| - 1];
      Then(MatchFields(fs[..|fs| - 1], doc, level), MatchKey(last.name, last.pat, doc, level))
  }

  function MatchItems(items: seq<Pat>, doc: Doc, level: nat): Verdict
    decreases items
  {
    if items == [] then Yes([])
    else
      Then(MatchItems(items[..|items| - 1], doc, level),
           MatchKey(ArrayKey(|items| - 1), items[|items| - 1], doc, level))
  }

  /** How the machine goes on after a part of the pattern. */
  function Onward(v: Verdict, stack: seq<Search>, ts: seq<Probe>, out: seq<Value>): Answer
    requires stack != [] && Stops(ts)
  {
    match v
    case Yes(captured) => Run(stack, ts, out + captured)
    case No => Failed
    case Deep => Broken
  }

  /** How the machine goes on after a value. */
  function Resume(m: Move, ts: seq<Probe>, out: seq<Value>): Answer
    requires (m.Go? ==> m.stack != []) && Stops(ts)
  {
    match m
    case Go(after, captured) => Run(after, ts, out + captured)
    case Mismatch => Failed
    case Assertion => Broken
  }

  lemma StepKey(stack: seq<Search>, key: CString, rest: seq<Probe>, out: seq<Value>)
    requires stack != [] && !Current(stack).isArray && Stops(rest)
    ensures Run(stack, [Raw(key)] + rest, out) == RunValue(stack, key, rest, out)
  {
    Cut(Raw(key), rest);
  }

  lemma StepLeave(stack: seq<Search>, rest: seq<Probe>, out: seq<Value>)
    requires |stack| > 1 && !Current(stack).isArray && Stops(rest)
    ensures Run(stack, [LeaveDoc] + rest, out) == Run(Under(stack), rest, out)
  {
    Cut(LeaveDoc, rest);
  }

  lemma StepValue(stack: seq<Search>, key: CString, p: Probe, rest: seq<Probe>, out: seq<Value>)
    requires stack != [] && Stops(rest)
    ensures RunValue(stack, key, [p] + rest, out) == Resume(ValueMove(stack, key, p), rest, out)
  {
    Cut(p, rest);
  }

  lemma StepIndex(stack: seq<Search>, ts: seq<Probe>, out: seq<Value>)
    requires stack != [] && Current(stack).isArray && Stops(ts)
    ensures Run(stack, ts, out) == RunValue(Bump(stack), ArrayKey(Current(stack).i), ts, out)
  {
  }

  lemma LeavePushed(stack: seq<Search>, s: Search)
    ensures Under(stack + [s]) == stack && Current(stack + [s]) == s
    ensures Bump(stack + [s]) == stack + [s.(i := s.i + 1)]
  {
  }

  lemma CaptureMore(out: seq<Value>, a: seq<Value>, b: seq<Value>)
    ensures out + (a + b) == out + a + b && out + [] == out
  {
  }

  lemma CloseDoc(stack: seq<Search>, doc: Doc, dangling: Option<CString>, rest: seq<Probe>, out: seq<Value>)
    requires stack != [] && Stops(rest)
    ensures Run(stack + [Search(false, 0, doc)], DanglingKey(dangling) + ([LeaveDoc] + rest), out)
         == Run(stack, rest, out)
  {
    var inner := stack + [Search(false, 0, doc)];
    LeavePushed(stack, Search(false, 0, doc));
    CaptureMore(out, [], []);
    if dangling.None? {
      assert [] + ([LeaveDoc] + rest) == [LeaveDoc] + rest;
      StepLeave(inner, rest, out);
    } else {
      StepKey(inner, dangling.value, [LeaveDoc] + rest, out);
      StepValue(inner, dangling.value, LeaveDoc, rest, out);
    }
  }

  lemma CloseArray(stack: seq<Search>, s: Search, rest: seq<Probe>, out: seq<Value>)
    requires stack != [] && s.isArray && Stops(rest)
    ensures Run(stack + [s], [LeaveArray] + rest, out) == Run(stack, rest, out)
  {
    LeavePushed(stack, s);
    LeavePushed(stack, s.(i := s.i + 1));
    CaptureMore(out, [], []);
    StepIndex(stack + [s], [LeaveArray] + rest, out);
    StepValue(stack + [s.(i := s.i + 1)], ArrayKey(s.i), LeaveArray, rest, out);
  }

  lemma FlatDoc(fields: seq<PatField>, dangling: Option<CString>, rest: seq<Probe>)
    ensures Flat(DocPat(fields, dangling)) + rest
         == [EnterDoc] + (FlatFields(fields) + (DanglingKey(dangling) + ([LeaveDoc] + rest)))
  {
    assert DanglingKey(dangling) + [LeaveDoc] + rest == DanglingKey(dangling) + ([LeaveDoc] + rest);
  }

  lemma FlatArray(items: seq<Pat>, rest: seq<Probe>)
    ensures Flat(ArrPat(items)) + rest == [EnterArray] + (FlatItems(items) + ([LeaveArray] + rest))
  {
  }

  /** After a key, the machine decides as the recursive match does. */
  lemma {:induction false} RunPat(stack: seq<Search>, key: CString, p: Pat, rest: seq<Probe>, out: seq<Value>)
    requires stack != [] && Stops(rest)
    ensures RunValue(stack, key, Flat(p) + rest, out)
         == Onward(MatchKey(key, p, Current(stack).doc, |stack|), stack, rest, out)
    decreases p, 0
  {
    match p
    case Leaf(spec) => StepValue(stack, key, Probe.Typed(spec), rest, out);
    case DocPat(fields, dangling) => RunDocPat(stack, key, fields, dangling, rest, out);
    case ArrPat(items) => RunArrPat(stack, key, items, rest, out);
  }

  lemma RunDocPat(stack: seq<Search>, key: CString, fields: seq<PatField>, dangling: Option<CString>, rest: seq<Probe>,
                  out: seq<Value>)
    requires stack != [] && Stops(rest)
    ensures RunValue(stack, key, Flat(DocPat(fields, dangling)) + rest, out)
         == Onward(MatchKey(key, DocPat(fields, dangling), Current(stack).doc, |stack|), stack, rest, out)
    decreases fields, 2
  {
    FlatDoc(fields, dangling, rest);
    hide Run, RunValue, Flat, FlatFields, MatchFields;
    StepValue(stack, key, EnterDoc, FlatFields(fields) + (DanglingKey(dangling) + ([LeaveDoc] + rest)), out);
    var found := Lookup(Current(stack).doc, key);
    if found.Some? && found.value.Document? && |stack| < STACK_MAX {
      CaptureMore(out, [], []);
      RunDoc(stack, found.value.doc, fields, dangling, rest, out);
    }
  }

  lemma RunArrPat(stack: seq<Search>, key: CString, items: seq<Pat>, rest: seq<Probe>, out: seq<Value>)
    requires stack != [] && Stops(rest)
    ensures RunValue(stack, key, Flat(ArrPat(items)) + rest, out)
         == Onward(MatchKey(key, ArrPat(items), Current(stack).doc, |stack|), stack, rest, out)
    decreases items, 2
  {
    FlatArray(items, rest);
    StepValue(stack, key, EnterArray, FlatItems(items) + ([LeaveArray] + rest), out);
    var found := Lookup(Current(stack).doc, key);
    if found.Some? && found.value.Array? && |stack| < STACK_MAX {
      CaptureMore(out, [], []);
      RunArray(stack, found.value.doc, items, rest, out);
    }
  }

  lemma RunDoc(stack: seq<Search>, doc: Doc, fields: seq<PatField>, dangling: Option<CString>, rest: seq<Probe>,
               out: seq<Value>)
    requires stack != [] && Stops(rest)
    ensures Run(stack + [Search(false, 0, doc)],
                FlatFields(fields) + (DanglingKey(dangling) + ([LeaveDoc] + rest)), out)
         == Onward(MatchFields(fields, doc, |stack| + 1), stack, rest, out)
    decreases fields, 1
  {
    RunFields(stack + [Search(false, 0, doc)], fields, DanglingKey(dangling) + ([LeaveDoc] + rest), out);
    var v := MatchFields(fields, doc, |stack| + 1);
    if v.Yes? { CloseDoc(stack, doc, dangling, rest, out + v.captured); }
  }

  lemma RunArray(stack: seq<Search>, doc: Doc, items: seq<Pat>, rest: seq<Probe>, out: seq<Value>)
    requires stack != [] && Stops(rest)
    ensures Run(stack + [Search(true, 0, doc)], FlatItems(items) + ([LeaveArray] + rest), out)
         == Onward(MatchItems(items, doc, |stack| + 1), stack, rest, out)
    decreases items, 1
  {
    RunItems(stack, doc, items, [LeaveArray] + rest, out);
    var v := MatchItems(items, doc, |stack| + 1);
    if v.Yes? { CloseArray(stack, Search(true, |items|, doc), rest, out + v.captured); }
  }

  lemma {:induction false} RunFields(stack: seq<Search>, fs: seq<PatField>, rest: seq<Probe>, out: seq<Value>)
    requires stack != [] && !Current(stack).isArray && Stops(rest)
    ensures Run(stack, FlatFields(fs) + rest, out)
         == Onward(MatchFields(fs, Current(stack).doc, |stack|), stack, rest, out)
    decreases fs, 0
  {
    if fs == [] {
      CaptureMore(out, [], []);
      assert [] + rest == rest;
    } else {
      var init, last := fs[..|fs| - 1], fs[|fs| - 1];
      var tail := Flat(last.pat) + rest;
      assert FlatFields(fs) + rest == FlatFields(init) + ([Raw(last.name)] + tail);
      RunFields(stack, init, [Raw(last.name)] + tail, out);
      var v := MatchFields(init, Current(stack).doc, |stack|);
      if v.Yes? {
        StepKey(stack, last.name, tail, out + v.captured);
        RunPat(stack, last.name, last.pat, rest, out + v.captured);
        OnwardThen(v.captured, MatchKey(last.name, last.pat, Current(stack).doc, |stack|), stack, rest, out);
      }
    }
  }

  lemma {:induction false} RunItems(under: seq<Search>, doc: Doc, items: seq<Pat>, rest: seq<Probe>, out: seq<Value>)
    requires under != [] && Stops(rest)
    ensures Run(under + [Search(true, 0, doc)], FlatItems(items) + rest, out)
         == Onward(MatchItems(items, doc, |under| + 1), under + [Search(true, |items|, doc)], rest, out)
    decreases items, 0
  {
    if items == [] {
      CaptureMore(out, [], []);
      assert [] + rest == rest;
    } else {
      var init, last := items[..|items| - 1], items[|items| - 1];
      assert FlatItems(items) + rest == FlatItems(init) + (Flat(last) + rest);
      RunItems(under, doc, init, Flat(last) + rest, out);
      var v := MatchItems(init, doc, |under| + 1);
      if v.Yes? { RunItem(under, Search(true, |init|, doc), last, rest, out, v.captured); }
    }
  }

  lemma RunItem(under: seq<Search>, s: Search, p: Pat, rest: seq<Probe>, out: seq<Value>, captured: seq<Value>)
    requires under != [] && s.isArray && Stops(rest)
    ensures Run(under + [s], Flat(p) + rest, out + captured)
         == Onward(Then(Yes(captured), MatchKey(ArrayKey(s.i), p, s.doc, |under| + 1)),
                   under + [s.(i := s.i + 1)], rest, out)
    decreases p, 1
  {
    var next := under + [s.(i := s.i + 1)];
    LeavePushed(under, s);
    LeavePushed(under, s.(i := s.i + 1));
    StepIndex(under + [s], Flat(p) + rest, out + captured);
    RunPat(next, ArrayKey(s.i), p, rest, out + captured);
    OnwardThen(captured, MatchKey(ArrayKey(s.i), p, s.doc, |under| + 1), next, rest, out);
  }

  lemma OnwardThen(captured: seq<Value>, w: Verdict, stack: seq<Search>, ts: seq<Probe>, out: seq<Value>)
    requires stack != [] && Stops(ts)
    ensures Onward(w, stack, ts, out + captured) == Onward(Then(Yes(captured), w), stack, ts, out)
  {
    if w.Yes? { CaptureMore(out, captured, w.captured); }
  }

  /** The machine returns true exactly when the pattern matches, with the same captures. */
  lemma Extracts(fields: seq<PatField>, doc: Doc, rest: seq<Probe>)
    requires rest == [] || Stops(rest)
    ensures Stops(FlatFields(fields) + ([Stop] + rest))
    ensures Run([Search(false, 0, doc)], FlatFields(fields) + ([Stop] + rest), []) ==
            match MatchFields(fields, doc, 1)
            case Yes(captured) => Matched([Search(false, 0, doc)], rest, captured)
            case No => Failed
            case Deep => Broken
  {
    RunFields([Search(false, 0, doc)], fields, [Stop] + rest, []);
    Cut(Stop, rest);
    var v := MatchFields(fields, doc, 1);
    if v.Yes? { assert [] + v.captured == v.captured; }
  }

  /** Every document inside has distinct keys, and every array counts from zero. */
  predicate WellKeyed(v: Value)
    decreases v
  {
    match v
    case Document(doc) => DistinctKeys(doc) && (forall i :: 0 <= i < |doc| ==> WellKeyed(doc[i].value))
    case Array(doc) => Numbered(doc) && (forall i :: 0 <= i < |doc| ==> WellKeyed(doc[i].value))
    case _ => true
  }

  /** The pattern that asks for every leaf of a value by its type. */
  function PatternOf(v: Value): Pat
    decreases v
  {
    match v
    case Document(doc) => DocPat(FieldsOf(doc), None)
    case Array(doc) => ArrPat(ItemsOf(doc))
    case _ => Leaf(Capture(TypeCode(v)))
  }

  function FieldsOf(doc: Doc): (fs: seq<PatField>)
    decreases doc
    ensures |fs| == |doc|
  {
    if doc == [] then []
    else FieldsOf(doc[..|doc| - 1]) + [PatField(doc[|doc| - 1].key, PatternOf(doc[|doc| - 1].value))]
  }

  function ItemsOf(doc: Doc): (items: seq<Pat>)
    decreases doc
    ensures |items| == |doc|
  {
    if doc == [] then [] else ItemsOf(doc[..|doc| - 1]) + [PatternOf(doc[|doc| - 1].value)]
  }

  /** The leaves that hold a value, in order. */
  function Leaves(v: Value): seq<Value>
    decreases v
  {
    match v
    case Document(doc) => LeavesOf(doc)
    case Array(doc) => LeavesOf(doc)
    case _ => if Valueless(TypeCode(v)) then [] else [v]
  }

  function LeavesOf(doc: Doc): seq<Value>
    decreases doc
  {
    if doc == [] then [] else LeavesOf(doc[..|doc| - 1]) + Leaves(doc[|doc| - 1].value)
  }

  function Depth(v: Value): nat
    decreases v
  {
    match v
    case Document(doc) => 1 + DepthOf(doc)
    case Array(doc) => 1 + DepthOf(doc)
    case _ => 0
  }

  function DepthOf(doc: Doc): nat
    decreases doc
  {
    if doc == [] then 0 else Larger(DepthOf(doc[..|doc| - 1]), Depth(doc[|doc| - 1].value))
  }

  /** A value matches its own pattern, which captures its leaves. */
  lemma {:induction false} MatchesOwn(v: Value, level: nat)
    requires WellKeyed(v) && level + Depth(v) <= STACK_MAX
    ensures Match(PatternOf(v), v, level) == Yes(Leaves(v))
    decreases v
  {
    match v
    case Document(doc) => MatchesFields(doc, doc, level + 1);
    case Array(doc) => MatchesItems(doc, doc, level + 1);
    case _ =>
  }

  lemma {:induction false} MatchesFields(doc: Doc, all: Doc, level: nat)
    requires DistinctKeys(all) && doc <= all && level + DepthOf(doc) <= STACK_MAX
    requires forall i :: 0 <= i < |doc| ==> WellKeyed(doc[i].value)
    ensures MatchFields(FieldsOf(doc), all, level) == Yes(LeavesOf(doc))
    decreases doc
  {
    if doc != [] {
      var init, last := doc[..|doc| - 1], doc[|doc| - 1];
      MatchesFields(init, all, level);
      MatchesOwn(last.value, level);
      LookupDistinct(all, |doc| - 1);
      assert FieldsOf(doc)[..|doc| - 1] == FieldsOf(init);
      assert MatchKey(last.key, PatternOf(last.value), all, level) == Yes(Leaves(last.value));
    }
  }

  lemma {:induction false} MatchesItems(doc: Doc, all: Doc, level: nat)
    requires Numbered(all) && doc <= all && level + DepthOf(doc) <= STACK_MAX
    requires forall i :: 0 <= i < |doc| ==> WellKeyed(doc[i].value)
    ensures MatchItems(ItemsOf(doc), all, level) == Yes(LeavesOf(doc))
    decreases doc
  {
    if doc != [] {
      var init, last := doc[..|doc| - 1], doc[|doc| - 1];
      MatchesItems(init, all, level);
      MatchesOwn(last.value, level);
      NumberedDistinct(all);
      LookupDistinct(all, |doc| - 1);
      assert ItemsOf(doc)[..|doc| - 1] == ItemsOf(init);
      assert MatchKey(ArrayKey(|doc| - 1), PatternOf(last.value), all, level) == Yes(Leaves(last.value));
    }
  }

  /** Extraction with a document's own pattern returns true and every leaf. */
  lemma ExtractsOwn(doc: Doc)
    requires WellKeyed(Document(doc)) && DepthOf(doc) < STACK_MAX
    ensures Stops(FlatFields(FieldsOf(doc)) + [Stop])
    ensures Run([Search(false, 0, doc)], FlatFields(FieldsOf(doc)) + [Stop], [])
         == Matched([Search(false, 0, doc)], [], LeavesOf(doc))
  {
    MatchesFields(doc, doc, 1);
    Extracts(FieldsOf(doc), doc, []);
    assert [Stop] + [] == [Stop];
  }
}
