/** When a pattern fits a document, by types and constructors alone, and what it captures then. */
module BconFits {
  import opened Basics
  import opened BsonDocument
  import Bcon
  import opened BconExtract
  import opened BconMatch

  /** The value is of the constructor that the type byte stands for. */
  predicate OfType(v: Value, t: Byte) {
    || (t == 0x01 && v.Double?) || (t == 0x02 && v.Utf8?) || (t == 0x03 && v.Document?) || (t == 0x04 && v.Array?)
    || (t == 0x05 && v.Binary?) || (t == 0x06 && v.Undefined?) || (t == 0x07 && v.ObjectId?) || (t == 0x08 && v.Bool?)
    || (t == 0x09 && v.DateTime?) || (t == 0x0A && v.Null?) || (t == 0x0B && v.Regex?) || (t == 0x0C && v.DbPointer?)
    || (t == 0x0D && v.Code?) || (t == 0x0E && v.Symbol?) || (t == 0x0F && v.CodeWScope?) || (t == 0x10 && v.Int32?)
    || (t == 0x11 && v.Timestamp?) || (t == 0x12 && v.Int64?) || (t == 0x13 && v.Decimal128?)
    || (t == 0x7F && v.MaxKey?) || (t == 0xFF && v.MinKey?)
  }

  /** A leaf asks for a type or for nothing; a bracket for a document or an array whose parts fit. */
  predicate Fits(p: Pat, v: Value)
    decreases p, 0
  {
    match p
    case Leaf(spec) => spec.Any? || OfType(v, spec.t)
    case DocPat(fields, _) => v.Document? && FitFields(fields, v.doc)
    case ArrPat(items) => v.Array? && FitItems(items, v.doc)
  }

  /** The first element with the key fits. */
  predicate FitsAt(key: CString, p: Pat, doc: Doc)
    decreases p, 1
  {
    Place(doc, key) < |doc| && Fits(p, doc[Place(doc, key)].value)
  }

  predicate FitFields(fields: seq<PatField>, doc: Doc)
    decreases fields, 0
  {
    forall i :: 0 <= i < |fields| ==> FitsAt(fields[i].name, fields[i].pat, doc)
  }

  predicate FitItems(items: seq<Pat>, doc: Doc)
    decreases items, 0
  {
    forall i :: 0 <= i < |items| ==> FitsAt(ArrayKey(i), items[i], doc)
  }

  /** What the leaves of a pattern capture: every value met by Any, and those met by Capture that hold something. */
  function Captured(p: Pat, v: Value): seq<Value>
    decreases p, 0
  {
    match p
    case Leaf(Any) => [v]
    case Leaf(Skip(_)) => []
    case Leaf(Capture(_)) => if v.Undefined? || v.Null? || v.MinKey? || v.MaxKey? then [] else [v]
    case DocPat(fields, _) => if v.Document? then FieldsCaptured(fields, v.doc) else []
    case ArrPat(items) => if v.Array? then ItemsCaptured(items, v.doc) else []
  }

  function CapturedAt(key: CString, p: Pat, doc: Doc): seq<Value>
    decreases p, 1
  {
    if Place(doc, key) < |doc| then Captured(p, doc[Place(doc, key)].value) else []
  }

  function FieldsCaptured(fields: seq<PatField>, doc: Doc): seq<Value>
    decreases fields
  {
    if fields == [] then []
    else
      FieldsCaptured(fields[..|fields| - 1], doc)
      + CapturedAt(fields[|fields| - 1].name, fields[|fields| - 1].pat, doc)
  }

  function ItemsCaptured(items: seq<Pat>, doc: Doc): seq<Value>
    decreases items
  {
    if items == [] then []
    else ItemsCaptured(items[..|items| - 1], doc) + CapturedAt(ArrayKey(|items| - 1), items[|items| - 1], doc)
  }

  /** How many brackets a pattern opens inside each other. */
  function Nesting(p: Pat): nat
    decreases p
  {
    match p
    case Leaf(_) => 0
    case DocPat(fields, _) => 1 + FieldsNesting(fields)
    case ArrPat(items) => 1 + ItemsNesting(items)
  }

  function FieldsNesting(fields: seq<PatField>): nat
    decreases fields
  {
    if fields == [] then 0 else Larger(FieldsNesting(fields[..|fields| - 1]), Nesting(fields[|fields| - 1].pat))
  }

  function ItemsNesting(items: seq<Pat>): nat
    decreases items
  {
    if items == [] then 0 else Larger(ItemsNesting(items[..|items| - 1]), Nesting(items[|items| - 1]))
  }

  /** The verdict of the recursive match, by the relation. */
  predicate Judged(verdict: Verdict, fits: bool, captured: seq<Value>, deepest: nat) {
    && (verdict.Yes? <==> fits && deepest <= STACK_MAX)
    && (verdict.Yes? ==> verdict.captured == captured)
    && (deepest <= STACK_MAX ==> (verdict.No? <==> !fits))
  }

  lemma OneLeaf(spec: Spec, v: Value, level: nat)
    requires level <= STACK_MAX
    ensures Judged(Match(Leaf(spec), v, level), Fits(Leaf(spec), v), Captured(Leaf(spec), v), level)
  {
  }

  lemma {:induction false} PatJudged(p: Pat, v: Value, level: nat)
    requires level <= STACK_MAX
    ensures Judged(Match(p, v, level), Fits(p, v), Captured(p, v), level + Nesting(p))
    decreases p, 0
  {
    match p
    case Leaf(spec) => OneLeaf(spec, v, level);
    case DocPat(fields, _) => if v.Document? && level < STACK_MAX { FieldsJudged(fields, v.doc, level + 1); }
    case ArrPat(items) => if v.Array? && level < STACK_MAX { ItemsJudged(items, v.doc, level + 1); }
  }

  lemma KeyJudged(key: CString, p: Pat, doc: Doc, level: nat)
    requires level <= STACK_MAX
    ensures Judged(MatchKey(key, p, doc, level), FitsAt(key, p, doc), CapturedAt(key, p, doc), level + Nesting(p))
    decreases p, 1
  {
    FindsPlace(doc, key);
    if Place(doc, key) < |doc| { PatJudged(p, doc[Place(doc, key)].value, level); }
  }

  lemma BothJudged(a: Verdict, b: Verdict, fitsA: bool, fitsB: bool, capturedA: seq<Value>, capturedB: seq<Value>,
                   deepA: nat, deepB: nat)
    requires Judged(a, fitsA, capturedA, deepA) && Judged(b, fitsB, capturedB, deepB)
    ensures Judged(Then(a, b), fitsA && fitsB, capturedA + capturedB, Larger(deepA, deepB))
  {
  }

  lemma {:induction false} FieldsJudged(fields: seq<PatField>, doc: Doc, level: nat)
    requires level <= STACK_MAX
    ensures Judged(MatchFields(fields, doc, level), FitFields(fields, doc), FieldsCaptured(fields, doc),
                   level + FieldsNesting(fields))
    decreases fields, 0
  {
    if fields != [] {
      var init, last := fields[..|fields| - 1], fields[|fields| - 1];
      FieldsJudged(init, doc, level);
      KeyJudged(last.name, last.pat, doc, level);
      hide Judged, FitsAt, MatchKey;
      assert FitFields(fields, doc) <==> FitFields(init, doc) && FitsAt(last.name, last.pat, doc);
      BothJudged(MatchFields(init, doc, level), MatchKey(last.name, last.pat, doc, level), FitFields(init, doc),
                 FitsAt(last.name, last.pat, doc), FieldsCaptured(init, doc), CapturedAt(last.name, last.pat, doc),
                 level + FieldsNesting(init), level + Nesting(last.pat));
    }
  }

  lemma {:induction false} ItemsJudged(items: seq<Pat>, doc: Doc, level: nat)
    requires level <= STACK_MAX
    ensures Judged(MatchItems(items, doc, level), FitItems(items, doc), ItemsCaptured(items, doc),
                   level + ItemsNesting(items))
    decreases items, 0
  {
    if items != [] {
      var init, last, key := items[..|items| - 1], items[|items| - 1], ArrayKey(|items| - 1);
      ItemsJudged(init, doc, level);
      KeyJudged(key, last, doc, level);
      hide Judged, FitsAt, MatchKey;
      assert FitItems(items, doc) <==> FitItems(init, doc) && FitsAt(key, last, doc);
      BothJudged(MatchItems(init, doc, level), MatchKey(key, last, doc, level), FitItems(init, doc),
                 FitsAt(key, last, doc), ItemsCaptured(init, doc), CapturedAt(key, last, doc),
                 level + ItemsNesting(init), level + Nesting(last));
    }
  }

  /**
   * The machine answers true exactly when the document is of the types asked for and the brackets fit the stack, with
   * what the pattern captures; if they fit, it answers false exactly when the document is not.
   */
  lemma AnswersExactly(fields: seq<PatField>, doc: Doc, rest: seq<Probe>)
    requires rest == [] || Stops(rest)
    ensures Stops(FlatFields(fields) + ([Stop] + rest))
    ensures var answer := Run([Search(false, 0, doc)], FlatFields(fields) + ([Stop] + rest), []);
            && (answer.Matched? <==> FitFields(fields, doc) && FieldsNesting(fields) < 100)
            && (answer.Matched? ==> answer == Matched([Search(false, 0, doc)], rest, FieldsCaptured(fields, doc)))
            && (FieldsNesting(fields) < 100 ==> (answer == Failed <==> !FitFields(fields, doc)))
  {
    hide Run, MatchFields, FitFields, FieldsNesting, FieldsCaptured, FlatFields;
    Extracts(fields, doc, rest);
    FieldsJudged(fields, doc, 1);
  }

  /** No key that the pattern asks for is taken for a bracket; there is no other way to write it. */
  predicate Plain(p: Pat)
    decreases p, 0
  {
    match p
    case Leaf(_) => true
    case DocPat(fields, dangling) => PlainFields(fields) && (dangling.Some? ==> Bcon.Unbracketed(dangling.value))
    case ArrPat(items) => forall i :: 0 <= i < |items| ==> Plain(items[i])
  }

  predicate PlainFields(fields: seq<PatField>)
    decreases fields, 0
  {
    forall i :: 0 <= i < |fields| ==> Bcon.Unbracketed(fields[i].name) && Plain(fields[i].pat)
  }

  /** The arguments a programmer writes for a pattern. */
  function Arguments(p: Pat): seq<Pattern>
    decreases p
  {
    match p
    case Leaf(spec) => [Want(spec)]
    case DocPat(fields, dangling) =>
      [TextPattern([0x7B])] + (FieldsArguments(fields) + (DanglingArgument(dangling) + [TextPattern([0x7D])]))
    case ArrPat(items) => [TextPattern([0x5B])] + (ItemsArguments(items) + [TextPattern([0x5D])])
  }

  function DanglingArgument(k: Option<CString>): seq<Pattern> { if k.None? then [] else [TextPattern(k.value)] }

  function FieldsArguments(fields: seq<PatField>): seq<Pattern>
    decreases fields
  {
    if fields == [] then []
    else
      FieldsArguments(fields[..|fields| - 1])
      + ([TextPattern(fields[|fields| - 1].name)] + Arguments(fields[|fields| - 1].pat))
  }

  function ItemsArguments(items: seq<Pat>): seq<Pattern>
    decreases items
  {
    if items == [] then [] else ItemsArguments(items[..|items| - 1]) + Arguments(items[|items| - 1])
  }

  lemma {:induction false} ProbesAppend(a: seq<Pattern>, b: seq<Pattern>)
    ensures Probes(a + b) == Probes(a) + Probes(b)
  {
    if a == [] {
      assert a + b == b;
    } else {
      ProbesAppend(a[1..], b);
      assert (a + b)[1..] == a[1..] + b;
    }
  }

  lemma ProbesOne(p: Pattern)
    ensures Probes([p]) == [ProbeOf(p)]
  {
  }

  lemma ProbesAround(open: Pattern, inside: seq<Pattern>, close: Pattern)
    ensures Probes([open] + (inside + [close])) == [ProbeOf(open)] + (Probes(inside) + [ProbeOf(close)])
  {
    ProbesAppend([open], inside + [close]);
    ProbesAppend(inside, [close]);
    ProbesOne(open);
    ProbesOne(close);
  }

  lemma ProbesDangling(k: Option<CString>)
    requires k.Some? ==> Bcon.Unbracketed(k.value)
    ensures Probes(DanglingArgument(k)) == DanglingKey(k)
  {
    if k.Some? { ProbesOne(TextPattern(k.value)); }
  }

  lemma ProbesDoc(fields: seq<PatField>, dangling: Option<CString>)
    requires Probes(FieldsArguments(fields)) == FlatFields(fields)
    requires dangling.Some? ==> Bcon.Unbracketed(dangling.value)
    ensures Probes(Arguments(DocPat(fields, dangling))) == Flat(DocPat(fields, dangling))
  {
    hide Probes, FieldsArguments, FlatFields, DanglingArgument, DanglingKey;
    var inside, key := FieldsArguments(fields), DanglingArgument(dangling);
    ProbesDangling(dangling);
    ProbesAppend(inside, key);
    assert inside + (key + [TextPattern([0x7D])]) == inside + key + [TextPattern([0x7D])];
    ProbesAround(TextPattern([0x7B]), inside + key, TextPattern([0x7D]));
    assert FlatFields(fields) + DanglingKey(dangling) + [LeaveDoc]
        == FlatFields(fields) + (DanglingKey(dangling) + [LeaveDoc]);
  }

  lemma ProbesArray(items: seq<Pat>)
    requires Probes(ItemsArguments(items)) == FlatItems(items)
    ensures Probes(Arguments(ArrPat(items))) == Flat(ArrPat(items))
  {
    ProbesAround(TextPattern([0x5B]), ItemsArguments(items), TextPattern([0x5D]));
  }

  /** The written arguments are the probes of the pattern. */
  lemma {:induction false} ProbesWritten(p: Pat)
    requires Plain(p)
    ensures Probes(Arguments(p)) == Flat(p)
    decreases p, 0
  {
    match p
    case Leaf(spec) => ProbesOne(Want(spec));
    case DocPat(fields, dangling) =>
      ProbesFields(fields);
      ProbesDoc(fields, dangling);
    case ArrPat(items) =>
      ProbesItems(items);
      ProbesArray(items);
  }

  lemma ProbesKeyed(f: PatField)
    requires Bcon.Unbracketed(f.name) && Probes(Arguments(f.pat)) == Flat(f.pat)
    ensures Probes([TextPattern(f.name)] + Arguments(f.pat)) == [Raw(f.name)] + Flat(f.pat)
  {
    ProbesAppend([TextPattern(f.name)], Arguments(f.pat));
    ProbesOne(TextPattern(f.name));
  }

  lemma {:induction false} ProbesFields(fields: seq<PatField>)
    requires PlainFields(fields)
    ensures Probes(FieldsArguments(fields)) == FlatFields(fields)
    decreases fields, 0
  {
    hide Probes, Arguments, Flat;
    if fields == [] {
      assert Probes([]) == [] by { ProbesNone(); }
    } else {
      var init, last := fields[..|fields| - 1], fields[|fields| - 1];
      ProbesFields(init);
      ProbesWritten(last.pat);
      ProbesKeyed(last);
      ProbesAppend(FieldsArguments(init), [TextPattern(last.name)] + Arguments(last.pat));
    }
  }

  lemma ProbesNone()
    ensures Probes([]) == []
  {
  }

  lemma {:induction false} ProbesItems(items: seq<Pat>)
    requires forall i :: 0 <= i < |items| ==> Plain(items[i])
    ensures Probes(ItemsArguments(items)) == FlatItems(items)
    decreases items, 0
  {
    if items != [] {
      var init, last := items[..|items| - 1], items[|items| - 1];
      ProbesItems(init);
      ProbesWritten(last);
      ProbesAppend(ItemsArguments(init), Arguments(last));
    }
  }

  lemma ProbesEnded(fields: seq<PatField>)
    requires PlainFields(fields)
    ensures Probes(FieldsArguments(fields) + [NilPattern]) == FlatFields(fields) + ([Stop] + [])
    ensures Stops(Probes(FieldsArguments(fields) + [NilPattern]))
  {
    ProbesFields(fields);
    ProbesAppend(FieldsArguments(fields), [NilPattern]);
    ProbesOne(NilPattern);
  }

  /** bcon_extract on the arguments written for a pattern; None stands for a failed assertion. */
  method Extract(doc: Doc, fields: seq<PatField>) returns (r: Option<bool>, captured: seq<Value>)
    requires PlainFields(fields)
    ensures r == Some(true) <==> FitFields(fields, doc) && FieldsNesting(fields) < 100
    ensures r == Some(true) ==> captured == FieldsCaptured(fields, doc)
    ensures FieldsNesting(fields) < 100 ==> (r == Some(false) <==> !FitFields(fields, doc))
  {
    hide Run, FitFields, FieldsNesting, FieldsCaptured, FlatFields, PlainFields;
    ProbesEnded(fields);
    AnswersExactly(fields, doc, []);
    var extractor := new ExtractContext(doc);
    var more;
    r, captured, more := extractor.ExtractCtxVa(FieldsArguments(fields) + [NilPattern]);
  }
}
