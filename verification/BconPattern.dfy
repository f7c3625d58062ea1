/** The extractor answers true, with every level closed, on nothing but well-formed patterns. */
module BconPattern {
  import opened Basics
  import opened BsonDocument
  import opened BconExtract
  import opened BconMatch

  /** A level of the pattern that is still open, and what has been read inside it. */
  datatype Part = DocPart(key: CString, fields: seq<PatField>) | ArrPart(key: CString, items: seq<Pat>)

  /** One part for each level of the stack. */
  predicate Parallel(stack: seq<Search>, ps: seq<Part>) {
    && |stack| == |ps| > 0 && ps[0].DocPart?
    && (forall k :: 0 <= k < |ps| ==> stack[k].isArray == ps[k].ArrPart?)
  }

  function PartProbes(p: Part): seq<Probe> {
    match p
    case DocPart(_, fields) => FlatFields(fields)
    case ArrPart(_, items) => FlatItems(items)
  }

  /** What opens a part inside its parent. */
  function Opening(parent: Part, p: Part): seq<Probe> {
    (if parent.DocPart? then [Raw(p.key)] else []) + [if p.DocPart? then EnterDoc else EnterArray]
  }

  function Last(ps: seq<Part>): Part
    requires ps != []
  {
    ps[|ps| - 1]
  }

  function Below(ps: seq<Part>): seq<Part>
    requires ps != []
  {
    ps[..|ps| - 1]
  }

  /** The probes read so far. */
  function Consumed(ps: seq<Part>): seq<Probe>
    requires ps != []
  {
    if |ps| == 1 then PartProbes(Last(ps))
    else Consumed(Below(ps)) + (Opening(Last(Below(ps)), Last(ps)) + PartProbes(Last(ps)))
  }

  function Extend(p: Part, key: CString, pat: Pat): Part {
    match p
    case DocPart(k, fields) => DocPart(k, fields + [PatField(key, pat)])
    case ArrPart(k, items) => ArrPart(k, items + [pat])
  }

  /** The probes of one more value. */
  function Addition(p: Part, key: CString, pat: Pat): seq<Probe> {
    (if p.DocPart? then [Raw(key)] else []) + Flat(pat)
  }

  function WithLast(ps: seq<Part>, p: Part): (r: seq<Part>)
    requires ps != []
    ensures |r| == |ps| && Last(r) == p && Below(r) == Below(ps)
  {
    ps[|ps| - 1 := p]
  }

  lemma Behind(c: seq<Probe>, opening: seq<Probe>, inside: seq<Probe>, more: seq<Probe>)
    ensures c + (opening + (inside + more)) == c + (opening + inside) + more
  {
  }

  lemma ExtendProbes(p: Part, key: CString, pat: Pat)
    ensures PartProbes(Extend(p, key, pat)) == PartProbes(p) + Addition(p, key, pat)
  {
    match p
    case DocPart(_, fields) => FlatFieldsSnoc(fields, PatField(key, pat));
    case ArrPart(_, items) => FlatItemsSnoc(items, pat);
  }

  /** One more value in the last part. */
  lemma Extended(ps: seq<Part>, key: CString, pat: Pat) returns (after: seq<Part>)
    requires ps != []
    ensures after == WithLast(ps, Extend(Last(ps), key, pat))
    ensures Consumed(after) == Consumed(ps) + Addition(Last(ps), key, pat)
  {
    after := WithLast(ps, Extend(Last(ps), key, pat));
    ExtendProbes(Last(ps), key, pat);
    hide PartProbes, Addition, Flat;
    if |ps| > 1 {
      Behind(Consumed(Below(ps)), Opening(Last(Below(ps)), Last(ps)), PartProbes(Last(ps)),
             Addition(Last(ps), key, pat));
    }
  }

  lemma Opened(ps: seq<Part>, p: Part)
    requires ps != [] && PartProbes(p) == []
    ensures Consumed(ps + [p]) == Consumed(ps) + Opening(Last(ps), p)
  {
    assert Below(ps + [p]) == ps;
    assert Opening(Last(ps), p) + [] == Opening(Last(ps), p);
  }

  lemma Regroup(c: seq<Probe>, prefix: seq<Probe>, open: seq<Probe>, inside: seq<Probe>, closing: seq<Probe>)
    ensures c + (prefix + (open + (inside + closing))) == c + (prefix + open + inside) + closing
  {
  }

  /** Closing a part: its pattern joins the parent. */
  lemma Joined(ps: seq<Part>, pat: Pat, closing: seq<Probe>) returns (after: seq<Part>)
    requires |ps| > 1
    requires Flat(pat) == [if Last(ps).DocPart? then EnterDoc else EnterArray] + (PartProbes(Last(ps)) + closing)
    ensures after == WithLast(Below(ps), Extend(Last(Below(ps)), Last(ps).key, pat))
    ensures Consumed(after) == Consumed(ps) + closing
  {
    var below, key := Below(ps), Last(ps).key;
    after := Extended(below, key, pat);
    var prefix := if Last(below).DocPart? then [Raw(key)] else [];
    var open := [if Last(ps).DocPart? then EnterDoc else EnterArray];
    assert Opening(Last(below), Last(ps)) == prefix + open;
    Regroup(Consumed(below), prefix, open, PartProbes(Last(ps)), closing);
  }

  /** A closing bracket, after a key that nothing follows if there is one. */
  lemma Closed(ps: seq<Part>, dangling: Option<CString>) returns (after: seq<Part>)
    requires |ps| > 1 && (Last(ps).ArrPart? ==> dangling.None?)
    ensures |after| == |ps| - 1 && (forall k :: 0 <= k < |after| ==> after[k].ArrPart? == ps[k].ArrPart?)
    ensures Consumed(after)
         == Consumed(ps) + (DanglingKey(dangling) + [if Last(ps).DocPart? then LeaveDoc else LeaveArray])
  {
    match Last(ps)
    case DocPart(_, fields) =>
      after := Joined(ps, DocPat(fields, dangling), DanglingKey(dangling) + [LeaveDoc]);
    case ArrPart(_, items) =>
      assert [] + [LeaveArray] == [LeaveArray];
      after := Joined(ps, ArrPat(items), [LeaveArray]);
  }

  /** One probe behind a key that the machine gets past. */
  lemma TookProbe(stack: seq<Search>, ps: seq<Part>, key: CString, p: Probe) returns (after: seq<Part>)
    requires Parallel(stack, ps) && ValueMove(stack, key, p).Go?
    ensures Parallel(ValueMove(stack, key, p).stack, after)
    ensures stack[0] == ValueMove(stack, key, p).stack[0]
    ensures Consumed(after) == Consumed(ps) + ((if Last(ps).DocPart? then [Raw(key)] else []) + [p])
  {
    var prefix := if Last(ps).DocPart? then [Raw(key)] else [];
    match p
    case Typed(spec) => after := Extended(ps, key, Leaf(spec));
    case EnterDoc => Opened(ps, DocPart(key, [])); after := ps + [DocPart(key, [])];
    case EnterArray => Opened(ps, ArrPart(key, [])); after := ps + [ArrPart(key, [])];
    case LeaveDoc => after := Closed(ps, Some(key));
    case LeaveArray =>
      after := Closed(ps, None);
      assert prefix + [p] == [p] && DanglingKey(None) + [p] == [p];
  }

  lemma Shift(a: seq<Probe>, ts: seq<Probe>)
    requires ts != []
    ensures a + [ts[0]] + ts[1..] == a + ts
    ensures |ts| > 1 ==> a + ([ts[0]] + [ts[1]]) + ts[2..] == a + ts
  {
  }

  /** One round inside an array. */
  lemma ArrayRound(stack: seq<Search>, ps: seq<Part>, ts: seq<Probe>, out: seq<Value>)
    returns (next: seq<Search>, after: seq<Part>, more: seq<Value>)
    requires Parallel(stack, ps) && Last(ps).ArrPart? && Stops(ts) && Run(stack, ts, out).Matched?
    ensures Parallel(next, after) && next[0] == stack[0] && Stops(ts[1..])
    ensures Run(stack, ts, out) == Run(next, ts[1..], more)
    ensures Consumed(after) == Consumed(ps) + [ts[0]]
  {
    var key, bumped := ArrayKey(Current(stack).i), Bump(stack);
    assert Run(stack, ts, out) == RunValue(bumped, key, ts, out);
    var move := ValueMove(bumped, key, ts[0]);
    assert move.Go?;
    after := TookProbe(bumped, ps, key, ts[0]);
    assert [] + [ts[0]] == [ts[0]];
    next, more := move.stack, out + move.captured;
  }

  /** A key and the probe behind it. */
  lemma KeyRound(stack: seq<Search>, ps: seq<Part>, ts: seq<Probe>, out: seq<Value>)
    returns (next: seq<Search>, after: seq<Part>, more: seq<Value>)
    requires Parallel(stack, ps) && Last(ps).DocPart? && Stops(ts) && ts[0].Raw? && Run(stack, ts, out).Matched?
    ensures |ts| > 2 && Parallel(next, after) && next[0] == stack[0] && Stops(ts[2..])
    ensures Run(stack, ts, out) == Run(next, ts[2..], more)
    ensures Consumed(after) == Consumed(ps) + ([ts[0]] + [ts[1]])
  {
    assert Run(stack, ts, out) == RunValue(stack, ts[0].s, ts[1..], out);
    assert ts[1..][0] == ts[1] && ts[1..][1..] == ts[2..];
    var move := ValueMove(stack, ts[0].s, ts[1]);
    assert move.Go?;
    after := TookProbe(stack, ps, ts[0].s, ts[1]);
    next, more := move.stack, out + move.captured;
  }

  /** Whatever the machine gets through reads as nested parts of a pattern. */
  lemma {:induction false} Understood(stack: seq<Search>, ps: seq<Part>, ts: seq<Probe>, out: seq<Value>)
    returns (after: seq<Part>)
    requires Parallel(stack, ps) && Stops(ts) && Run(stack, ts, out).Matched?
    ensures Parallel(Run(stack, ts, out).stack, after) && Run(stack, ts, out).stack[0] == stack[0]
    ensures Consumed(ps) + ts == Consumed(after) + [Stop] + Run(stack, ts, out).rest
    decreases |ts|
  {
    Shift(Consumed(ps), ts);
    if Last(ps).ArrPart? {
      var next, parts, more := ArrayRound(stack, ps, ts, out);
      after := Understood(next, parts, ts[1..], more);
    } else if ts[0] == Stop {
      after := ps;
    } else if ts[0].Raw? {
      var next, parts, more := KeyRound(stack, ps, ts, out);
      after := Understood(next, parts, ts[2..], more);
    } else {
      assert ts[0] == LeaveDoc && |stack| > 1;
      var parts := Closed(ps, None);
      assert DanglingKey(None) + [LeaveDoc] == [LeaveDoc];
      after := Understood(Under(stack), parts, ts[1..], out);
    }
  }

  /** `fields` is a reading of the probes up to the first NULL key, and matches. */
  predicate Reads(fields: seq<PatField>, ts: seq<Probe>, rest: seq<Probe>, doc: Doc, captured: seq<Value>) {
    FlatFields(fields) + ([Stop] + rest) == ts && MatchFields(fields, doc, 1) == Yes(captured)
  }

  lemma RestStops(ts: seq<Probe>, before: seq<Probe>, rest: seq<Probe>)
    requires Stops(ts) && before + ([Stop] + rest) == ts
    ensures rest == [] || Stops(rest)
  {
    if rest != [] { assert ts[|ts| - 1] == rest[|rest| - 1]; }
  }

  lemma NothingBefore(before: seq<Probe>, rest: seq<Probe>, ts: seq<Probe>)
    requires [] + ts == before + [Stop] + rest
    ensures before + ([Stop] + rest) == ts
  {
    assert [] + ts == ts;
  }

  /** Probes the machine gets through with every level closed are those of a pattern. */
  lemma IsPattern(ts: seq<Probe>, doc: Doc, rest: seq<Probe>, captured: seq<Value>) returns (fields: seq<PatField>)
    requires Stops(ts) && Run([Search(false, 0, doc)], ts, []) == Matched([Search(false, 0, doc)], rest, captured)
    ensures FlatFields(fields) + ([Stop] + rest) == ts
  {
    var ps := [DocPart([], [])];
    var after := Understood([Search(false, 0, doc)], ps, ts, []);
    fields := after[0].fields;
    hide Run;
    assert Consumed(ps) == [] && Consumed(after) == FlatFields(fields);
    hide FlatFields, Consumed;
    NothingBefore(FlatFields(fields), rest, ts);
  }

  /**
   * The machine answers true with every level closed exactly on the patterns that match, and captures what they
   * capture.
   */
  lemma ExtractsExactly(ts: seq<Probe>, doc: Doc, rest: seq<Probe>, captured: seq<Value>)
    requires Stops(ts)
    ensures Run([Search(false, 0, doc)], ts, []) == Matched([Search(false, 0, doc)], rest, captured)
       <==> exists fields: seq<PatField> :: Reads(fields, ts, rest, doc, captured)
  {
    if Run([Search(false, 0, doc)], ts, []) == Matched([Search(false, 0, doc)], rest, captured) {
      var fields := IsPattern(ts, doc, rest, captured);
      RestStops(ts, FlatFields(fields), rest);
      Extracts(fields, doc, rest);
      assert Reads(fields, ts, rest, doc, captured);
    }
    if fields: seq<PatField> :| Reads(fields, ts, rest, doc, captured) {
      RestStops(ts, FlatFields(fields), rest);
      Extracts(fields, doc, rest);
    }
  }
}
