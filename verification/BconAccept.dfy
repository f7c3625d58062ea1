/** The builder accepts nothing but well-formed argument lists. */
module BconAccept {
  import opened Basics
  import opened BsonDocument
  import opened Bcon
  import opened BconSyntax
  import opened BconBuild

  /** A level that is still open, and what has been read inside it. */
  datatype Level = DocLevel(key: CString, fields: seq<Field>) | ArrLevel(key: CString, items: seq<Item>)

  /** The stack entry of a level; an array has moved on to its next index while a level is open above it. */
  function LevelFrame(l: Level, top: bool): Frame {
    match l
    case DocLevel(key, fields) => Frame(false, 0, key, FieldsMeaning(fields))
    case ArrLevel(key, items) =>
      Frame(true, |ItemsMeaning(items)| + (if top then 0 else 1), key, ItemsMeaning(items))
  }

  function LevelFrames(ls: seq<Level>): (frames: seq<Frame>)
    ensures |frames| == |ls| && forall k :: 0 <= k < |ls| ==> frames[k] == LevelFrame(ls[k], k == |ls| - 1)
  {
    seq(|ls|, k requires 0 <= k < |ls| => LevelFrame(ls[k], k == |ls| - 1))
  }

  function LevelTokens(l: Level): seq<Token> {
    match l
    case DocLevel(_, fields) => FlatFields(fields)
    case ArrLevel(_, items) => FlatItems(items)
  }

  /** What opens a level inside its parent: documents name their elements, arrays number them. */
  function Opening(parent: Level, l: Level): seq<Token> {
    (if parent.DocLevel? then [Str(l.key)] else []) + [if l.DocLevel? then DocStart else ArrayStart]
  }

  function Last(ls: seq<Level>): Level
    requires ls != []
  {
    ls[|ls| - 1]
  }

  function Below(ls: seq<Level>): seq<Level>
    requires ls != []
  {
    ls[..|ls| - 1]
  }

  /** The tokens read so far. */
  function Consumed(ls: seq<Level>): seq<Token>
    requires ls != []
  {
    if |ls| == 1 then LevelTokens(Last(ls))
    else Consumed(Below(ls)) + (Opening(Last(Below(ls)), Last(ls)) + LevelTokens(Last(ls)))
  }

  /** Elements of an array carry their index as a key. */
  predicate Keyed(ls: seq<Level>) {
    && 0 < |ls| <= STACK_MAX && ls[0].DocLevel? && ls[0].key == []
    && (forall k :: 0 < k < |ls| && ls[k - 1].ArrLevel? ==> ls[k].key == ArrayKey(|ItemsMeaning(ls[k - 1].items)|))
  }

  /** A level with one more value. */
  function Extend(l: Level, key: CString, e: Expr): Level {
    match l
    case DocLevel(k, fields) => DocLevel(k, fields + [Field(key, e)])
    case ArrLevel(k, items) => ArrLevel(k, items + [Item(e)])
  }

  /** The tokens of one more value. */
  function Addition(l: Level, key: CString, e: Expr): seq<Token> {
    (if l.DocLevel? then [Str(key)] else []) + Flat(e)
  }

  lemma ExtendTokens(l: Level, key: CString, e: Expr)
    ensures LevelTokens(Extend(l, key, e)) == LevelTokens(l) + Addition(l, key, e)
  {
    match l
    case DocLevel(k, fields) => FieldsSnoc(fields, Field(key, e));
    case ArrLevel(k, items) => ItemsSnoc(items, Item(e));
  }

  lemma ExtendFrame(l: Level, key: CString, e: Expr)
    requires l.ArrLevel? ==> key == ArrayKey(|ItemsMeaning(l.items)|)
    ensures LevelFrame(Extend(l, key, e), true) == Append(LevelFrame(l, false), [Elem(key, Meaning(e))])
  {
    match l
    case DocLevel(k, fields) => FieldsSnoc(fields, Field(key, e));
    case ArrLevel(k, items) =>
      ItemsSnoc(items, Item(e));
      GrowOne(LevelFrame(l, true), Meaning(e));
  }

  /** Replacing the top level. */
  function WithLast(ls: seq<Level>, l: Level): (r: seq<Level>)
    requires ls != []
    ensures |r| == |ls| && Last(r) == l && Below(r) == Below(ls)
  {
    ls[|ls| - 1 := l]
  }

  lemma WithLastKeyed(ls: seq<Level>, l: Level)
    requires Keyed(ls) && l.key == Last(ls).key && l.DocLevel? == Last(ls).DocLevel?
    ensures Keyed(WithLast(ls, l))
    ensures LevelFrames(WithLast(ls, l)) == SetTop(LevelFrames(ls), LevelFrame(l, true))
  {
  }

  lemma WithLastConsumed(ls: seq<Level>, l: Level, more: seq<Token>)
    requires ls != [] && l.key == Last(ls).key && l.DocLevel? == Last(ls).DocLevel?
    requires LevelTokens(l) == LevelTokens(Last(ls)) + more
    ensures Consumed(WithLast(ls, l)) == Consumed(ls) + more
  {
    if |ls| > 1 {
      var opening := Opening(Last(Below(ls)), Last(ls));
      assert opening + (LevelTokens(Last(ls)) + more) == (opening + LevelTokens(Last(ls))) + more;
    }
  }

  /** Opening a level: the frames and the tokens. */
  lemma Opened(ls: seq<Level>, l: Level)
    requires Keyed(ls) && |ls| < STACK_MAX
    requires l == DocLevel(l.key, []) || l == ArrLevel(l.key, [])
    requires Last(ls).ArrLevel? ==> l.key == ArrayKey(|ItemsMeaning(Last(ls).items)|)
    ensures Keyed(ls + [l])
    ensures Consumed(ls + [l]) == Consumed(ls) + Opening(Last(ls), l)
    ensures LevelFrames(ls + [l])
         == SetTop(LevelFrames(ls), LevelFrame(Last(ls), false)) + [Frame(l.ArrLevel?, 0, l.key, [])]
  {
    OpenedTokens(ls, l);
    OpenedFrames(ls, l);
  }

  lemma OpenedFrames(ls: seq<Level>, l: Level)
    requires ls != [] && (l == DocLevel(l.key, []) || l == ArrLevel(l.key, []))
    ensures LevelFrames(ls + [l])
         == SetTop(LevelFrames(ls), LevelFrame(Last(ls), false)) + [Frame(l.ArrLevel?, 0, l.key, [])]
  {
    assert LevelFrame(l, true) == Frame(l.ArrLevel?, 0, l.key, []);
    var frames := SetTop(LevelFrames(ls), LevelFrame(Last(ls), false)) + [LevelFrame(l, true)];
    assert |frames| == |LevelFrames(ls + [l])|;
    forall k | 0 <= k < |frames| ensures LevelFrames(ls + [l])[k] == frames[k] {
      if k < |ls| - 1 { assert (ls + [l])[k] == ls[k]; }
    }
  }

  lemma OpenedTokens(ls: seq<Level>, l: Level)
    requires ls != [] && LevelTokens(l) == []
    ensures Consumed(ls + [l]) == Consumed(ls) + Opening(Last(ls), l)
  {
    assert Below(ls + [l]) == ls;
    assert Opening(Last(ls), l) + [] == Opening(Last(ls), l);
  }

  lemma Regroup(c: seq<Token>, prefix: seq<Token>, open: seq<Token>, inside: seq<Token>, closing: seq<Token>)
    ensures c + (prefix + (open + (inside + closing))) == c + (prefix + open + inside) + closing
  {
  }

  lemma ClosedTokens(ls: seq<Level>, e: Expr, closing: seq<Token>)
    requires |ls| > 1
    requires Flat(e) == [if Last(ls).DocLevel? then DocStart else ArrayStart] + (LevelTokens(Last(ls)) + closing)
    ensures Consumed(Below(ls)) + Addition(Last(Below(ls)), Last(ls).key, e) == Consumed(ls) + closing
  {
    var prefix := if Last(Below(ls)).DocLevel? then [Str(Last(ls).key)] else [];
    var open := [if Last(ls).DocLevel? then DocStart else ArrayStart];
    assert Opening(Last(Below(ls)), Last(ls)) == prefix + open;
    Regroup(Consumed(Below(ls)), prefix, open, LevelTokens(Last(ls)), closing);
  }

  lemma ClosedFrames(ls: seq<Level>, key: CString, v: Value, l: Level)
    requires Keyed(ls) && |ls| > 1 && key == Last(ls).key && v == Built(LevelFrame(Last(ls), true))
    requires LevelFrame(l, true) == Append(LevelFrame(Last(Below(ls)), false), [Elem(key, v)])
    ensures SetTop(LevelFrames(Below(ls)), LevelFrame(l, true)) == Pop(LevelFrames(ls))
  {
    var frames, below := LevelFrames(ls), LevelFrames(Below(ls));
    var under := frames[..|ls| - 1];
    assert Top(under) == LevelFrame(Last(Below(ls)), false);
    assert under == SetTop(below, Top(under));
    assert Pop(frames) == SetTop(under, LevelFrame(l, true));
  }

  /** Closing a level: its expression joins the parent. */
  lemma Closed(ls: seq<Level>, e: Expr, closing: seq<Token>) returns (after: seq<Level>)
    requires Keyed(ls) && |ls| > 1
    requires Flat(e) == [if Last(ls).DocLevel? then DocStart else ArrayStart] + (LevelTokens(Last(ls)) + closing)
    requires Meaning(e) == Built(LevelFrame(Last(ls), true))
    ensures Keyed(after) && |after| == |ls| - 1
    ensures Consumed(after) == Consumed(ls) + closing
    ensures LevelFrames(after) == Pop(LevelFrames(ls))
  {
    var below, key := Below(ls), Last(ls).key;
    var parent := Last(below);
    var l := Extend(parent, key, e);
    after := WithLast(below, l);
    ExtendTokens(parent, key, e);
    ExtendFrame(parent, key, e);
    WithLastKeyed(below, l);
    WithLastConsumed(below, l, Addition(parent, key, e));
    ClosedTokens(ls, e, closing);
    ClosedFrames(ls, key, Meaning(e), l);
  }

  /** The frames a value is added to: in an array, the index has already moved on. */
  function Ready(ls: seq<Level>): seq<Frame>
    requires ls != []
  {
    SetTop(LevelFrames(ls), LevelFrame(Last(ls), false))
  }

  /** The next key in an array; any key in a document. */
  predicate NextKey(l: Level, key: CString) {
    l.ArrLevel? ==> key == ArrayKey(|ItemsMeaning(l.items)|)
  }

  /** A single-token value after its key. */
  lemma TookValue(ls: seq<Level>, key: CString, e: Expr, t: Token) returns (after: seq<Level>)
    requires Keyed(ls) && NextKey(Last(ls), key) && (e.Word? || e.Given?) && Flat(e) == [t]
    ensures Keyed(after) && ValueStep(Ready(ls), key, t) == Some(LevelFrames(after))
    ensures Consumed(after) == Consumed(ls) + Addition(Last(ls), key, e)
  {
    var l := Extend(Last(ls), key, e);
    ExtendTokens(Last(ls), key, e);
    ExtendFrame(Last(ls), key, e);
    after := WithLast(ls, l);
    WithLastKeyed(ls, l);
    WithLastConsumed(ls, l, Addition(Last(ls), key, e));
    Replace(LevelFrames(ls), LevelFrame(Last(ls), false), LevelFrame(l, true));
  }

  /** A document spliced into a document. */
  lemma TookDocSplice(ls: seq<Level>, doc: Doc) returns (after: seq<Level>)
    requires Keyed(ls) && Last(ls).DocLevel?
    ensures Keyed(after) && Consumed(after) == Consumed(ls) + [Splice(doc)]
    ensures LevelFrames(after) == SetTop(LevelFrames(ls), Append(Top(LevelFrames(ls)), doc))
  {
    var fields := Last(ls).fields;
    var l := DocLevel(Last(ls).key, fields + [DocSplice(doc)]);
    FieldsSnoc(fields, DocSplice(doc));
    assert LevelFrame(l, true) == Append(Top(LevelFrames(ls)), doc);
    after := WithLast(ls, l);
    WithLastKeyed(ls, l);
    WithLastConsumed(ls, l, [Splice(doc)]);
  }

  /** An array spliced into an array. */
  lemma TookArrSplice(ls: seq<Level>, doc: Doc) returns (after: seq<Level>)
    requires Keyed(ls) && Last(ls).ArrLevel?
    ensures Keyed(after) && Consumed(after) == Consumed(ls) + [Splice(doc)]
    ensures ValueStep(Ready(ls), ArrayKey(|ItemsMeaning(Last(ls).items)|), Splice(doc)) == Some(LevelFrames(after))
  {
    var items := Last(ls).items;
    var l := ArrLevel(Last(ls).key, items + [ArrSplice(doc)]);
    ItemsSnoc(items, ArrSplice(doc));
    assert LevelFrame(l, true) == Grow(Top(LevelFrames(ls)), Values(doc));
    StepSplice(LevelFrames(ls), doc);
    after := WithLast(ls, l);
    WithLastKeyed(ls, l);
    WithLastConsumed(ls, l, [Splice(doc)]);
  }

  /** A closing bracket, after a key that nothing follows if there is one. */
  lemma TookClose(ls: seq<Level>, dangling: Option<CString>) returns (after: seq<Level>)
    requires Keyed(ls) && |ls| > 1 && (Last(ls).ArrLevel? ==> dangling.None?)
    ensures Keyed(after) && LevelFrames(after) == Pop(LevelFrames(ls))
    ensures Consumed(after)
         == Consumed(ls) + (DanglingKey(dangling) + [if Last(ls).DocLevel? then DocEnd else ArrayEnd])
  {
    match Last(ls)
    case DocLevel(_, fields) =>
      after := Closed(ls, DocExpr(fields, dangling), DanglingKey(dangling) + [DocEnd]);
    case ArrLevel(_, items) =>
      assert [] + [ArrayEnd] == [ArrayEnd];
      after := Closed(ls, ArrExpr(items), [ArrayEnd]);
  }

  /** One value token after a key that the machine survives keeps the levels in step. */
  lemma TookToken(ls: seq<Level>, key: CString, t: Token) returns (after: seq<Level>)
    requires Keyed(ls) && NextKey(Last(ls), key)
    requires ValueStep(Ready(ls), key, t).Some?
    ensures Keyed(after) && ValueStep(Ready(ls), key, t) == Some(LevelFrames(after))
    ensures Consumed(after) == Consumed(ls) + ((if Last(ls).DocLevel? then [Str(key)] else []) + [t])
  {
    hide Consumed, FieldsMeaning, ItemsMeaning, FlatFields, FlatItems;
    var prefix := if Last(ls).DocLevel? then [Str(key)] else [];
    match t
    case Str(s) => after := TookValue(ls, key, Word(s), t);
    case Single(v) => after := TookValue(ls, key, Given(v), t);
    case Splice(doc) => after := TookArrSplice(ls, doc); assert prefix + [t] == [t];
    case DocStart => Opened(ls, DocLevel(key, [])); after := ls + [DocLevel(key, [])];
    case ArrayStart => Opened(ls, ArrLevel(key, [])); after := ls + [ArrLevel(key, [])];
    case DocEnd =>
      after := TookClose(ls, Some(key));
      assert Ready(ls) == LevelFrames(ls);
    case ArrayEnd =>
      after := TookClose(ls, None);
      assert prefix + [t] == [t] && DanglingKey(None) + [t] == [t];
      PopReady(ls);
  }

  /** The index of an array that ends does not matter. */
  lemma PopReady(ls: seq<Level>)
    requires |ls| > 1
    ensures Pop(Ready(ls)) == Pop(LevelFrames(ls))
  {
    assert Ready(ls)[..|ls| - 1] == LevelFrames(ls)[..|ls| - 1];
  }

  /** In an array the next value gets the next index. */
  lemma ArrayTurn(ls: seq<Level>, ts: seq<Token>)
    requires Keyed(ls) && Last(ls).ArrLevel? && Terminated(ts)
    ensures Run(LevelFrames(ls), ts) == RunValue(Ready(ls), ArrayKey(|ItemsMeaning(Last(ls).items)|), ts)
  {
    hide Run, RunValue;
    var frames := LevelFrames(ls);
    assert Ready(ls) == SetTop(frames, Top(frames).(i := Top(frames).i + 1));
    IndexUnfold(frames, ts);
  }

  /** A value that the machine gets past. */
  lemma ValueTurn(frames: seq<Frame>, key: CString, ts: seq<Token>)
    requires frames != [] && (Top(frames).isArray ==> Top(frames).i > 0) && Terminated(ts)
    requires RunValue(frames, key, ts).Returned?
    ensures Terminated(ts[1..]) && ValueStep(frames, key, ts[0]).Some?
    ensures RunValue(frames, key, ts) == Run(ValueStep(frames, key, ts[0]).value, ts[1..])
  {
  }

  /** One round inside an array. */
  lemma ArrayRound(ls: seq<Level>, ts: seq<Token>) returns (next: seq<Level>)
    requires Keyed(ls) && Last(ls).ArrLevel? && Terminated(ts) && Run(LevelFrames(ls), ts).Returned?
    ensures Keyed(next) && Terminated(ts[1..]) && Run(LevelFrames(ls), ts) == Run(LevelFrames(next), ts[1..])
    ensures Consumed(next) == Consumed(ls) + [ts[0]]
  {
    hide Run, RunValue, ValueStep, Consumed;
    var key := ArrayKey(|ItemsMeaning(Last(ls).items)|);
    ArrayTurn(ls, ts);
    ValueTurn(Ready(ls), key, ts);
    next := TookToken(ls, key, ts[0]);
    assert [] + [ts[0]] == [ts[0]];
  }

  /** A key and its value inside a document. */
  lemma KeyRound(ls: seq<Level>, ts: seq<Token>) returns (next: seq<Level>)
    requires Keyed(ls) && Last(ls).DocLevel? && Terminated(ts) && ts[0].Str? && Run(LevelFrames(ls), ts).Returned?
    ensures Keyed(next) && |ts| > 2 && Terminated(ts[2..])
    ensures Run(LevelFrames(ls), ts) == Run(LevelFrames(next), ts[2..])
    ensures Consumed(next) == Consumed(ls) + ([ts[0]] + [ts[1]])
  {
    assert Ready(ls) == LevelFrames(ls);
    assert Run(LevelFrames(ls), ts) == RunValue(Ready(ls), ts[0].s, ts[1..]);
    assert ts[1..][0] == ts[1] && ts[1..][1..] == ts[2..];
    hide Run, ValueStep, Consumed;
    next := TookToken(ls, ts[0].s, ts[1]);
  }

  /** A closing bracket or a spliced document in place of a key. */
  lemma DocRound(ls: seq<Level>, ts: seq<Token>) returns (next: seq<Level>)
    requires Keyed(ls) && Last(ls).DocLevel? && Terminated(ts) && ts[0] != End && !ts[0].Str?
    requires Run(LevelFrames(ls), ts).Returned?
    ensures Keyed(next) && Terminated(ts[1..]) && Run(LevelFrames(ls), ts) == Run(LevelFrames(next), ts[1..])
    ensures Consumed(next) == Consumed(ls) + [ts[0]]
  {
    if ts[0] == DocEnd {
      next := TookClose(ls, None);
      assert DanglingKey(None) + [DocEnd] == [DocEnd];
    } else {
      next := TookDocSplice(ls, ts[0].doc);
    }
  }

  lemma Shift(a: seq<Token>, ts: seq<Token>)
    requires ts != []
    ensures a + [ts[0]] + ts[1..] == a + ts
    ensures |ts| > 1 ==> a + ([ts[0]] + [ts[1]]) + ts[2..] == a + ts
  {
  }

  /** Whatever the machine gets through, it reads as nested levels. */
  lemma {:induction false} Understood(ls: seq<Level>, ts: seq<Token>) returns (after: seq<Level>)
    requires Keyed(ls) && Terminated(ts) && Run(LevelFrames(ls), ts).Returned?
    ensures Keyed(after) && Run(LevelFrames(ls), ts).frames == LevelFrames(after)
    ensures Consumed(ls) + ts == Consumed(after) + [End] + Run(LevelFrames(ls), ts).rest
    decreases |ts|
  {
    Shift(Consumed(ls), ts);
    if Last(ls).ArrLevel? {
      var next := ArrayRound(ls, ts);
      after := Understood(next, ts[1..]);
    } else if ts[0] == End {
      after := ls;
    } else if ts[0].Str? {
      var next := KeyRound(ls, ts);
      after := Understood(next, ts[2..]);
    } else {
      var next := DocRound(ls, ts);
      after := Understood(next, ts[1..]);
    }
  }

  lemma NothingBefore(before: seq<Token>, rest: seq<Token>, ts: seq<Token>)
    requires [] + ts == before + [End] + rest
    ensures before + ([End] + rest) == ts
  {
    assert [] + ts == ts;
  }

  /** A list that leaves no level open belongs to the grammar. */
  lemma Accepted(ts: seq<Token>, doc: Doc, rest: seq<Token>) returns (fields: seq<Field>)
    requires Terminated(ts) && Run([ROOT], ts) == Returned([ROOT.(elems := doc)], rest)
    ensures FlatFields(fields) + ([End] + rest) == ts && FieldsMeaning(fields) == doc
  {
    hide Run, RunValue;
    var ls := [DocLevel([], [])];
    assert LevelFrames(ls) == [ROOT];
    var after := Understood(ls, ts);
    assert |after| == 1 && LevelFrames(after)[0] == ROOT.(elems := doc);
    fields := after[0].fields;
    assert Consumed(ls) == [] && Consumed(after) == FlatFields(fields);
    hide Consumed, FlatFields;
    NothingBefore(FlatFields(fields), rest, ts);
  }

  lemma RestTerminated(ts: seq<Token>, before: seq<Token>, rest: seq<Token>)
    requires Terminated(ts) && before + ([End] + rest) == ts
    ensures rest == [] || Terminated(rest)
  {
    if rest != [] { assert ts[|ts| - 1] == rest[|rest| - 1]; }
  }

  /** `fields` is a reading of the list up to its first NULL key, and fits the stack. */
  predicate Reads(fields: seq<Field>, ts: seq<Token>, rest: seq<Token>) {
    FlatFields(fields) + ([End] + rest) == ts && FieldsDepth(fields) < STACK_MAX
  }

  /** The builder closes every level exactly on the lists of the grammar, and builds what they stand for. */
  lemma AcceptsExactly(ts: seq<Token>, doc: Doc, rest: seq<Token>)
    requires Terminated(ts)
    ensures Run([ROOT], ts) == Returned([ROOT.(elems := doc)], rest)
       <==> exists fields: seq<Field> :: Reads(fields, ts, rest) && FieldsMeaning(fields) == doc
  {
    if Run([ROOT], ts) == Returned([ROOT.(elems := doc)], rest) {
      var fields := Accepted(ts, doc, rest);
      RestTerminated(ts, FlatFields(fields), rest);
      Builds(fields, rest);
      assert Reads(fields, ts, rest);
    }
    if fields: seq<Field> :| Reads(fields, ts, rest) && FieldsMeaning(fields) == doc {
      RestTerminated(ts, FlatFields(fields), rest);
      Builds(fields, rest);
    }
  }
}
