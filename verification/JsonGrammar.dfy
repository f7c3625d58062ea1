/** Extended JSON documents and the callbacks they come in as: the reader takes every one of them to its end. */
module JsonGrammar {
  import opened Basics
  import opened JsonFrames

  /** The values of extended JSON, with their texts and numbers left out. */
  datatype Json =
    | Text | Number
    | Object(members: seq<Member>)
    | List(items: seq<Json>)
    | Quoted(key: Key)
    | Bare(key: Key)
    | DateLong | BinaryPair | BinaryDoc | RegexPair | RegexDoc | Stamp | Pointer
    | Code
    | CodeWithScope(scope: seq<Member>)

  datatype Member = Member(key: Key, value: Json)

  const STRING := OnString(false, false, false)
  const NUMBER := OnScalar(false)
  const CLOSE := OnEndMap(false)

  function KeyEvent(k: Key): Event { OnMapKey(k, false) }

  /** The callbacks a value comes in as. */
  function Events(v: Json): seq<Event>
    decreases v
  {
    match v
    case Text => [STRING]
    case Number => [NUMBER]
    case Object(members) => [OnStartMap] + (MembersEvents(members) + [CLOSE])
    case List(items) => [OnStartArray] + (ItemsEvents(items) + [OnEndArray])
    case Quoted(key) => [OnStartMap, KeyEvent(key), STRING, CLOSE]
    case Bare(key) => [OnStartMap, KeyEvent(key), NUMBER, CLOSE]
    case DateLong => [OnStartMap, KeyEvent(KDate), OnStartMap, KeyEvent(KNumberLong), STRING, CLOSE, CLOSE]
    case BinaryPair => [OnStartMap, KeyEvent(KBinary), STRING, KeyEvent(KType), STRING, CLOSE]
    case BinaryDoc =>
      [OnStartMap, KeyEvent(KBinary), OnStartMap, KeyEvent(KBase64), STRING, KeyEvent(KSubType), STRING, CLOSE, CLOSE]
    case RegexPair => [OnStartMap, KeyEvent(KRegex), STRING, KeyEvent(KOptions), STRING, CLOSE]
    case RegexDoc =>
      [OnStartMap, KeyEvent(KRegularExpression), OnStartMap, KeyEvent(KPattern), STRING, KeyEvent(KPlainOptions),
       STRING, CLOSE, CLOSE]
    case Stamp =>
      [OnStartMap, KeyEvent(KTimestamp), OnStartMap, KeyEvent(KT), NUMBER, KeyEvent(KI), NUMBER, CLOSE, CLOSE]
    case Pointer =>
      [OnStartMap, KeyEvent(KDbPointer), OnStartMap, KeyEvent(KRef), STRING, KeyEvent(KId), OnStartMap, KeyEvent(KOid),
       STRING, CLOSE, CLOSE, CLOSE]
    case Code => [OnStartMap, KeyEvent(KCode), STRING, CLOSE]
    case CodeWithScope(scope) =>
      [OnStartMap, KeyEvent(KCode), STRING, KeyEvent(KScope), OnStartMap] + (MembersEvents(scope) + [CLOSE, CLOSE])
  }

  function MemberEvents(m: Member): seq<Event>
    decreases m
  {
    [KeyEvent(m.key)] + Events(m.value)
  }

  function MembersEvents(members: seq<Member>): seq<Event>
    decreases members
  {
    if members == [] then [] else MembersEvents(members[..|members| - 1]) + MemberEvents(members[|members| - 1])
  }

  function ItemsEvents(items: seq<Json>): seq<Event>
    decreases items
  {
    if items == [] then [] else ItemsEvents(items[..|items| - 1]) + Events(items[|items| - 1])
  }

  /** Which forms are values: no code inside a scope, and no typed key first in an ordinary document. */
  predicate Allowed(v: Json, inScope: bool)
    decreases v
  {
    match v
    case Object(members) =>
      && (members != [] ==> !Known(members[0].key))
      && (forall i :: 0 <= i < |members| ==> MemberAllowed(members[i], inScope))
    case List(items) => forall i :: 0 <= i < |items| ==> Allowed(items[i], inScope)
    case Quoted(k) =>
      k.KOid? || k.KSymbol? || k.KNumberInt? || k.KNumberLong? || k.KNumberDouble? || k.KNumberDecimal? || k.KDate?
    case Bare(k) => k.KUndefined? || k.KMinKey? || k.KMaxKey? || k.KDate?
    case Code => !inScope
    case CodeWithScope(scope) => !inScope && forall i :: 0 <= i < |scope| ==> MemberAllowed(scope[i], true)
    case _ => true
  }

  /** The keys of a database reference take strings. */
  predicate MemberAllowed(m: Member, inScope: bool)
    decreases m
  {
    (m.key.KRef? || m.key.KDb? ==> m.value.Text?) && Allowed(m.value, inScope)
  }

  /** How many frames a value opens inside each other. */
  function Depth(v: Json): nat
    decreases v
  {
    match v
    case Object(members) => 1 + MembersDepth(members)
    case List(items) => 1 + ItemsDepth(items)
    case Pointer => 1
    case CodeWithScope(scope) => 1 + MembersDepth(scope)
    case _ => 0
  }

  function MemberDepth(m: Member): nat
    decreases m
  {
    Depth(m.value)
  }

  function MembersDepth(members: seq<Member>): nat
    decreases members
  {
    if members == [] then 0
    else Larger(MembersDepth(members[..|members| - 1]), MemberDepth(members[|members| - 1]))
  }

  function ItemsDepth(items: seq<Json>): nat
    decreases items
  {
    if items == [] then 0 else Larger(ItemsDepth(items[..|items| - 1]), Depth(items[|items| - 1]))
  }

  /** The callbacks lead from one state to the other, without an error and without breaking anything. */
  predicate Leads(m: Machine, es: seq<Event>, r: Machine) { Inv(m) && Run(m, es) == Reached(r) }

  lemma {:induction false} LeadsOn(m: Machine, a: seq<Event>, mid: Machine, b: seq<Event>, r: Machine)
    requires Leads(m, a, mid) && Leads(mid, b, r)
    ensures Leads(m, a + b, r)
    decreases a
  {
    hide Inv, Step, Enabled;
    if a == [] {
      assert a + b == b;
    } else {
      StepKeeps(m, a[0]);
      assert (a + b)[0] == a[0] && (a + b)[1..] == a[1..] + b;
      LeadsOn(Step(m, a[0]).m, a[1..], mid, b, r);
    }
  }

  lemma LeadsOne(m: Machine, e: Event, r: Machine)
    requires Inv(m) && Enabled(m, e) && Step(m, e) == Next(r)
    ensures Inv(r) && Leads(m, [e], r)
  {
    hide Inv, Step, Enabled;
    StepKeeps(m, e);
    assert [e][0] == e && [e][1..] == [];
    assert Run(r, []) == Reached(r);
  }

  /** One more callback behind those that lead somewhere. */
  lemma Then(m: Machine, es: seq<Event>, mid: Machine, e: Event, r: Machine)
    requires Leads(m, es, mid) && Inv(mid) && Enabled(mid, e) && Step(mid, e) == Next(r)
    ensures Inv(r) && Leads(m, es + [e], r)
  {
    LeadsOne(mid, e, r);
    LeadsOn(m, es, mid, [e], r);
  }

  /** A value may come: in a document whose key is saved, or in an array. */
  predicate Ready(m: Machine) {
    && Inv(m) && m.rs == Regular && m.s.n >= 0 && (m.hasKey || Top(m) == ArrayFrame)
    && (if m.inScope then m.hasScope else !m.hasScope && !m.hasCode)
  }

  /** The value has been read: the frames are as before, and another may come behind its key. */
  predicate Back(m: Machine, r: Machine) {
    && Shaped(m) && Shaped(r) && r.rs == Regular && r.s.n == m.s.n && r.hasKey
    && r.inScope == m.inScope && r.hasScope == m.hasScope && r.hasCode == m.hasCode
    && (forall i :: 0 <= i <= m.s.n ==> r.s.tags[i] == m.s.tags[i])
  }

  lemma BackReady(m: Machine, r: Machine)
    requires Ready(m) && Back(m, r) && Inv(r)
    ensures Ready(r)
  {
  }

  lemma BackTwice(a: Machine, b: Machine, c: Machine)
    requires Back(a, b) && Back(b, c)
    ensures Back(a, c)
  {
  }

  lemma NoFrames(m: Machine, r: Machine)
    requires Ready(m) && r.s == m.s && r.rs == Regular && r.hasKey
    requires r.inScope == m.inScope && r.hasScope == m.hasScope && r.hasCode == m.hasCode
    ensures Back(m, r)
  {
  }

  /** One callback between two states. */
  predicate Moves(m: Machine, e: Event, r: Machine) { Inv(m) ==> Enabled(m, e) && Step(m, e) == Next(r) }

  /** One more callback behind those that lead somewhere. */
  lemma On(m: Machine, es: seq<Event>, mid: Machine, e: Event, r: Machine)
    requires Leads(m, es, mid) && Inv(mid) && Moves(mid, e, r)
    ensures Inv(r) && Leads(m, es + [e], r)
  {
    hide Inv, Leads, Step, Enabled;
    Then(m, es, mid, e, r);
  }

  lemma First(m: Machine, e: Event, r: Machine)
    requires Inv(m) && Moves(m, e, r)
    ensures Inv(r) && Leads(m, [e], r)
  {
    hide Inv, Leads, Step, Enabled;
    LeadsOne(m, e, r);
  }

  lemma ReadsText(m: Machine) returns (r: Machine)
    requires Ready(m)
    ensures Leads(m, [STRING], r) && Inv(r) && Back(m, r)
  {
    r := m.(hasKey := true);
    LeadsOne(m, STRING, r);
    NoFrames(m, r);
  }

  lemma ReadsNumber(m: Machine) returns (r: Machine)
    requires Ready(m)
    ensures Leads(m, [NUMBER], r) && Inv(r) && Back(m, r)
  {
    r := m.(hasKey := true);
    LeadsOne(m, NUMBER, r);
    NoFrames(m, r);
  }

  lemma ReadyShaped(m: Machine)
    requires Ready(m)
    ensures Shaped(m) && Inv(m) && m.s.n >= 0
  {
  }

  /** The state after the first key of a typed value. */
  function TypedStart(m: Machine, k: Key): Machine
    requires Shaped(m)
  {
    KeyInState(m.(hasKey := true, rs := InBsonType, bt := NoType), k)
  }

  /** Keys that announce a type and what to look for. */
  lemma TypedIs(m: Machine, k: Key)
    requires Shaped(m) && OptionFor(InBsonType, k).Some?
    ensures var option := OptionFor(InBsonType, k).value;
            TypedStart(m, k) == m.(hasKey := true, rs := InBsonType, bt := option.0, lf := option.1)
  {
  }

  /** The opening brace of a value, and the first key of a typed one. */
  lemma OpenMoves(m: Machine, k: Key)
    requires Ready(m) && Known(k)
    ensures var open := m.(hasKey := true, rs := InStartMap);
            Moves(m, OnStartMap, open) && Moves(open, KeyEvent(k), TypedStart(m, k))
  {
    hide SlotsOwned, Moved, Entered, TypedKey, OptionFor, TakeOption;
  }

  lemma OpensTyped(m: Machine, k: Key) returns (r: Machine)
    requires Ready(m) && Known(k)
    ensures Shaped(m) && r == TypedStart(m, k) && Inv(r) && Leads(m, [OnStartMap] + [KeyEvent(k)], r)
  {
    hide Inv, Leads, Moves, Ready, TypedStart;
    ReadyShaped(m);
    OpenMoves(m, k);
    r := TypedStart(m, k);
    First(m, OnStartMap, m.(hasKey := true, rs := InStartMap));
    On(m, [OnStartMap], m.(hasKey := true, rs := InStartMap), KeyEvent(k), r);
  }

  /** Inside the inner document of a typed value. */
  predicate InValues(rs: ReadState) {
    rs == DateNumberLong || rs == TimestampValues || rs == RegexValues || rs == BinaryValues
  }

  lemma KeyMovesOn(m: Machine, k: Key)
    requires Shaped(m) && m.s.n >= 0 && (InValues(m.rs) || m.rs == InBsonType) && OptionFor(m.rs, k).Some?
    requires OptionFor(m.rs, k).value.0 == m.bt
    ensures Moves(m, KeyEvent(k), m.(lf := OptionFor(m.rs, k).value.1))
  {
    hide SlotsOwned, Moved, TypedKey, OptionFor;
  }

  lemma TextStays(m: Machine)
    requires Shaped(m) && m.s.n >= 0 && (InValues(m.rs) || m.rs == InBsonType) && m.lf != LfDbRef
    requires !Unparsable(m.rs, m.lf)
    ensures Moves(m, STRING, m)
  {
    hide SlotsOwned, Moved, Entered, Unparsable;
  }

  lemma NumberStays(m: Machine)
    requires Shaped(m) && m.s.n >= 0 && (m.rs == TimestampValues || m.rs == InBsonType)
    ensures Moves(m, NUMBER, m)
  {
    hide SlotsOwned, Moved;
  }

  /** The brace of the inner document and that of the value. */
  lemma BracesClose(m: Machine, end: ReadState)
    requires Shaped(m) && m.s.n >= 0 && m.hasKey && InValues(m.rs)
    requires end == if m.rs == DateNumberLong then DateEndMap else if m.rs == TimestampValues then TimestampEndMap
                    else if m.rs == RegexValues then RegexEndMap else BinaryEndMap
    ensures Moves(m, CLOSE, m.(rs := end)) && Moves(m.(rs := end), CLOSE, m.(rs := Regular))
  {
    hide SlotsOwned, Moved;
  }

  lemma TypedCloses(m: Machine)
    requires Shaped(m) && m.s.n >= 0 && m.hasKey && m.rs == InBsonType && ClosesAtOnce(m.bt)
    ensures Moves(m, CLOSE, m.(rs := Regular))
  {
    hide SlotsOwned, Moved;
  }

  /** Types that a brace closes at once. */
  predicate ClosesAtOnce(bt: BsonType) {
    bt != CodeType && bt != CodeWScopeType && bt != DbPointerType && bt != TimestampType && bt != NoType
  }

  /** Typed values of one key: what the key announces, and that nothing stands against the string or the brace. */
  lemma QuotedLooks(k: Key, inScope: bool)
    requires Allowed(Quoted(k), inScope)
    ensures Known(k) && OptionFor(InBsonType, k).Some?
    ensures var (bt, lf) := OptionFor(InBsonType, k).value;
            lf != LfDbRef && !Unparsable(InBsonType, lf) && ClosesAtOnce(bt)
  {
  }

  lemma BareLooks(k: Key, inScope: bool)
    requires Allowed(Bare(k), inScope)
    ensures Known(k) && OptionFor(InBsonType, k).Some? && ClosesAtOnce(OptionFor(InBsonType, k).value.0)
  {
  }

  lemma OneEvents(k: Key, e: Event)
    ensures [OnStartMap] + [KeyEvent(k)] + [e] + [CLOSE] == [OnStartMap, KeyEvent(k), e, CLOSE]
  {
  }

  lemma PairEvents(first: Key, second: Key)
    ensures [OnStartMap] + [KeyEvent(first)] + [STRING] + [KeyEvent(second)] + [STRING] + [CLOSE]
         == [OnStartMap, KeyEvent(first), STRING, KeyEvent(second), STRING, CLOSE]
  {
  }

  lemma NestedEvents(k: Key, first: Key, second: Key, e: Event)
    ensures [OnStartMap] + [KeyEvent(k)] + [OnStartMap] + [KeyEvent(first)] + [e] + [KeyEvent(second)] + [e] + [CLOSE]
            + [CLOSE]
         == [OnStartMap, KeyEvent(k), OnStartMap, KeyEvent(first), e, KeyEvent(second), e, CLOSE, CLOSE]
  {
  }

  lemma DateEvents()
    ensures [OnStartMap] + [KeyEvent(KDate)] + [OnStartMap] + [KeyEvent(KNumberLong)] + [STRING] + [CLOSE] + [CLOSE]
         == Events(DateLong)
  {
  }

  lemma ReadsOne(m: Machine, k: Key, e: Event) returns (r: Machine)
    requires Ready(m) && (e == STRING || e == NUMBER)
    requires if e == STRING then Allowed(Quoted(k), m.inScope) else Allowed(Bare(k), m.inScope)
    ensures Leads(m, [OnStartMap, KeyEvent(k), e, CLOSE], r) && Inv(r) && Back(m, r)
  {
    hide Inv, Leads, Moves, TypedStart, Ready, OptionFor, Unparsable;
    if e == STRING { QuotedLooks(k, m.inScope); } else { BareLooks(k, m.inScope); }
    var a := OpensTyped(m, k);
    ReadyShaped(m);
    TypedIs(m, k);
    if e == STRING { TextStays(a); } else { NumberStays(a); }
    TypedCloses(a);
    var es := [OnStartMap] + [KeyEvent(k)];
    On(m, es, a, e, a);
    r := a.(rs := Regular);
    On(m, es + [e], a, CLOSE, r);
    OneEvents(k, e);
    NoFrames(m, r);
  }

  lemma ReadsQuoted(m: Machine, k: Key) returns (r: Machine)
    requires Ready(m) && Allowed(Quoted(k), m.inScope)
    ensures Leads(m, Events(Quoted(k)), r) && Inv(r) && Back(m, r)
  {
    r := ReadsOne(m, k, STRING);
  }

  /** The brace behind the first key of a typed value. */
  lemma InnerMoves(m: Machine)
    requires Shaped(m) && m.s.n >= 0
    ensures m.rs == InBsonType && m.lf == LfDate ==> Moves(m, OnStartMap, m.(rs := DateNumberLong))
    ensures m.rs == InBsonType && m.lf == LfBinary ==> Moves(m, OnStartMap, m.(rs := BinaryValues))
    ensures m.rs == TimestampStartMap ==> Moves(m, OnStartMap, m.(rs := TimestampValues))
    ensures m.rs == RegexStartMap ==> Moves(m, OnStartMap, m.(rs := RegexValues))
  {
    hide SlotsOwned, Moved;
  }

  /** A key inside, and its string or number. */
  lemma InnerKey(m: Machine, es: seq<Event>, inner: Machine, k: Key, e: Event)
    requires Leads(m, es, inner) && Inv(inner) && Shaped(inner) && inner.s.n >= 0 && InValues(inner.rs)
    requires OptionFor(inner.rs, k).Some? && OptionFor(inner.rs, k).value.0 == inner.bt
    requires if inner.rs == TimestampValues then e == NUMBER
             else e == STRING && !Unparsable(inner.rs, OptionFor(inner.rs, k).value.1)
    ensures var next := inner.(lf := OptionFor(inner.rs, k).value.1);
            Inv(next) && Leads(m, es + [KeyEvent(k)] + [e], next)
  {
    hide Inv, Leads, Moves, OptionFor, Unparsable;
    var next := inner.(lf := OptionFor(inner.rs, k).value.1);
    KeyMovesOn(inner, k);
    InnerLooks(inner.rs, k);
    if e == STRING { TextStays(next); } else { NumberStays(next); }
    On(m, es, inner, KeyEvent(k), next);
    On(m, es + [KeyEvent(k)], next, e, next);
  }

  lemma InnerLooks(rs: ReadState, k: Key)
    requires OptionFor(rs, k).Some?
    ensures OptionFor(rs, k).value.1 != LfDbRef
  {
  }

  lemma InnerCloses(m: Machine, es: seq<Event>, inner: Machine) returns (r: Machine)
    requires Ready(m) && Leads(m, es, inner) && Inv(inner) && InValues(inner.rs) && inner.s == m.s && inner.hasKey
    requires inner.inScope == m.inScope && inner.hasScope == m.hasScope && inner.hasCode == m.hasCode
    ensures Leads(m, es + [CLOSE] + [CLOSE], r) && Inv(r) && Back(m, r)
  {
    hide Inv, Leads, Moves, Ready;
    ReadyShaped(m);
    var end := if inner.rs == DateNumberLong then DateEndMap else if inner.rs == TimestampValues then TimestampEndMap
               else if inner.rs == RegexValues then RegexEndMap else BinaryEndMap;
    BracesClose(inner, end);
    r := inner.(rs := Regular);
    On(m, es, inner, CLOSE, inner.(rs := end));
    On(m, es + [CLOSE], inner.(rs := end), CLOSE, r);
    NoFrames(m, r);
  }

  lemma ReadsDateLong(m: Machine) returns (r: Machine)
    requires Ready(m)
    ensures Leads(m, Events(DateLong), r) && Inv(r) && Back(m, r)
  {
    hide Inv, Leads, Moves, TypedStart, Ready, Events;
    var a := OpensTyped(m, KDate);
    ReadyShaped(m);
    TypedIs(m, KDate);
    InnerMoves(a);
    var es, inner := [OnStartMap] + [KeyEvent(KDate)], a.(rs := DateNumberLong);
    On(m, es, a, OnStartMap, inner);
    InnerKey(m, es + [OnStartMap], inner, KNumberLong, STRING);
    r := InnerCloses(m, es + [OnStartMap] + [KeyEvent(KNumberLong)] + [STRING], inner.(lf := LfInt64));
    DateEvents();
  }

  /** Two keys in the inner document of a typed value. */
  lemma ReadsNested(m: Machine, k: Key, inner: Machine, first: Key, second: Key, e: Event) returns (r: Machine)
    requires Ready(m) && Known(k) && Shaped(m) && Moves(TypedStart(m, k), OnStartMap, inner) && InValues(inner.rs)
    requires inner == m.(hasKey := true, rs := inner.rs, bt := inner.bt, lf := inner.lf)
    requires OptionFor(inner.rs, first).Some? && OptionFor(inner.rs, first).value.0 == inner.bt
    requires OptionFor(inner.rs, second).Some? && OptionFor(inner.rs, second).value.0 == inner.bt
    requires if inner.rs == TimestampValues then e == NUMBER
             else e == STRING && !Unparsable(inner.rs, OptionFor(inner.rs, first).value.1)
                  && !Unparsable(inner.rs, OptionFor(inner.rs, second).value.1)
    ensures Inv(r) && Back(m, r)
    ensures Leads(m, [OnStartMap] + [KeyEvent(k)] + [OnStartMap] + [KeyEvent(first)] + [e] + [KeyEvent(second)] + [e]
                     + [CLOSE] + [CLOSE], r)
  {
    hide Inv, Leads, Moves, TypedStart, Ready, OptionFor, Unparsable;
    var a := OpensTyped(m, k);
    ReadyShaped(m);
    var es := [OnStartMap] + [KeyEvent(k)];
    On(m, es, a, OnStartMap, inner);
    InnerKey(m, es + [OnStartMap], inner, first, e);
    var next := inner.(lf := OptionFor(inner.rs, first).value.1);
    InnerKey(m, es + [OnStartMap] + [KeyEvent(first)] + [e], next, second, e);
    r := InnerCloses(m, es + [OnStartMap] + [KeyEvent(first)] + [e] + [KeyEvent(second)] + [e],
                     next.(lf := OptionFor(inner.rs, second).value.1));
  }

  /** What the keys of inner documents announce. */
  lemma InnerOptions()
    ensures OptionFor(BinaryValues, KBase64) == Some((BinaryType, LfBinary))
    ensures OptionFor(BinaryValues, KSubType) == Some((BinaryType, LfType))
    ensures OptionFor(RegexValues, KPattern) == Some((RegexType, LfPattern))
    ensures OptionFor(RegexValues, KPlainOptions) == Some((RegexType, LfPatternOptions))
    ensures OptionFor(TimestampValues, KT) == Some((TimestampType, LfTimestampT))
    ensures OptionFor(TimestampValues, KI) == Some((TimestampType, LfTimestampI))
    ensures OptionFor(InBsonType, KBinary) == Some((BinaryType, LfBinary))
  {
  }

  lemma ReadsBinaryDoc(m: Machine) returns (r: Machine)
    requires Ready(m)
    ensures Leads(m, Events(BinaryDoc), r) && Inv(r) && Back(m, r)
  {
    hide Inv, Leads, Moves, Ready, TypedStart, OptionFor;
    ReadyShaped(m);
    InnerOptions();
    TypedIs(m, KBinary);
    InnerMoves(TypedStart(m, KBinary));
    r := ReadsNested(m, KBinary, TypedStart(m, KBinary).(rs := BinaryValues), KBase64, KSubType, STRING);
    NestedEvents(KBinary, KBase64, KSubType, STRING);
  }

  lemma ReadsRegexDoc(m: Machine) returns (r: Machine)
    requires Ready(m)
    ensures Leads(m, Events(RegexDoc), r) && Inv(r) && Back(m, r)
  {
    hide Inv, Leads, Moves, Ready, TypedStart, OptionFor;
    ReadyShaped(m);
    InnerOptions();
    StartsInner(m);
    InnerMoves(TypedStart(m, KRegularExpression));
    r := ReadsNested(m, KRegularExpression, TypedStart(m, KRegularExpression).(rs := RegexValues), KPattern,
                     KPlainOptions, STRING);
    NestedEvents(KRegularExpression, KPattern, KPlainOptions, STRING);
  }

  lemma ReadsStamp(m: Machine) returns (r: Machine)
    requires Ready(m)
    ensures Leads(m, Events(Stamp), r) && Inv(r) && Back(m, r)
  {
    hide Inv, Leads, Moves, Ready, TypedStart, OptionFor;
    ReadyShaped(m);
    InnerOptions();
    StartsInner(m);
    InnerMoves(TypedStart(m, KTimestamp));
    r := ReadsNested(m, KTimestamp, TypedStart(m, KTimestamp).(rs := TimestampValues), KT, KI, NUMBER);
    NestedEvents(KTimestamp, KT, KI, NUMBER);
  }

  /** Keys whose value is an inner document or a code. */
  lemma StartsInner(m: Machine)
    requires Shaped(m)
    ensures TypedStart(m, KTimestamp) == m.(hasKey := true, rs := TimestampStartMap, bt := TimestampType)
    ensures TypedStart(m, KRegularExpression) == m.(hasKey := true, rs := RegexStartMap, bt := RegexType)
    ensures TypedStart(m, KDbPointer) == m.(hasKey := true, rs := DbPointerStartMap, bt := DbPointerType)
    ensures !m.inScope ==>
              TypedStart(m, KCode)
              == m.(hasKey := true, rs := InBsonType, bt := CodeType, lf := LfCode, hasCode := true)
  {
  }

  lemma PairLooks(first: Key, second: Key)
    requires (first == KBinary && second == KType) || (first == KRegex && second == KOptions)
    ensures OptionFor(InBsonType, first).Some? && OptionFor(InBsonType, second).Some?
    ensures OptionFor(InBsonType, first).value.0 == OptionFor(InBsonType, second).value.0
    ensures OptionFor(InBsonType, first).value.0 == if first == KBinary then BinaryType else RegexType
    ensures var a, b := OptionFor(InBsonType, first).value.1, OptionFor(InBsonType, second).value.1;
            a != LfDbRef && b != LfDbRef && !Unparsable(InBsonType, a) && !Unparsable(InBsonType, b)
  {
  }

  /** Two keys in one typed value. */
  lemma ReadsPair(m: Machine, first: Key, second: Key, v: Json) returns (r: Machine)
    requires Ready(m)
    requires || (first == KBinary && second == KType && v == BinaryPair)
             || (first == KRegex && second == KOptions && v == RegexPair)
    ensures Leads(m, Events(v), r) && Inv(r) && Back(m, r)
  {
    hide Inv, Leads, Moves, TypedStart, Ready, OptionFor, Unparsable;
    PairLooks(first, second);
    var a := OpensTyped(m, first);
    ReadyShaped(m);
    TypedIs(m, first);
    TextStays(a);
    KeyMovesOn(a, second);
    var more := a.(lf := OptionFor(InBsonType, second).value.1);
    TextStays(more);
    TypedCloses(more);
    var es := [OnStartMap] + [KeyEvent(first)];
    On(m, es, a, STRING, a);
    On(m, es + [STRING], a, KeyEvent(second), more);
    On(m, es + [STRING] + [KeyEvent(second)], more, STRING, more);
    r := more.(rs := Regular);
    On(m, es + [STRING] + [KeyEvent(second)] + [STRING], more, CLOSE, r);
    PairEvents(first, second);
    NoFrames(m, r);
  }

  lemma CodeCloses(m: Machine)
    requires Shaped(m) && m.s.n >= 0 && m.hasKey && m.rs == InBsonType && m.bt == CodeType && !m.inScope
    requires m.hasCode && !m.hasScope
    ensures Moves(m, CLOSE, m.(rs := Regular, hasCode := false))
  {
    hide SlotsOwned, Moved;
  }

  lemma ReadsCode(m: Machine) returns (r: Machine)
    requires Ready(m) && !m.inScope
    ensures Leads(m, Events(Code), r) && Inv(r) && Back(m, r)
  {
    hide Inv, Leads, Moves, TypedStart;
    var a := OpensTyped(m, KCode);
    ReadyShaped(m);
    StartsInner(m);
    TextStays(a);
    CodeCloses(a);
    var es := [OnStartMap] + [KeyEvent(KCode)];
    On(m, es, a, STRING, a);
    r := a.(rs := Regular, hasCode := false);
    On(m, es + [STRING], a, CLOSE, r);
    OneEvents(KCode, STRING);
    NoFrames(m, r);
  }

  /** A new frame on top of a state in which a value may come, with a key saved in it. */
  function Framed(m: Machine, t: Tag): Machine
    requires Shaped(m) && m.s.n < STACK_MAX - 1
  {
    Push(m, t).value.(hasKey := true, rs := Regular)
  }

  /** The frame is left, and the tags below are as they were. */
  function Left(m: Machine): Machine { m.(s := Pop(m.s)) }

  lemma FramedReady(m: Machine, t: Tag)
    requires Inv(m) && m.s.n < STACK_MAX - 1 && t != Initial && (HasBson(t) ==> m.s.n >= 0)
    requires if m.inScope then m.hasScope else !m.hasScope && !m.hasCode
    ensures Shaped(m) && Ready(Framed(m, t)) && Framed(m, t).s.n == m.s.n + 1 && Top(Framed(m, t)) == t
    ensures forall i :: 0 <= i <= m.s.n ==> Framed(m, t).s.tags[i] == m.s.tags[i]
  {
    OwnsShaped(m);
    PushOwns(m, t);
    hide SlotsOwned;
  }

  /** Out of a frame that has been used, back to where its value began. */
  lemma LeftBack(m: Machine, t: Tag, r: Machine)
    requires Ready(m) && m.s.n < STACK_MAX - 1 && t != Initial && Back(Framed(m, t), r) && Inv(r)
    ensures Inv(Left(r)) && Back(m, Left(r))
  {
    FramedReady(m, t);
    PopOwns(r);
    hide SlotsOwned;
  }

  lemma ClosesDoc(m: Machine, t: Tag)
    requires Inv(m) && m.rs == Regular && m.s.n > 0 && Top(m) == t && (t == DocFrame || t == ArrayFrame)
    ensures Moves(m, if t == DocFrame then CLOSE else OnEndArray, Left(m))
  {
    hide SlotsOwned, Moved;
  }

  /** The key of a member, in the frame of its document: only references change the state. */
  lemma KeyMoves(m: Machine, k: Key)
    requires Ready(m) && Top(m) != ArrayFrame
    ensures m.s.n == 0 || !(k.KRef? || k.KDb?) ==> Moves(m, KeyEvent(k), m)
    ensures m.s.n > 0 && (k.KRef? || k.KDb?) ==>
              var reference := m.(rs := InBsonType, lf := LfDbRef);
              Moves(m, KeyEvent(k), reference) && Moves(reference, STRING, reference.(rs := Regular))
  {
    hide SlotsOwned, Moved, Entered, TypedKey;
  }

  lemma MembersSnoc(members: seq<Member>)
    requires members != []
    ensures MembersEvents(members) == MembersEvents(members[..|members| - 1]) + MemberEvents(members[|members| - 1])
  {
  }

  /** A reference member. */
  lemma ReadsReference(m: Machine, k: Key) returns (r: Machine)
    requires Ready(m) && Top(m) != ArrayFrame && m.s.n > 0 && (k.KRef? || k.KDb?)
    ensures Leads(m, [KeyEvent(k), STRING], r) && Inv(r) && Back(m, r)
  {
    KeyMoves(m, k);
    var reference := m.(rs := InBsonType, lf := LfDbRef);
    r := reference.(rs := Regular);
    hide Moves, Inv;
    First(m, KeyEvent(k), reference);
    On(m, [KeyEvent(k)], reference, STRING, r);
    assert [KeyEvent(k)] + [STRING] == [KeyEvent(k), STRING];
    NoFrames(m, r) by { ReadyKeyed(m); }
  }

  lemma ReadyKeyed(m: Machine)
    requires Ready(m) && Top(m) != ArrayFrame
    ensures m.hasKey
  {
  }

  lemma ReadsMember(m: Machine, member: Member) returns (r: Machine)
    requires Ready(m) && Top(m) != ArrayFrame && MemberAllowed(member, m.inScope)
    requires m.s.n + MemberDepth(member) < STACK_MAX
    ensures Leads(m, MemberEvents(member), r) && Inv(r) && Back(m, r)
    decreases member, 1
  {
    if m.s.n > 0 && (member.key.KRef? || member.key.KDb?) {
      r := ReadsReference(m, member.key);
      assert [KeyEvent(member.key)] + [STRING] == [KeyEvent(member.key), STRING];
    } else {
      KeyMoves(m, member.key);
      LeadsOne(m, KeyEvent(member.key), m);
      r := Reads(m, member.value);
      LeadsOn(m, [KeyEvent(member.key)], m, Events(member.value), r);
    }
  }

  lemma BackTop(m: Machine, r: Machine)
    requires Ready(m) && Back(m, r)
    ensures Top(r) == Top(m)
  {
  }

  lemma NothingRead(m: Machine) returns (r: Machine)
    requires Ready(m) && Top(m) != ArrayFrame
    ensures r == m && Leads(m, [], r) && Back(m, r)
  {
    r := m;
    ReadyKeyed(m);
  }

  lemma {:induction false} ReadsMembers(m: Machine, members: seq<Member>) returns (r: Machine)
    requires Ready(m) && Top(m) != ArrayFrame && m.s.n + MembersDepth(members) < STACK_MAX
    requires forall i :: 0 <= i < |members| ==> MemberAllowed(members[i], m.inScope)
    ensures Leads(m, MembersEvents(members), r) && Inv(r) && Back(m, r)
    decreases members, 0
  {
    hide Leads, Inv, MembersEvents, MemberEvents, MemberAllowed, Back;
    if members == [] {
      r := NothingRead(m);
      assert MembersEvents([]) == [] by { NoEvents(); }
    } else {
      var init, last := members[..|members| - 1], members[|members| - 1];
      var mid := ReadsMembers(m, init);
      BackReady(m, mid);
      BackTop(m, mid);
      BackShape(m, mid);
      r := ReadsMember(mid, last);
      BackTwice(m, mid, r);
      MembersSnoc(members);
      LeadsOn(m, MembersEvents(init), mid, MemberEvents(last), r);
    }
  }

  lemma BackShape(m: Machine, r: Machine)
    requires Back(m, r)
    ensures r.s.n == m.s.n && r.inScope == m.inScope
  {
  }

  lemma NoEvents()
    ensures MembersEvents([]) == [] && ItemsEvents([]) == []
  {
  }

  /** The first key of a document opens its frame; from there on it is as if the frame had been there before. */
  lemma FirstKey(opening: Machine, framed: Machine, es: seq<Event>, r: Machine)
    requires Inv(opening) && es != [] && es[0].OnMapKey? && !es[0].corrupt && Leads(framed, es, r)
    requires Enabled(opening, es[0]) && Shaped(opening) && Shaped(framed)
    requires MapKey(opening, es[0].key) == MapKey(framed, es[0].key) && Enabled(framed, es[0])
    ensures Leads(opening, es, r)
  {
    hide Inv, MapKey, Enabled;
    StepKeeps(opening, es[0]);
    StepKeeps(framed, es[0]);
  }

  /** The state behind the opening brace of a document. */
  lemma DocKey(m: Machine, k: Key)
    requires Ready(m) && m.s.n < STACK_MAX - 1 && !Known(k)
    ensures var opening := m.(hasKey := true, rs := InStartMap);
            && Shaped(opening) && Inv(opening) && Shaped(Framed(m, DocFrame)) && Moves(m, OnStartMap, opening)
            && MapKey(opening, k) == MapKey(Framed(m, DocFrame), k)
  {
    hide SlotsOwned, Moved, KeyInState, Known, Push;
    ReadyShaped(m);
    FramedReady(m, DocFrame);
    DocKeyState(m, k);
  }

  lemma DocKeyState(m: Machine, k: Key)
    requires Ready(m) && m.s.n < STACK_MAX - 1 && !Known(k) && Shaped(m)
    ensures KeyState(m.(hasKey := true, rs := InStartMap), k) == (Framed(m, DocFrame), true)
    ensures KeyState(Framed(m, DocFrame), k) == (Framed(m, DocFrame), true)
  {
    hide SlotsOwned, Moved, Known;
  }

  lemma FirstEvent(members: seq<Member>)
    requires members != []
    ensures MembersEvents(members) != [] && MembersEvents(members)[0] == KeyEvent(members[0].key)
  {
    if |members| > 1 { FirstEvent(members[..|members| - 1]); }
  }

  /** A document without members. */
  lemma ReadsEmpty(m: Machine) returns (r: Machine)
    requires Ready(m) && m.s.n < STACK_MAX - 1
    ensures Leads(m, [OnStartMap, CLOSE], r) && Inv(r) && Back(m, r)
  {
    var opening := m.(hasKey := true, rs := InStartMap);
    FramedReady(m, DocFrame);
    EmptyMoves(m);
    r := Left(Framed(m, DocFrame));
    SelfBack(Framed(m, DocFrame));
    LeftBack(m, DocFrame, Framed(m, DocFrame));
    hide Moves, Inv, Framed;
    First(m, OnStartMap, opening);
    On(m, [OnStartMap], opening, CLOSE, r);
    assert [OnStartMap] + [CLOSE] == [OnStartMap, CLOSE];
  }

  lemma SelfBack(m: Machine)
    requires Ready(m) && m.hasKey
    ensures Back(m, m)
  {
  }

  lemma EmptyMoves(m: Machine)
    requires Ready(m) && m.s.n < STACK_MAX - 1
    ensures var opening := m.(hasKey := true, rs := InStartMap);
            Shaped(m) && Moves(m, OnStartMap, opening) && Moves(opening, CLOSE, Left(Framed(m, DocFrame)))
  {
    PushOwns(m, DocFrame);
    hide SlotsOwned, Moved;
  }

  /** A document with members: its frame, its members and its closing brace. */
  lemma ReadsObject(m: Machine, members: seq<Member>, inside: Machine) returns (r: Machine)
    requires Ready(m) && m.s.n < STACK_MAX - 1 && members != [] && !Known(members[0].key)
    requires Shaped(m) && Leads(Framed(m, DocFrame), MembersEvents(members), inside) && Inv(inside)
    requires Back(Framed(m, DocFrame), inside)
    ensures Leads(m, Events(Object(members)), r) && Inv(r) && Back(m, r)
  {
    var opening, framed, es := m.(hasKey := true, rs := InStartMap), Framed(m, DocFrame), MembersEvents(members);
    FramedReady(m, DocFrame);
    DocKey(m, members[0].key);
    FirstEvent(members);
    BackReady(framed, inside);
    BackTop(framed, inside);
    BackShape(framed, inside);
    KeyEnabled(opening, framed, members[0].key);
    r := Left(inside);
    LeftBack(m, DocFrame, inside);
    ClosesDoc(inside, DocFrame);
    hide Inv, Leads, Framed, MapKey, Step, Enabled, MembersEvents;
    FirstKey(opening, framed, es, inside);
    Between(m, OnStartMap, opening, es, inside, CLOSE, r);
  }

  lemma KeyEnabled(opening: Machine, framed: Machine, k: Key)
    requires opening.rs != Regular && framed.s.n >= 0
    ensures Enabled(opening, KeyEvent(k)) && Enabled(framed, KeyEvent(k))
  {
  }

  /** One callback before others and one behind them. */
  lemma Between(m: Machine, first: Event, a: Machine, es: seq<Event>, b: Machine, last: Event, r: Machine)
    requires Inv(m) && Moves(m, first, a) && Leads(a, es, b) && Inv(b) && Moves(b, last, r)
    ensures Leads(m, [first] + (es + [last]), r)
  {
    hide Inv, Leads, Step, Enabled;
    LeadsOne(m, first, a);
    Then(a, es, b, last, r);
    LeadsOn(m, [first], a, es + [last], r);
  }

  lemma ItemsSnoc(items: seq<Json>)
    requires items != []
    ensures ItemsEvents(items) == ItemsEvents(items[..|items| - 1]) + Events(items[|items| - 1])
  {
  }

  /** An array frame needs no key. */
  lemma OpensArray(m: Machine)
    requires Ready(m) && m.s.n < STACK_MAX - 1
    ensures Shaped(m) && Moves(m, OnStartArray, Framed(m, ArrayFrame))
  {
    OwnsShaped(m);
    hide SlotsOwned, Moved;
  }

  lemma {:induction false} ReadsItems(m: Machine, items: seq<Json>) returns (r: Machine)
    requires Ready(m) && m.hasKey && m.s.n + ItemsDepth(items) < STACK_MAX
    requires forall i :: 0 <= i < |items| ==> Allowed(items[i], m.inScope)
    ensures Leads(m, ItemsEvents(items), r) && Inv(r) && Back(m, r)
    decreases items, 0
  {
    hide Leads, Inv, ItemsEvents, Events, Allowed, Back;
    if items == [] {
      r := m;
      SelfBack(m);
      StaysHere(m);
      NoEvents();
    } else {
      var init, last := items[..|items| - 1], items[|items| - 1];
      var mid := ReadsItems(m, init);
      BackReady(m, mid);
      BackShape(m, mid);
      r := Reads(mid, last);
      BackTwice(m, mid, r);
      ItemsSnoc(items);
      LeadsOn(m, ItemsEvents(init), mid, Events(last), r);
    }
  }

  lemma StaysHere(m: Machine)
    requires Inv(m)
    ensures Leads(m, [], m)
  {
  }

  lemma ReadsList(m: Machine, items: seq<Json>) returns (r: Machine)
    requires Ready(m) && m.s.n + 1 + ItemsDepth(items) < STACK_MAX
    requires forall i :: 0 <= i < |items| ==> Allowed(items[i], m.inScope)
    ensures Leads(m, Events(List(items)), r) && Inv(r) && Back(m, r)
    decreases items, 1
  {
    OpensArray(m);
    FramedReady(m, ArrayFrame);
    var framed := Framed(m, ArrayFrame);
    var inside := ReadsItems(framed, items);
    BackReady(framed, inside);
    BackTop(framed, inside);
    BackShape(framed, inside);
    r := Left(inside);
    LeftBack(m, ArrayFrame, inside);
    ClosesDoc(inside, ArrayFrame);
    hide Inv, Leads, Framed, ItemsEvents;
    Between(m, OnStartArray, framed, ItemsEvents(items), inside, OnEndArray, r);
  }

  /** "$dbPointer" and its brace. */
  lemma PointerMoves(m: Machine)
    requires Ready(m)
    ensures var typed := TypedStart(m, KDbPointer);
            && typed == m.(hasKey := true, rs := DbPointerStartMap, bt := DbPointerType)
            && Moves(typed, OnStartMap, typed.(rs := InDbPointer))
  {
    hide SlotsOwned, Moved, Entered;
  }

  /** The reference opens the frame. */
  lemma PointerFramed(m: Machine, typed: Machine)
    requires Ready(m) && m.s.n < STACK_MAX - 1 && Inv(typed)
    requires typed == m.(hasKey := true, rs := DbPointerStartMap, bt := DbPointerType)
    ensures var framed := Framed(typed, DbPointerFrame);
            && Shaped(typed) && Ready(framed) && Top(framed) == DbPointerFrame && framed.s.n == m.s.n + 1
            && MapKey(typed.(rs := InDbPointer), KRef) == MapKey(framed, KRef) && SameBelow(m, framed)
  {
    FramedReady(typed, DbPointerFrame);
    OwnsShaped(m);
    hide SlotsOwned, Moved, Entered, Inv;
  }

  /** The frames up to the one on top are those of another state, and so are the marks for code. */
  predicate SameBelow(m: Machine, r: Machine) {
    && Shaped(m) && Shaped(r) && m.s.n <= r.s.n && (forall i :: 0 <= i <= m.s.n ==> r.s.tags[i] == m.s.tags[i])
    && r.inScope == m.inScope && r.hasScope == m.hasScope && r.hasCode == m.hasCode
  }

  /** The two closing braces behind a pointer's reference and id. */
  lemma PointerCloses(m: Machine, framed: Machine, inside: Machine)
    requires Ready(m) && Ready(framed) && Top(framed) == DbPointerFrame && SameBelow(m, framed)
    requires framed.s.n == m.s.n + 1 && Back(framed, inside) && Inv(inside)
    ensures var closed := Left(inside).(rs := DbPointerStartMap);
            && Moves(inside, CLOSE, closed) && Moves(closed, CLOSE, closed.(rs := Regular))
            && Inv(closed.(rs := Regular)) && Back(m, closed.(rs := Regular))
  {
    BackTop(framed, inside);
    OwnsShaped(inside);
    SlotHolds(inside);
    PopOwns(inside);
    hide SlotsOwned, Moved;
  }

  /** The reference and the id inside a pointer's frame. */
  lemma PointerInside(framed: Machine) returns (keyed: Machine, inside: Machine)
    requires Ready(framed) && Top(framed) == DbPointerFrame && framed.s.n > 0
    ensures Leads(framed, [KeyEvent(KRef), STRING], keyed) && Leads(keyed, [KeyEvent(KId)], keyed)
    ensures Leads(keyed, Events(Quoted(KOid)), inside) && Inv(inside) && Back(framed, inside)
  {
    keyed := ReadsReference(framed, KRef);
    BackReady(framed, keyed);
    BackTop(framed, keyed);
    KeyMoves(keyed, KId);
    hide Leads, Inv, Events;
    LeadsOne(keyed, KeyEvent(KId), keyed);
    inside := ReadsQuoted(keyed, KOid);
    BackTwice(framed, keyed, inside);
  }

  lemma ReadsPointer(m: Machine) returns (r: Machine)
    requires Ready(m) && m.s.n < STACK_MAX - 1
    ensures Leads(m, Events(Pointer), r) && Inv(r) && Back(m, r)
  {
    ReadyShaped(m);
    hide Moves, Inv, TypedStart, Leads, Framed, Back, SameBelow, MapKey, Enabled;
    PointerMoves(m);
    var typed := OpensTyped(m, KDbPointer);
    var inner := typed.(rs := InDbPointer);
    On(m, [OnStartMap] + [KeyEvent(KDbPointer)], typed, OnStartMap, inner);
    PointerFramed(m, typed);
    var framed := Framed(typed, DbPointerFrame);
    var keyed, inside := PointerInside(framed);
    PointerCloses(m, framed, inside);
    KeyEnabled(inner, framed, KRef);
    var closed := Left(inside).(rs := DbPointerStartMap);
    r := closed.(rs := Regular);
    PointerRun(m, inner, framed, keyed, inside, closed, r);
  }

  /** The pieces of a pointer, one behind the other. */
  lemma PointerRun(m: Machine, inner: Machine, framed: Machine, keyed: Machine, inside: Machine, closed: Machine,
                   r: Machine)
    requires Leads(m, [OnStartMap] + [KeyEvent(KDbPointer)] + [OnStartMap], inner) && Inv(inner)
    requires Leads(framed, [KeyEvent(KRef), STRING], keyed) && Leads(keyed, [KeyEvent(KId)], keyed)
    requires Leads(keyed, Events(Quoted(KOid)), inside) && Inv(inside)
    requires Moves(inside, CLOSE, closed) && Moves(closed, CLOSE, r)
    requires Shaped(inner) && Shaped(framed) && MapKey(inner, KRef) == MapKey(framed, KRef)
    requires Enabled(inner, KeyEvent(KRef)) && Enabled(framed, KeyEvent(KRef))
    ensures Leads(m, Events(Pointer), r)
  {
    hide Inv, Leads, Step, Enabled, MapKey;
    FirstKey(inner, framed, [KeyEvent(KRef), STRING], keyed);
    var es := [OnStartMap] + [KeyEvent(KDbPointer)] + [OnStartMap];
    LeadsOn(m, es, inner, [KeyEvent(KRef), STRING], keyed);
    var a := es + [KeyEvent(KRef), STRING];
    LeadsOn(m, a, keyed, [KeyEvent(KId)], keyed);
    var b := a + [KeyEvent(KId)];
    LeadsOn(m, b, keyed, Events(Quoted(KOid)), inside);
    var c := b + Events(Quoted(KOid));
    Then(m, c, inside, CLOSE, closed);
    Then(m, c + [CLOSE], closed, CLOSE, r);
    assert c + [CLOSE] + [CLOSE] == Events(Pointer);
  }

  /** "$code", its text, "$scope" and the brace of the scope. */
  lemma ScopeMoves(typed: Machine)
    requires Shaped(typed) && typed.s.n >= 0 && typed.rs == InBsonType && typed.lf == LfCode && !typed.inScope
    ensures var announced := typed.(bt := CodeWScopeType, rs := ScopeStartMap, lf := LfScope, hasScope := true);
            && Moves(typed, STRING, typed) && Moves(typed, KeyEvent(KScope), announced)
            && Moves(announced, OnStartMap, announced.(rs := InScope))
  {
    hide SlotsOwned, Moved, Entered;
  }

  /** The frame of a scope; inside, code values are ordinary documents. */
  function InsideScope(announced: Machine): Machine
    requires Shaped(announced) && announced.s.n < STACK_MAX - 1
  {
    Framed(announced.(inScope := true), ScopeFrame)
  }

  lemma ScopeFramed(announced: Machine, k: Key)
    requires Inv(announced) && announced.rs == ScopeStartMap && 0 <= announced.s.n < STACK_MAX - 1
    requires announced.hasScope && announced.hasKey
    ensures Shaped(announced) && Ready(InsideScope(announced)) && Top(InsideScope(announced)) == ScopeFrame
    ensures InsideScope(announced).s.n == announced.s.n + 1 && InsideScope(announced).inScope
    ensures InsideScope(announced).hasCode == announced.hasCode
    ensures MapKey(announced.(rs := InScope), k) == MapKey(InsideScope(announced), k)
    ensures forall i :: 0 <= i <= announced.s.n ==> InsideScope(announced).s.tags[i] == announced.s.tags[i]
  {
    OwnsShaped(announced);
    PushOwns(announced, ScopeFrame);
    hide SlotsOwned, Moved, Entered, OptionFor, TypedKey;
  }

  /** The brace of the scope and that of the code value. */
  lemma ScopeClosesCode(m: Machine, framed: Machine, inside: Machine)
    requires Ready(m) && !m.inScope && Ready(framed) && Top(framed) == ScopeFrame && framed.s.n == m.s.n + 1
    requires framed.hasCode && framed.inScope && Back(framed, inside) && Inv(inside)
    requires forall i :: 0 <= i <= m.s.n ==> framed.s.tags[i] == m.s.tags[i]
    ensures var closed := Left(inside).(rs := InBsonType, bt := CodeType, inScope := false);
            var r := closed.(rs := Regular, hasScope := false, hasCode := false);
            Moves(inside, CLOSE, closed) && Moves(closed, CLOSE, r) && Inv(r) && Back(m, r)
  {
    BackTop(framed, inside);
    OwnsShaped(inside);
    SlotHolds(inside);
    PopOwns(inside);
    hide SlotsOwned, Moved;
  }

  lemma EmptyScope(m: Machine, announced: Machine)
    requires Ready(m) && !m.inScope && Inv(announced) && announced.s == m.s && announced.s.n < STACK_MAX - 1
    requires announced.rs == ScopeStartMap && announced.hasScope && announced.hasCode && announced.hasKey
    requires !announced.inScope
    ensures Shaped(announced)
    ensures var closed := Left(InsideScope(announced)).(rs := InBsonType, bt := CodeType, inScope := false);
            Moves(announced.(rs := InScope), CLOSE, closed)
  {
    OwnsShaped(announced);
    PushOwns(announced, ScopeFrame);
    hide SlotsOwned, Moved;
  }

  lemma ScopeEvents()
    ensures [OnStartMap] + [KeyEvent(KCode)] + [STRING] + [KeyEvent(KScope)] + [OnStartMap]
         == [OnStartMap, KeyEvent(KCode), STRING, KeyEvent(KScope), OnStartMap]
  {
  }

  /** Everything up to the brace of the scope. */
  lemma OpensScope(m: Machine) returns (announced: Machine)
    requires Ready(m) && !m.inScope && m.s.n < STACK_MAX - 1
    ensures Leads(m, [OnStartMap, KeyEvent(KCode), STRING, KeyEvent(KScope), OnStartMap], announced.(rs := InScope))
    ensures Inv(announced) && Inv(announced.(rs := InScope)) && announced.s == m.s && announced.rs == ScopeStartMap
    ensures announced.hasScope && announced.hasCode && announced.hasKey && !announced.inScope
  {
    hide Moves, Inv, TypedStart, Leads;
    var typed := OpensTyped(m, KCode);
    ReadyShaped(m);
    StartsInner(m);
    ScopeMoves(typed);
    var es := [OnStartMap] + [KeyEvent(KCode)];
    announced := typed.(bt := CodeWScopeType, rs := ScopeStartMap, lf := LfScope, hasScope := true);
    On(m, es, typed, STRING, typed);
    On(m, es + [STRING], typed, KeyEvent(KScope), announced);
    On(m, es + [STRING] + [KeyEvent(KScope)], announced, OnStartMap, announced.(rs := InScope));
    ScopeEvents();
  }

  /** The members of a scope, from where its brace has been opened. */
  lemma InScopeFrame(announced: Machine, scope: seq<Member>, inside: Machine)
    requires Inv(announced) && announced.rs == ScopeStartMap && 0 <= announced.s.n < STACK_MAX - 1 && scope != []
    requires announced.hasScope && announced.hasKey && Shaped(announced)
    requires Leads(InsideScope(announced), MembersEvents(scope), inside)
    ensures Leads(announced.(rs := InScope), MembersEvents(scope), inside)
  {
    hide Leads, MapKey, Enabled, InsideScope, MembersEvents, Step;
    ScopeFramed(announced, scope[0].key);
    FirstEvent(scope);
    KeyEnabled(announced.(rs := InScope), InsideScope(announced), scope[0].key);
    FirstKey(announced.(rs := InScope), InsideScope(announced), MembersEvents(scope), inside);
  }

  lemma ReadsScope(m: Machine, scope: seq<Member>) returns (r: Machine)
    requires Ready(m) && !m.inScope && m.s.n + 1 + MembersDepth(scope) < STACK_MAX
    requires forall i :: 0 <= i < |scope| ==> MemberAllowed(scope[i], true)
    ensures Leads(m, Events(CodeWithScope(scope)), r) && Inv(r) && Back(m, r)
    decreases scope, 1
  {
    hide Moves, Inv, Leads, Back, Ready, InsideScope, MembersEvents, MemberAllowed, Events, MapKey;
    ReadyShaped(m);
    var announced := OpensScope(m);
    ScopeFramed(announced, KOther);
    var framed := InsideScope(announced);
    var inside := ReadsMembers(framed, scope);
    ScopeClosesCode(m, framed, inside);
    var closed := Left(inside).(rs := InBsonType, bt := CodeType, inScope := false);
    r := closed.(rs := Regular, hasScope := false, hasCode := false);
    if scope == [] {
      NothingInside(framed, inside);
      EmptyScope(m, announced);
    } else {
      InScopeFrame(announced, scope, inside);
    }
    ScopeRun(m, [OnStartMap, KeyEvent(KCode), STRING, KeyEvent(KScope), OnStartMap], announced.(rs := InScope), scope,
             inside, closed, r);
  }

  lemma NothingInside(framed: Machine, inside: Machine)
    requires Leads(framed, MembersEvents([]), inside)
    ensures inside == framed
  {
  }

  lemma ScopeRun(m: Machine, before: seq<Event>, opening: Machine, scope: seq<Member>, inside: Machine, closed: Machine,
                 r: Machine)
    requires before == [OnStartMap, KeyEvent(KCode), STRING, KeyEvent(KScope), OnStartMap]
    requires Leads(m, before, opening) && Inv(opening)
    requires if scope == [] then Moves(opening, CLOSE, closed) else Leads(opening, MembersEvents(scope), inside)
    requires Inv(inside) && Moves(inside, CLOSE, closed) && Moves(closed, CLOSE, r)
    ensures Leads(m, Events(CodeWithScope(scope)), r)
  {
    hide Inv, Leads, Moves, MembersEvents;
    var es := MembersEvents(scope);
    if scope == [] {
      NoEvents();
      On(m, before, opening, CLOSE, closed);
      assert before + [CLOSE] == before + es + [CLOSE];
    } else {
      LeadsOn(m, before, opening, es, inside);
      On(m, before + es, inside, CLOSE, closed);
    }
    On(m, before + es + [CLOSE], closed, CLOSE, r);
    assert before + es + [CLOSE] + [CLOSE] == Events(CodeWithScope(scope));
  }

  lemma Reads(m: Machine, v: Json) returns (r: Machine)
    requires Ready(m) && Allowed(v, m.inScope) && m.s.n + Depth(v) < STACK_MAX
    ensures Leads(m, Events(v), r) && Inv(r) && Back(m, r)
    decreases v, 0
  {
    hide Leads, Inv, Back;
    match v
    case Text => r := ReadsText(m);
    case Number => r := ReadsNumber(m);
    case Quoted(k) => r := ReadsQuoted(m, k);
    case Bare(k) => r := ReadsOne(m, k, NUMBER);
    case DateLong => r := ReadsDateLong(m);
    case BinaryPair => r := ReadsPair(m, KBinary, KType, v);
    case BinaryDoc => r := ReadsBinaryDoc(m);
    case RegexPair => r := ReadsPair(m, KRegex, KOptions, v);
    case RegexDoc => r := ReadsRegexDoc(m);
    case Stamp => r := ReadsStamp(m);
    case Code => r := ReadsCode(m);
    case List(items) => r := ReadsList(m, items);
    case Object(members) => r := ReadsDoc(m, members);
    case Pointer => r := ReadsPointer(m);
    case CodeWithScope(scope) => r := ReadsScope(m, scope);
  }

  lemma ReadsDoc(m: Machine, members: seq<Member>) returns (r: Machine)
    requires Ready(m) && Allowed(Object(members), m.inScope) && m.s.n + 1 + MembersDepth(members) < STACK_MAX
    ensures Leads(m, Events(Object(members)), r) && Inv(r) && Back(m, r)
    decreases members, 1
  {
    if members == [] {
      r := ReadsEmpty(m);
      assert [OnStartMap] + ([] + [CLOSE]) == [OnStartMap, CLOSE];
    } else {
      FramedReady(m, DocFrame);
      var inside := ReadsMembers(Framed(m, DocFrame), members);
      r := ReadsObject(m, members, inside);
    }
  }

  /** Between documents. */
  predicate Fresh(m: Machine) { Inv(m) && m.s.n == -1 && !m.inScope && !m.hasScope && !m.hasCode }

  /** The callbacks of a whole document; its first key may be any. */
  function DocEvents(members: seq<Member>): seq<Event> { [OnStartMap] + (MembersEvents(members) + [CLOSE]) }

  predicate DocAllowed(members: seq<Member>) {
    MembersDepth(members) < 100 && forall i :: 0 <= i < |members| ==> MemberAllowed(members[i], false)
  }

  lemma RootKey(m: Machine, k: Key)
    requires Fresh(m) && m.rs == Regular
    ensures Shaped(m) && Inv(m.(rs := InStartMap)) && Moves(m, OnStartMap, m.(rs := InStartMap))
    ensures Ready(Framed(m, DocFrame)) && Framed(m, DocFrame).s.n == 0 && Top(Framed(m, DocFrame)) == DocFrame
    ensures Shaped(Framed(m, DocFrame))
    ensures !Framed(m, DocFrame).inScope && MapKey(m.(rs := InStartMap), k) == MapKey(Framed(m, DocFrame), k)
  {
    FramedReady(m, DocFrame);
    hide SlotsOwned, Moved, OptionFor, TypedKey;
  }

  lemma RootCloses(framed: Machine, inside: Machine)
    requires Ready(framed) && framed.s.n == 0 && Top(framed) == DocFrame && !framed.inScope && Back(framed, inside)
    requires Inv(inside)
    ensures Moves(inside, CLOSE, Left(inside).(rs := Done)) && Fresh(Left(inside).(rs := Done))
  {
    BackTop(framed, inside);
    PopOwns(inside);
    hide SlotsOwned, Moved;
  }

  lemma EmptyRoot(m: Machine)
    requires Fresh(m) && m.rs == Regular
    ensures Shaped(m) && Moves(m.(rs := InStartMap), CLOSE, Left(Push(m, DocFrame).value).(rs := Done))
    ensures Fresh(Left(Push(m, DocFrame).value).(rs := Done))
  {
    PushOwns(m, DocFrame);
    PopOwns(Push(m, DocFrame).value);
    hide SlotsOwned, Moved;
  }

  /** Every document of extended JSON is read to its end, whatever its members and however deep it nests. */
  lemma ReadsDocument(m: Machine, members: seq<Member>) returns (r: Machine)
    requires Fresh(m) && m.rs == Regular && DocAllowed(members)
    ensures Leads(m, DocEvents(members), r) && r.rs == Done && Fresh(r)
  {
    hide Moves, Inv, Leads, Back, MapKey, Enabled, Framed, MembersEvents, Step;
    var opening, k := m.(rs := InStartMap), if members == [] then KOther else members[0].key;
    RootKey(m, k);
    if members == [] {
      EmptyRoot(m);
      r := Left(Push(m, DocFrame).value).(rs := Done);
      First(m, OnStartMap, opening);
      On(m, [OnStartMap], opening, CLOSE, r);
      NoEvents();
      assert [OnStartMap] + ([] + [CLOSE]) == [OnStartMap] + [CLOSE];
    } else {
      var framed := Framed(m, DocFrame);
      var inside := ReadsMembers(framed, members);
      RootCloses(framed, inside);
      r := Left(inside).(rs := Done);
      FirstEvent(members);
      KeyEnabled(opening, framed, k);
      FirstKey(opening, framed, MembersEvents(members), inside);
      Between(m, OnStartMap, opening, MembersEvents(members), inside, CLOSE, r);
    }
  }

  /** Documents one behind the other. */
  function StreamEvents(docs: seq<seq<Member>>): seq<Event> {
    if docs == [] then [] else StreamEvents(docs[..|docs| - 1]) + ([OnRestart] + DocEvents(docs[|docs| - 1]))
  }

  lemma Restarts(m: Machine)
    requires Fresh(m)
    ensures Leads(m, [OnRestart], m.(rs := Regular)) && Fresh(m.(rs := Regular))
  {
    LeadsOne(m, OnRestart, m.(rs := Regular));
  }

  /** So is every stream of documents. */
  lemma {:induction false} ReadsStream(docs: seq<seq<Member>>) returns (r: Machine)
    requires forall d <- docs :: DocAllowed(d)
    ensures Leads(FRESH, StreamEvents(docs), r) && Fresh(r) && (docs != [] ==> r.rs == Done)
  {
    hide Leads, Inv, DocEvents, DocAllowed;
    if docs == [] {
      r := FRESH;
      FreshHolds();
      StaysHere(FRESH);
    } else {
      var before := ReadsStream(docs[..|docs| - 1]);
      Restarts(before);
      r := ReadsDocument(before.(rs := Regular), docs[|docs| - 1]);
      LeadsOn(before, [OnRestart], before.(rs := Regular), DocEvents(docs[|docs| - 1]), r);
      LeadsOn(FRESH, StreamEvents(docs[..|docs| - 1]), before, [OnRestart] + DocEvents(docs[|docs| - 1]), r);
    }
  }

  /** One more callback ends in an error. */
  predicate Refuses(m: Machine, e: Event) {
    Inv(m) ==> Enabled(m, e) && Step(m, e).Next? && Step(m, e).m.rs == Error
  }

  /** A typed value takes no second key of another type and no ordinary key. */
  lemma TypedRefuses(m: Machine, k: Key)
    requires Shaped(m) && m.s.n >= 0 && m.rs == InBsonType
    ensures m.bt != NoType && OptionFor(InBsonType, k).Some? && OptionFor(InBsonType, k).value.0 != m.bt ==>
              Refuses(m, KeyEvent(k))
    ensures !Known(k) && !k.KT? && !k.KI? ==> Refuses(m, KeyEvent(k))
  {
    hide SlotsOwned, Moved;
  }

  /** Nor does the document inside one take other keys than its own. */
  lemma InnerRefuses(m: Machine, k: Key)
    requires Shaped(m) && m.s.n >= 0 && InValues(m.rs)
    ensures OptionFor(m.rs, k).None? ==> Refuses(m, KeyEvent(k))
    ensures m.bt != NoType && OptionFor(m.rs, k).Some? && OptionFor(m.rs, k).value.0 != m.bt ==> Refuses(m, KeyEvent(k))
  {
    hide SlotsOwned, Moved, OptionFor, TypedKey;
  }

  /** Neither takes an array, or a number where it takes strings. */
  lemma ValueRefused(m: Machine)
    requires Shaped(m) && m.s.n >= 0 && (m.rs == InBsonType || InValues(m.rs))
    ensures Refuses(m, OnStartArray) && Refuses(m, OnEndArray)
    ensures m.rs != InBsonType && m.rs != TimestampValues ==> Refuses(m, NUMBER)
  {
    hide SlotsOwned, Moved, MapKey;
  }

  /** Nor any string that is not UTF-8 or, where it is not taken as it is, not of the form looked for. */
  lemma FormRefused(m: Machine, k: Key, fails: bool, query: bool)
    requires Shaped(m) && (m.rs == Regular && m.s.n == -1 ==> !m.hasKey)
    ensures Refuses(m, OnString(true, fails, query)) && Refuses(m, OnMapKey(k, true))
    ensures m.rs == BinaryValues && (m.lf == LfBinary || (m.lf == LfType && !query)) ==>
              Refuses(m, OnString(false, true, query))
    ensures (m.rs == InBsonType || m.rs == DateNumberLong || m.rs == TimestampValues || m.rs == RegexValues)
            && m.lf != LfSymbol && m.lf != LfCode && m.lf != LfDbRef && !(m.lf == LfType && query) ==>
              Refuses(m, OnString(false, true, query))
  {
    hide SlotsOwned, Moved, OptionFor, Entered;
  }

  /** A "$type" whose string is no subtype opens a document: it is a query operator. */
  lemma TypeIsQuery(m: Machine, fails: bool)
    requires Shaped(m) && 0 <= m.s.n < STACK_MAX - 1 && m.hasKey && m.lf == LfType
    requires m.rs == InBsonType || m.rs == BinaryValues
    ensures Moves(m, OnString(false, fails, true), Framed(m, DocFrame))
  {
    hide SlotsOwned, Moved, OptionFor;
  }

  /** No string is an undefined value or the smallest or largest key. */
  lemma TextRefused(m: Machine, k: Key)
    requires Ready(m) && (k == KUndefined || k == KMinKey || k == KMaxKey)
    ensures Shaped(m) && Refuses(TypedStart(m, k), STRING)
  {
    ReadyShaped(m);
    TypedIs(m, k);
    hide SlotsOwned, Moved, TypedStart;
  }
}
