/** The JSON reader's frame stack: parser callbacks as steps, and who owns a document under construction. */
module JsonFrames {
  import opened Basics

  const STACK_MAX := 100

  datatype Tag = Initial | ArrayFrame | DocFrame | ScopeFrame | DbPointerFrame

  /** Frames that hold a document of their own. */
  predicate HasBson(t: Tag) { t == ScopeFrame || t == DbPointerFrame }

  datatype ReadState =
    | Regular | Done | Error | InStartMap | InBsonType | DateNumberLong | DateEndMap
    | TimestampStartMap | TimestampValues | TimestampEndMap | RegexStartMap | RegexValues | RegexEndMap
    | BinaryValues | BinaryEndMap | ScopeStartMap | DbPointerStartMap | InScope | InDbPointer

  datatype LookFor =
    | LfRegex | LfOptions | LfPattern | LfPatternOptions | LfCode | LfScope | LfOid | LfBinary | LfType | LfDate
    | LfTimestampT | LfTimestampI | LfUndefined | LfMinKey | LfMaxKey | LfInt32 | LfInt64 | LfDouble
    | LfDecimal128 | LfSymbol | LfDbRef

  datatype BsonType =
    | NoType | RegexType | OidType | BinaryType | DateTimeType | UndefinedType | MinKeyType | MaxKeyType | Int32Type
    | Int64Type | DoubleType | SymbolType | Decimal128Type | TimestampType | DbPointerType | CodeType
    | CodeWScopeType

  /** The keys the reader tells apart. */
  datatype Key =
    | KRegex | KOptions | KOid | KBinary | KType | KDate | KUndefined | KMinKey | KMaxKey | KNumberInt | KNumberLong
    | KNumberDouble | KSymbol | KNumberDecimal | KTimestamp | KRegularExpression | KDbPointer | KCode | KScope
    | KRef | KId | KDb | KT | KI | KPattern | KPlainOptions | KBase64 | KSubType | KOther

  /** Keys that may open an extended JSON value. */
  predicate Known(k: Key) {
    !(k.KRef? || k.KId? || k.KDb? || k.KT? || k.KI? || k.KPattern? || k.KPlainOptions? || k.KBase64? || k.KSubType?
      || k.KOther?)
  }

  /** The keys a state of a typed value accepts, with the type they announce and what they look for. */
  function OptionFor(rs: ReadState, k: Key): Option<(BsonType, LookFor)> {
    match rs
    case InBsonType =>
      (match k
       case KRegex => Some((RegexType, LfRegex))
       case KOptions => Some((RegexType, LfOptions))
       case KOid => Some((OidType, LfOid))
       case KBinary => Some((BinaryType, LfBinary))
       case KType => Some((BinaryType, LfType))
       case KDate => Some((DateTimeType, LfDate))
       case KUndefined => Some((UndefinedType, LfUndefined))
       case KMinKey => Some((MinKeyType, LfMinKey))
       case KMaxKey => Some((MaxKeyType, LfMaxKey))
       case KNumberInt => Some((Int32Type, LfInt32))
       case KNumberLong => Some((Int64Type, LfInt64))
       case KNumberDouble => Some((DoubleType, LfDouble))
       case KSymbol => Some((SymbolType, LfSymbol))
       case KNumberDecimal => Some((Decimal128Type, LfDecimal128))
       case _ => None)
    case DateNumberLong => if k.KNumberLong? then Some((DateTimeType, LfInt64)) else None
    case TimestampValues =>
      if k.KT? then Some((TimestampType, LfTimestampT))
      else if k.KI? then Some((TimestampType, LfTimestampI))
      else None
    case RegexValues =>
      if k.KPattern? then Some((RegexType, LfPattern))
      else if k.KPlainOptions? then Some((RegexType, LfPatternOptions))
      else None
    case BinaryValues =>
      if k.KBase64? then Some((BinaryType, LfBinary))
      else if k.KSubType? then Some((BinaryType, LfType))
      else None
    case _ => None
  }

  /** The stack: its top, or -1, and its slots. `owned[i]` says that slot i holds an initialized document. */
  datatype Stack = Stack(n: int, tags: seq<Tag>, owned: seq<bool>)

  datatype Machine = Machine(s: Stack, rs: ReadState, lf: LookFor, bt: BsonType, inScope: bool, hasScope: bool,
                             hasCode: bool, hasKey: bool)

  predicate StackShaped(s: Stack) {
    |s.tags| == |s.owned| == STACK_MAX && -1 <= s.n < STACK_MAX
  }

  predicate Shaped(m: Machine) { StackShaped(m.s) }

  /** Slot i is one of the stack's and holds an initialized document. */
  predicate Holds(m: Machine, i: nat)
    requires Shaped(m)
  {
    i < STACK_MAX && m.s.owned[i]
  }

  /** The frame on top; there is none before a document has begun. */
  function Top(m: Machine): Tag
    requires Shaped(m) && m.s.n >= 0
  {
    m.s.tags[m.s.n]
  }

  /**
   * STACK_PUSH: a document left in the slot by an earlier frame is reused or destroyed, and one is initialized
   * where none was. A full stack changes nothing.
   */
  function PushSlot(s: Stack, t: Tag): (r: Option<Stack>)
    requires StackShaped(s)
    ensures r.Some? ==> StackShaped(r.value)
  {
    if s.n >= STACK_MAX - 1 then None
    else
      var i := s.n + 1;
      var owns := if HasBson(s.tags[i]) then s.owned[i] && HasBson(t) else s.owned[i] || HasBson(t);
      Some(Stack(i, s.tags[i := t], s.owned[i := owns]))
  }

  function Push(m: Machine, t: Tag): (r: Option<Machine>)
    requires Shaped(m)
    ensures r.Some? ==> Shaped(r.value) && r.value == m.(s := r.value.s) && Moved(m.s, r.value.s)
  {
    match PushSlot(m.s, t) case None => None case Some(s) => Some(m.(s := s))
  }

  /** At most one frame is entered or left, and no tag but the one above the top changes. */
  predicate Moved(s: Stack, r: Stack)
    requires StackShaped(s)
  {
    || (r.n == -1 || r == s || r == Pop(s))
    || (s.n < STACK_MAX - 1 && |r.tags| == STACK_MAX && r.tags == s.tags[s.n + 1 := r.tags[s.n + 1]]
        && (r.n == s.n || r.n == s.n + 1))
  }

  /** STACK_POP: the slot keeps its tag and its document. */
  function Pop(s: Stack): Stack { s.(n := s.n - 1) }

  /** A new frame, and the key saved in it if there is one; a full stack leaves things as they are. */
  function Entered(m: Machine, t: Tag, saved: bool): (r: Machine)
    requires Shaped(m)
    ensures r.rs == m.rs
    ensures Moved(m.s, r.s)
  {
    match Push(m, t)
    case None => m
    case Some(p) => if saved then p.(hasKey := true) else p
  }

  function Fail(m: Machine): Machine { m.(rs := Error) }

  /** Inside an array the key is the index. */
  function FixupKey(m: Machine): Machine
    requires Shaped(m)
  {
    if m.s.n >= 0 && Top(m) == ArrayFrame && m.rs == Regular then m.(hasKey := true) else m
  }

  function StartMap(m0: Machine): (r: Machine)
    requires Shaped(m0)
    ensures r.rs != DbPointerStartMap
    ensures Moved(m0.s, r.s)
  {
    var m := FixupKey(m0);
    match m.rs
    case InBsonType =>
      if m.lf == LfDate then m.(rs := DateNumberLong)
      else if m.lf == LfBinary then m.(rs := BinaryValues)
      else if m.lf == LfType then Entered(m.(rs := InStartMap), DocFrame, true)
      else m
    case TimestampStartMap => m.(rs := TimestampValues)
    case ScopeStartMap => m.(rs := InScope)
    case DbPointerStartMap => m.(rs := InDbPointer)
    case RegexStartMap => m.(rs := RegexValues)
    case _ => m.(rs := InStartMap)
  }

  /** HANDLE_OPTION: the announced type must fit what has been announced before. */
  function TakeOption(m: Machine, option: (BsonType, LookFor)): Machine {
    if m.bt != NoType && m.bt != option.0 then Fail(m) else m.(bt := option.0, lf := option.1)
  }

  /** "$code" or "$scope"; inside a scope they are ordinary keys of a subdocument. */
  function CodeOrScopeKey(m: Machine, isScope: bool): (r: Machine)
    requires Shaped(m)
    ensures Moved(m.s, r.s)
  {
    if m.inScope then Entered(m.(rs := Regular), DocFrame, true)
    else if isScope then m.(bt := CodeWScopeType, rs := ScopeStartMap, lf := LfScope, hasScope := true)
    else m.(bt := CodeType, lf := LfCode, hasCode := true)
  }

  /** A key that opens a typed value of its own form. */
  function TypedKey(m: Machine, k: Key): (r: Machine)
    requires Shaped(m)
    ensures Moved(m.s, r.s)
  {
    if k == KTimestamp then m.(bt := TimestampType, rs := TimestampStartMap)
    else if k == KRegularExpression then m.(bt := RegexType, rs := RegexStartMap)
    else if k == KDbPointer then m.(bt := DbPointerType, rs := DbPointerStartMap)
    else if k == KCode then CodeOrScopeKey(m, false)
    else if k == KScope then CodeOrScopeKey(m, true)
    else Fail(m)
  }

  /** What a key means once the state for it has been entered. */
  function KeyInState(m: Machine, k: Key): (r: Machine)
    requires Shaped(m)
    ensures Moved(m.s, r.s) && (m.rs != InBsonType ==> r.s == m.s)
  {
    var option := OptionFor(m.rs, k);
    if option.Some? then TakeOption(m, option.value)
    else if m.rs == InBsonType then TypedKey(m, k)
    else if m.rs == DateNumberLong || m.rs == TimestampValues || m.rs == RegexValues || m.rs == BinaryValues
    then Fail(m)
    else if m.s.n > 0 && (k == KRef || k == KDb) then m.(hasKey := true, rs := InBsonType, lf := LfDbRef)
    else m.(hasKey := true)
  }

  /** A key may first open the frame it belongs to; false when the stack is full and the callback returns. */
  function KeyState(m: Machine, k: Key): (r: (Machine, bool))
    requires Shaped(m)
    ensures Shaped(r.0)
    ensures Moved(m.s, r.0.s) && (r.0.rs == InBsonType ==> r.0.s == m.s)
  {
    if m.rs == InStartMap && Known(k) && m.s.n >= 0 then (m.(rs := InBsonType, bt := NoType), true)
    else if m.rs == InStartMap then
      (match Push(m.(rs := Regular), DocFrame) case None => (m.(rs := Regular), false) case Some(p) => (p, true))
    else if m.rs == InScope then
      (match Push(m.(rs := Regular), ScopeFrame)
       case None => (m.(rs := Regular), false)
       case Some(p) => (p.(inScope := true, hasKey := true), true))
    else if m.rs == InDbPointer then
      (match Push(m.(rs := Regular), DbPointerFrame)
       case None => (m.(rs := Regular), false)
       case Some(p) => (p.(hasKey := true), true))
    else (m, true)
  }

  function MapKey(m: Machine, k: Key): (r: Machine)
    requires Shaped(m)
    ensures Moved(m.s, r.s)
  {
    var (entered, go) := KeyState(m, k);
    if go then KeyInState(entered, k) else entered
  }

  /**
   * The step's outcome. Aborted is a failed BSON_ASSERT. The last two stand for reading a document from the slot above
   * the top where none is initialized, or behind the last slot: the scope of a code value, or a DBPointer.
   */
  datatype Outcome = Next(m: Machine) | Aborted | ScopeMissing | PointerMissing

  /** The closing brace of a frame's own document. */
  function CloseFrame(m: Machine, fails: bool): (r: Machine)
    requires Shaped(m) && m.s.n >= 0
    ensures Moved(m.s, r.s)
  {
    if Top(m) == ScopeFrame then m.(s := Pop(m.s), rs := InBsonType, bt := CodeType, inScope := false)
    else if Top(m) == DbPointerFrame then m.(s := Pop(m.s), rs := DbPointerStartMap)
    else
      var checked := if fails then Fail(m) else m;
      if Top(m) == ArrayFrame then checked
      else if m.s.n == 0 then checked.(s := Pop(m.s), rs := Done)
      else checked.(s := Pop(m.s))
  }

  /** Appends a code value, with the document in the slot above the top as its scope when a "$scope" has been read. */
  function AppendCode(m: Machine, fails: bool): Outcome
    requires Shaped(m) && m.s.n >= 0
  {
    if m.inScope then Aborted
    else if !m.hasCode then Next(Fail(m))
    else if m.hasScope && !Holds(m, m.s.n + 1) then ScopeMissing
    else Next(m.(rs := if fails then Error else Regular, hasScope := false, hasCode := false))
  }

  /** The closing brace of a typed value: it is appended, unless something about it is wrong. */
  function CloseTyped(m: Machine, fails: bool): Outcome
    requires Shaped(m) && m.s.n >= 0
  {
    if !m.hasKey then Next(Fail(m))
    else if m.bt == CodeType || m.bt == CodeWScopeType then AppendCode(m, fails)
    else if m.bt == DbPointerType || m.bt == TimestampType || m.bt == NoType || fails then Next(Fail(m))
    else Next(m.(rs := Regular))
  }

  /** An empty document: its frame is opened and closed. */
  function OpenAndClose(m: Machine, t: Tag, fails: bool): (r: Machine)
    requires Shaped(m)
    ensures Moved(m.s, r.s)
  {
    match Push(m, t)
    case None => m
    case Some(p) => CloseFrame(if t == ScopeFrame then p.(inScope := true) else p, fails)
  }

  function CloseValues(m: Machine, fails: bool, then_: ReadState): Machine {
    if !m.hasKey || fails then Fail(m) else m.(rs := then_)
  }

  /** A closing brace; `fails` says that a check of the value, or appending it, fails. */
  function EndMap(m: Machine, fails: bool): (r: Outcome)
    requires Shaped(m) && (m.rs == Regular || NeedsFrame(m.rs) ==> m.s.n >= 0)
    ensures r.Next? ==> Moved(m.s, r.m.s)
  {
    match m.rs
    case InStartMap => Next(OpenAndClose(m.(rs := Regular), DocFrame, fails))
    case ScopeStartMap => Next(OpenAndClose(m.(rs := Regular), ScopeFrame, fails))
    case DbPointerStartMap => if Holds(m, m.s.n + 1) then Next(m.(rs := Regular)) else PointerMissing
    case InBsonType => CloseTyped(m, fails)
    case TimestampValues => Next(CloseValues(m, fails, TimestampEndMap))
    case RegexValues => Next(CloseValues(m, fails, RegexEndMap))
    case BinaryValues => Next(CloseValues(m, fails, BinaryEndMap))
    case DateNumberLong => Next(CloseValues(m, fails, DateEndMap))
    case TimestampEndMap => Next(m.(rs := Regular))
    case RegexEndMap => Next(m.(rs := Regular))
    case BinaryEndMap => Next(m.(rs := Regular))
    case DateEndMap => Next(m.(rs := Regular))
    case Regular => Next(CloseFrame(m, fails))
    case InScope =>
      if !m.hasScope then Aborted
      else
        (match Push(m, ScopeFrame)
         case None => Next(m)
         case Some(p) => Next(p.(s := Pop(p.s), rs := InBsonType, bt := CodeType, inScope := false)))
    case _ => Next(Fail(m))
  }

  function StartArray(m: Machine): (r: Machine)
    requires Shaped(m)
    ensures r.rs != DbPointerStartMap
    ensures Moved(m.s, r.s)
  {
    if m.rs != Regular then Fail(m) else Entered(FixupKey(m), ArrayFrame, false)
  }

  function EndArray(m: Machine): (r: Machine)
    requires Shaped(m) && (m.rs == Regular ==> m.s.n >= 0)
    ensures r.rs != DbPointerStartMap
    ensures Moved(m.s, r.s)
  {
    if m.rs != Regular then Fail(m)
    else if Top(m) != ArrayFrame then m
    else if m.s.n == 0 then m.(s := Pop(m.s), rs := Done)
    else m.(s := Pop(m.s))
  }

  /** A subtype string that is no number may turn out to be the operand of a "$type" query. */
  function BinaryElem(m: Machine, fails: bool, query: bool): (r: Machine)
    requires Shaped(m)
    ensures r.rs == m.rs || r.rs == Regular || r.rs == Error
    ensures Moved(m.s, r.s)
  {
    if m.lf == LfType && query then Entered(m.(rs := Regular), DocFrame, false)
    else if (m.lf == LfBinary || m.lf == LfType) && fails then Fail(m)
    else m
  }

  /** What no string can satisfy. */
  predicate Unparsable(rs: ReadState, lf: LookFor) {
    || lf == LfScope || lf == LfTimestampT || lf == LfTimestampI || lf == LfUndefined || lf == LfMinKey
    || lf == LfMaxKey
    || ((lf == LfInt32 || lf == LfDecimal128) && rs != InBsonType)
    || (lf == LfInt64 && rs != InBsonType && rs != DateNumberLong)
  }

  /** A string value; `corrupt` when it is not UTF-8. */
  function Str(m0: Machine, corrupt: bool, fails: bool, query: bool): (r: Machine)
    requires Shaped(m0) && (m0.rs == Regular && m0.s.n == -1 ==> !m0.hasKey)
    ensures r.rs != DbPointerStartMap
    ensures Moved(m0.s, r.s)
  {
    var m := FixupKey(m0);
    if corrupt then Fail(m)
    else if m.rs == Regular then (if m.hasKey then m else Fail(m))
    else if m.rs == BinaryValues then BinaryElem(m, fails, query)
    else if m.rs == InBsonType || m.rs == TimestampValues || m.rs == RegexValues || m.rs == DateNumberLong then
      if m.lf == LfBinary || m.lf == LfType then BinaryElem(m, fails, query)
      else if m.lf == LfDbRef then m.(rs := Regular)
      else if m.lf == LfSymbol || m.lf == LfCode then m
      else if fails || Unparsable(m.rs, m.lf) then Fail(m)
      else m
    else Fail(m)
  }

  /** A number, boolean or null. */
  function Scalar(m0: Machine, fails: bool): (r: Machine)
    requires Shaped(m0) && (m0.rs == Regular && m0.s.n == -1 ==> !m0.hasKey)
    ensures r.rs != DbPointerStartMap
    ensures Moved(m0.s, r.s)
  {
    var m := FixupKey(m0);
    if m.rs == Regular then (if m.hasKey && !fails then m else Fail(m))
    else if (m.rs == InBsonType || m.rs == TimestampValues) && !fails then m
    else Fail(m)
  }

  /** bson_json_reader_read starts over with the same frames. */
  function Restart(m: Machine): Machine { m.(s := m.s.(n := -1), rs := Regular) }

  const FRESH := Machine(Stack(-1, seq(STACK_MAX, _ => Initial), seq(STACK_MAX, _ => false)), Regular, LfRegex,
                         NoType, false, false, false, false)

  datatype Event =
    | OnStartMap | OnMapKey(key: Key, corrupt: bool) | OnEndMap(fails: bool) | OnStartArray | OnEndArray
    | OnString(corrupt: bool, fails: bool, query: bool) | OnScalar(fails: bool) | OnRestart

  /** Before a document has begun there is no frame to close or to append to. */
  predicate Enabled(m: Machine, e: Event) {
    m.rs == Regular && m.s.n == -1 ==>
      match e
      case OnEndMap(_) => false
      case OnEndArray => false
      case OnString(_, _, _) => !m.hasKey
      case OnScalar(_) => !m.hasKey
      case _ => true
  }

  function Step(m: Machine, e: Event): Outcome
    requires Inv(m) && Enabled(m, e)
  {
    match e
    case OnStartMap => Next(StartMap(m))
    case OnMapKey(key, corrupt) => Next(if corrupt then Fail(m) else MapKey(m, key))
    case OnEndMap(fails) => EndMap(m, fails)
    case OnStartArray => Next(StartArray(m))
    case OnEndArray => Next(EndArray(m))
    case OnString(corrupt, fails, query) => Next(Str(m, corrupt, fails, query))
    case OnScalar(fails) => Next(Scalar(m, fails))
    case OnRestart => Next(Restart(m))
  }

  /** States that only exist inside a document. */
  predicate NeedsFrame(rs: ReadState) {
    rs != Regular && rs != Done && rs != Error && rs != InStartMap
  }

  /** A slot holds a document exactly when its tag says so, the first slot never does, and used slots form a prefix. */
  predicate SlotsOwned(s: Stack) {
    && StackShaped(s) && !HasBson(s.tags[0])
    && (forall i :: 0 <= i < STACK_MAX ==> (s.owned[i] <==> HasBson(s.tags[i])))
    && (forall i, j :: 0 <= i < j < STACK_MAX && s.tags[i] == Initial ==> s.tags[j] == Initial)
    && (s.n >= 0 ==> s.tags[s.n] != Initial)
  }

  predicate Owns(m: Machine) { SlotsOwned(m.s) }

  predicate Inv(m: Machine) {
    && Owns(m) && (NeedsFrame(m.rs) ==> m.s.n >= 0) && (m.rs == Done ==> m.s.n == -1)
    && (m.rs == ScopeStartMap || m.rs == InScope ==> m.hasScope)
  }

  /** A document has begun. */
  predicate Opened(m: Machine) { m.rs == Regular ==> m.s.n >= 0 }

  lemma OwnsShaped(m: Machine)
    requires Owns(m)
    ensures Shaped(m) && (m.s.n >= 0 && HasBson(Top(m)) ==> m.s.n > 0)
  {
  }

  lemma PushOwns(m: Machine, t: Tag)
    requires Owns(m) && t != Initial && (HasBson(t) ==> m.s.n >= 0)
    ensures Shaped(m)
    ensures Push(m, t).Some? ==> Owns(Push(m, t).value) && Push(m, t).value.s.n == m.s.n + 1
    ensures Push(m, t).None? ==> m.s.n == STACK_MAX - 1
    ensures Push(m, t).Some? ==> Top(Push(m, t).value) == t
  {
  }

  /** Leaving a frame keeps its slot as it is. */
  lemma PopOwns(m: Machine)
    requires Owns(m) && m.s.n >= 0
    ensures SlotsOwned(Pop(m.s))
  {
  }

  lemma EnteredOwns(m: Machine, t: Tag, saved: bool)
    requires Owns(m) && t != Initial && (HasBson(t) ==> m.s.n >= 0)
    ensures Shaped(m)
    ensures var r := Entered(m, t, saved); Owns(r) && r.s.n >= 0 && r.rs == m.rs && r.hasScope == m.hasScope
  {
    OwnsShaped(m);
    PushOwns(m, t);
    hide SlotsOwned, Push;
  }

  /** The key of an array element changes nothing else. */
  lemma FixupKeeps(m: Machine)
    requires Inv(m)
    ensures Shaped(m) && Inv(FixupKey(m)) && FixupKey(m).rs == m.rs && FixupKey(m).s == m.s
    ensures m.s.n == -1 ==> FixupKey(m) == m
  {
    OwnsShaped(m);
    hide SlotsOwned;
  }

  lemma StartMapKeeps(m: Machine)
    requires Inv(m)
    ensures Shaped(m) && Inv(StartMap(m)) && Opened(StartMap(m))
  {
    hide SlotsOwned, Entered, FixupKey, Moved;
    FixupKeeps(m);
    EnteredOwns(FixupKey(m).(rs := InStartMap), DocFrame, true);
  }

  lemma ScopeKeyKeeps(m: Machine, isScope: bool)
    requires Inv(m) && m.rs == InBsonType
    ensures Shaped(m) && Inv(CodeOrScopeKey(m, isScope)) && Opened(CodeOrScopeKey(m, isScope))
  {
    hide SlotsOwned, Entered;
    OwnsShaped(m);
    if m.inScope { EnteredOwns(m.(rs := Regular), DocFrame, true); }
  }

  lemma TypedKeyKeeps(m: Machine, k: Key)
    requires Inv(m) && m.rs == InBsonType
    ensures Shaped(m) && Inv(TypedKey(m, k)) && Opened(TypedKey(m, k))
  {
    hide SlotsOwned, CodeOrScopeKey;
    OwnsShaped(m);
    ScopeKeyKeeps(m, true);
    ScopeKeyKeeps(m, false);
  }

  lemma KeyKeeps(m: Machine, k: Key)
    requires Inv(m)
    ensures Shaped(m) && Inv(KeyInState(m, k)) && (Opened(m) ==> Opened(KeyInState(m, k)))
  {
    hide SlotsOwned, OptionFor, TypedKey, Moved;
    OwnsShaped(m);
    if m.rs == InBsonType { TypedKeyKeeps(m, k); }
  }

  /** The frame a key opens, if there is room for it. */
  lemma KeyPushKeeps(m: Machine, t: Tag)
    requires Inv(m) && t != Initial && (HasBson(t) ==> m.s.n >= 0)
    ensures Shaped(m)
    ensures var p := Push(m.(rs := Regular), t);
            if p.Some? then Owns(p.value) && p.value.rs == Regular && p.value.s.n >= 0
            else Inv(m.(rs := Regular)) && Opened(m.(rs := Regular))
  {
    hide SlotsOwned, Push, Moved;
    OwnsShaped(m);
    PushOwns(m.(rs := Regular), t);
  }

  lemma KeyStateKeeps(m: Machine, k: Key)
    requires Inv(m)
    ensures Shaped(m) && Inv(KeyState(m, k).0) && (Opened(m) ==> Opened(KeyState(m, k).0))
  {
    hide SlotsOwned, Push, Moved, Known;
    OwnsShaped(m);
    if m.rs == InStartMap {
      KeyPushKeeps(m, DocFrame);
    } else if m.rs == InScope {
      KeyPushKeeps(m, ScopeFrame);
    } else if m.rs == InDbPointer {
      KeyPushKeeps(m, DbPointerFrame);
    }
  }

  lemma MapKeyKeeps(m: Machine, k: Key)
    requires Inv(m)
    ensures Shaped(m) && Inv(MapKey(m, k)) && (Opened(m) ==> Opened(MapKey(m, k)))
  {
    hide Inv, KeyInState, KeyState;
    KeyStateKeeps(m, k);
    KeyKeeps(KeyState(m, k).0, k);
  }

  lemma CloseKeeps(m: Machine, fails: bool)
    requires Owns(m) && m.rs == Regular && m.s.n >= 0
    ensures Shaped(m) && Inv(CloseFrame(m, fails)) && Opened(CloseFrame(m, fails))
  {
    OwnsShaped(m);
    PopOwns(m);
    hide SlotsOwned;
  }

  lemma OpenAndCloseKeeps(m: Machine, t: Tag, fails: bool)
    requires Owns(m) && m.rs == Regular && t != Initial && (HasBson(t) ==> m.s.n >= 0)
    ensures Shaped(m) && Inv(OpenAndClose(m, t, fails)) && Opened(OpenAndClose(m, t, fails))
  {
    hide SlotsOwned, CloseFrame, Push;
    OwnsShaped(m);
    PushOwns(m, t);
    if Push(m, t).Some? {
      CloseKeeps(if t == ScopeFrame then Push(m, t).value.(inScope := true) else Push(m, t).value, fails);
    }
  }

  /** The closing brace of an empty document. */
  lemma EndEmptyKeeps(m: Machine, fails: bool)
    requires Inv(m) && (m.rs == InStartMap || m.rs == ScopeStartMap)
    ensures Shaped(m) && EndMap(m, fails).Next? && Inv(EndMap(m, fails).m) && Opened(EndMap(m, fails).m)
  {
    hide SlotsOwned, OpenAndClose, Push, Moved;
    OwnsShaped(m);
    OpenAndCloseKeeps(m.(rs := Regular), if m.rs == InStartMap then DocFrame else ScopeFrame, fails);
  }

  /** The closing brace of a scope that has not got a frame yet. */
  lemma EndScopeKeeps(m: Machine, fails: bool)
    requires Inv(m) && m.rs == InScope
    ensures Shaped(m) && EndMap(m, fails).Next? && Inv(EndMap(m, fails).m) && Opened(EndMap(m, fails).m)
  {
    hide SlotsOwned, Push, Moved;
    OwnsShaped(m);
    PushOwns(m, ScopeFrame);
    if Push(m, ScopeFrame).Some? { PopOwns(Push(m, ScopeFrame).value); }
  }

  /** The closing brace of a typed value leaves the frames alone. */
  lemma EndValueKeeps(m: Machine, fails: bool)
    requires Inv(m) && m.rs != InStartMap && m.rs != ScopeStartMap && m.rs != InScope && m.rs != Regular
    ensures Shaped(m)
    ensures EndMap(m, fails).Next? ==> Inv(EndMap(m, fails).m) && Opened(EndMap(m, fails).m)
  {
    hide SlotsOwned, Moved;
    OwnsShaped(m);
  }

  lemma EndMapKeeps(m: Machine, fails: bool)
    requires Inv(m) && Opened(m)
    ensures Shaped(m)
    ensures EndMap(m, fails).Next? ==> Inv(EndMap(m, fails).m) && Opened(EndMap(m, fails).m)
  {
    hide SlotsOwned, CloseFrame, Moved;
    OwnsShaped(m);
    if m.rs == InStartMap || m.rs == ScopeStartMap {
      EndEmptyKeeps(m, fails);
    } else if m.rs == InScope {
      EndScopeKeeps(m, fails);
    } else if m.rs == Regular {
      CloseKeeps(m, fails);
    } else {
      EndValueKeeps(m, fails);
    }
  }

  lemma ArrayKeeps(m: Machine)
    requires Inv(m)
    ensures Shaped(m) && Inv(StartArray(m)) && Opened(StartArray(m))
    ensures Opened(m) ==> Inv(EndArray(m)) && Opened(EndArray(m))
  {
    hide SlotsOwned, Entered, FixupKey, Moved;
    FixupKeeps(m);
    OwnsShaped(m);
    EnteredOwns(FixupKey(m), ArrayFrame, false);
    if m.s.n >= 0 { PopOwns(m); }
  }

  lemma BinaryKeeps(m: Machine, fails: bool, query: bool)
    requires Inv(m) && m.rs != Regular
    ensures Shaped(m) && Inv(BinaryElem(m, fails, query)) && Opened(BinaryElem(m, fails, query))
  {
    hide SlotsOwned, Entered, Moved;
    EnteredOwns(m.(rs := Regular), DocFrame, false);
  }

  lemma StrKeeps(m: Machine, corrupt: bool, fails: bool, query: bool)
    requires Inv(m) && (m.rs == Regular && m.s.n == -1 ==> !m.hasKey)
    ensures Shaped(m) && Inv(Str(m, corrupt, fails, query)) && (Opened(m) ==> Opened(Str(m, corrupt, fails, query)))
  {
    hide SlotsOwned, BinaryElem, Unparsable, FixupKey, Moved;
    FixupKeeps(m);
    if m.rs != Regular { BinaryKeeps(FixupKey(m), fails, query); }
  }

  lemma ScalarKeeps(m: Machine, fails: bool)
    requires Inv(m) && (m.rs == Regular && m.s.n == -1 ==> !m.hasKey)
    ensures Shaped(m) && Inv(Scalar(m, fails)) && (Opened(m) ==> Opened(Scalar(m, fails)))
  {
    hide SlotsOwned, FixupKey;
    FixupKeeps(m);
  }

  /** Every callback keeps the invariant, and once a document has begun a frame is there until it is done. */
  lemma StepKeeps(m: Machine, e: Event)
    requires Inv(m) && Enabled(m, e)
    ensures Shaped(m)
    ensures Step(m, e).Next? ==> Inv(Step(m, e).m)
    ensures Step(m, e).Next? && e != OnRestart && (Opened(m) || e == OnStartMap || e == OnStartArray)
            ==> Opened(Step(m, e).m)
  {
    hide SlotsOwned, StartMap, MapKey, EndMap, StartArray, EndArray, Str, Scalar;
    OwnsShaped(m);
    match e
    case OnStartMap => StartMapKeeps(m);
    case OnMapKey(key, corrupt) => MapKeyKeeps(m, key);
    case OnEndMap(fails) => EndMapKeeps(m, fails);
    case OnStartArray => ArrayKeeps(m);
    case OnEndArray => ArrayKeeps(m);
    case OnString(corrupt, fails, query) => StrKeeps(m, corrupt, fails, query);
    case OnScalar(fails) => ScalarKeeps(m, fails);
    case OnRestart => RestartKeeps(m);
  }

  lemma RestartKeeps(m: Machine)
    requires Owns(m)
    ensures Owns(Restart(m))
  {
  }

  /** Stuck: a frame would be needed where none is. Broke: a step without a next state ends the process or the claim. */
  datatype Reached = Reached(m: Machine) | Stuck | Broke(why: Outcome)

  /** Any sequence of callbacks. */
  function Run(m: Machine, es: seq<Event>): (r: Reached)
    requires Inv(m)
    ensures r.Reached? ==> Inv(r.m)
    decreases es
  {
    if es == [] then Reached(m)
    else if !Enabled(m, es[0]) then Stuck
    else
      StepKeeps(m, es[0]);
      var o := Step(m, es[0]);
      if o.Next? then Run(o.m, es[1..]) else Broke(o)
  }

  predicate Opens(e: Event) { e == OnStartMap || e == OnStartArray || e == OnRestart }

  /** Every document begins with an opening bracket. */
  predicate Begins(es: seq<Event>) {
    forall i :: 0 <= i < |es| - 1 && es[i] == OnRestart ==> Opens(es[i + 1])
  }

  /** Over any callbacks and any number of documents, ownership holds and no frame is missing. */
  lemma {:induction false} RunKeeps(m: Machine, es: seq<Event>)
    requires Inv(m) && Begins(es) && (Opened(m) || es == [] || Opens(es[0]))
    ensures Run(m, es) != Stuck
    ensures Run(m, es).Reached? ==> Inv(Run(m, es).m)
    decreases es
  {
    hide SlotsOwned, Step, Enabled;
    if es != [] {
      OpensEnabled(m, es[0]);
      StepKeeps(m, es[0]);
      if Step(m, es[0]).Next? {
        assert forall i :: 0 <= i < |es[1..]| ==> es[1..][i] == es[i + 1];
        RunKeeps(Step(m, es[0]).m, es[1..]);
      }
    }
  }

  /**
   * From a new reader, over any callbacks and any number of documents: slot i holds a document exactly when its
   * frame is a scope or a DBPointer, slot 0 never does, used slots form a prefix, and n stays in range.
   */
  lemma OwnershipHolds(es: seq<Event>)
    requires Begins(es) && (es == [] || Opens(es[0]))
    ensures Inv(FRESH) && Run(FRESH, es) != Stuck
    ensures Run(FRESH, es).Reached? ==>
              var m := Run(FRESH, es).m;
              && -1 <= m.s.n < STACK_MAX && |m.s.tags| == |m.s.owned| == STACK_MAX
              && (forall i :: 0 <= i < STACK_MAX ==> (m.s.owned[i] <==> HasBson(m.s.tags[i])))
              && !m.s.owned[0]
              && (forall i, j :: 0 <= i < j < STACK_MAX && m.s.tags[i] == Initial ==> m.s.tags[j] == Initial)
  {
    FreshHolds();
    RunKeeps(FRESH, es);
  }

  /** The closing brace of a code value. */
  predicate AtCode(m: Machine) { m.rs == InBsonType && m.hasKey && (m.bt == CodeType || m.bt == CodeWScopeType) }

  /** What the closing brace breaks on: a code value inside a scope, or a missing document above the top. */
  function Flaw(m: Machine): Option<Outcome>
    requires Inv(m)
  {
    var bare := m.s.n + 1 == STACK_MAX || !HasBson(m.s.tags[m.s.n + 1]);
    if AtCode(m) && m.inScope then Some(Aborted)
    else if AtCode(m) && m.hasCode && m.hasScope && bare then Some(ScopeMissing)
    else if m.rs == DbPointerStartMap && bare then Some(PointerMissing)
    else None
  }

  /** A closing brace breaks exactly on its flaw, whatever is appended; no other callback breaks. */
  lemma BreaksOn(m: Machine, e: Event)
    requires Inv(m) && Enabled(m, e)
    ensures e.OnEndMap? ==> (Step(m, e).Next? <==> Flaw(m) == None)
    ensures e.OnEndMap? && Flaw(m).Some? ==> Step(m, e) == Flaw(m).value
    ensures !e.OnEndMap? ==> Step(m, e).Next?
  {
    OwnsShaped(m);
    hide CloseFrame, OpenAndClose, Push, StartMap, MapKey, StartArray, EndArray, Str, Scalar;
    assert m.s.n + 1 < STACK_MAX ==> (m.s.owned[m.s.n + 1] <==> HasBson(m.s.tags[m.s.n + 1]));
  }

  /** The k-th callback is a closing brace in a state with that flaw. */
  predicate FlawAt(m: Machine, es: seq<Event>, k: nat, why: Outcome)
    requires Inv(m)
  {
    k < |es| && es[k].OnEndMap? &&
    var r := Run(m, es[..k]);
    r.Reached? && Enabled(r.m, es[k]) && Flaw(r.m) == Some(why)
  }

  lemma FlawFirst(m: Machine, es: seq<Event>, why: Outcome)
    requires Inv(m) && es != []
    ensures FlawAt(m, es, 0, why) <==> Enabled(m, es[0]) && es[0].OnEndMap? && Flaw(m) == Some(why)
  {
    assert es[..0] == [];
  }

  lemma FlawLater(m: Machine, es: seq<Event>, k: nat, why: Outcome)
    requires Inv(m) && es != [] && Enabled(m, es[0]) && Step(m, es[0]).Next?
    ensures Inv(Step(m, es[0]).m)
    ensures FlawAt(m, es, k + 1, why) <==> FlawAt(Step(m, es[0]).m, es[1..], k, why)
  {
    hide Inv, Enabled, Step, Flaw;
    StepKeeps(m, es[0]);
    if k + 1 < |es| {
      assert es[..k + 1][1..] == es[1..][..k] && es[..k + 1][0] == es[0];
    }
  }

  lemma {:induction false} FindsFlaw(m: Machine, es: seq<Event>) returns (k: nat)
    requires Inv(m) && Run(m, es).Broke?
    ensures FlawAt(m, es, k, Run(m, es).why)
    decreases es
  {
    hide Inv, Enabled, Step, Flaw, FlawAt;
    BreaksOn(m, es[0]);
    StepKeeps(m, es[0]);
    if Step(m, es[0]).Next? {
      k := FindsFlaw(Step(m, es[0]).m, es[1..]);
      FlawLater(m, es, k, Run(m, es).why);
      k := k + 1;
    } else {
      k := 0;
      FlawFirst(m, es, Run(m, es).why);
    }
  }

  lemma {:induction false} EndsInFlaw(m: Machine, es: seq<Event>, k: nat, why: Outcome)
    requires Inv(m) && FlawAt(m, es, k, why)
    ensures Run(m, es) == Broke(why)
    decreases es
  {
    hide Inv, Enabled, Step, Flaw;
    if k == 0 {
      FlawFirst(m, es, why);
      BreaksOn(m, es[0]);
    } else {
      assert es[..k][0] == es[0];
      assert Enabled(m, es[0]) && Step(m, es[0]).Next?;
      FlawLater(m, es, k - 1, why);
      EndsInFlaw(Step(m, es[0]).m, es[1..], k - 1, why);
    }
  }

  /** A run breaks exactly when some closing brace in it meets a flaw, and with that outcome. */
  lemma BreaksExactly(m: Machine, es: seq<Event>, why: Outcome)
    requires Inv(m)
    ensures Run(m, es) == Broke(why) <==> exists k: nat :: FlawAt(m, es, k, why)
  {
    hide Inv, FlawAt;
    if Run(m, es) == Broke(why) {
      var k := FindsFlaw(m, es);
    }
    if k: nat :| FlawAt(m, es, k, why) {
      EndsInFlaw(m, es, k, why);
    }
  }

  /** A key is followed by its value. */
  predicate Valued(es: seq<Event>) {
    forall i :: 0 <= i < |es| - 1 && es[i].OnMapKey? ==> !es[i + 1].OnEndMap?
  }

  /** Unless "$dbPointer" has just been read, a reader about to append a DBPointer has its document. */
  predicate Ready(m: Machine, afterKey: bool) {
    Shaped(m) && (m.rs == DbPointerStartMap && !afterKey ==> Holds(m, m.s.n + 1))
  }

  /** Only a key or a closing brace leads to where a DBPointer is appended. */
  lemma NoPointer(m: Machine, e: Event)
    requires Inv(m) && Enabled(m, e) && !e.OnEndMap? && !e.OnMapKey?
    ensures Step(m, e).Next? && Step(m, e).m.rs != DbPointerStartMap
  {
    OwnsShaped(m);
    hide SlotsOwned, StartMap, StartArray, EndArray, Str, Scalar;
  }

  /** Closing a frame leads there only from a DBPointer frame, which stays in the slot above. */
  lemma CloseReady(m: Machine, fails: bool)
    requires Owns(m) && m.rs == Regular && m.s.n >= 0
    ensures Ready(CloseFrame(m, fails), false)
    ensures Top(m) != DbPointerFrame ==> CloseFrame(m, fails).rs != DbPointerStartMap
  {
  }

  lemma OpenReady(m: Machine, t: Tag, fails: bool)
    requires Owns(m) && m.rs == Regular && (t == DocFrame || (t == ScopeFrame && m.s.n >= 0))
    ensures OpenAndClose(m, t, fails).rs != DbPointerStartMap
  {
    OwnsShaped(m);
    PushOwns(m, t);
    hide CloseFrame, SlotsOwned, Push;
    if Push(m, t).Some? {
      CloseReady(if t == ScopeFrame then Push(m, t).value.(inScope := true) else Push(m, t).value, fails);
    }
  }

  lemma EndReady(m: Machine, fails: bool)
    requires Inv(m) && Opened(m) && Ready(m, false)
    ensures EndMap(m, fails) != PointerMissing
    ensures EndMap(m, fails).Next? ==> Ready(EndMap(m, fails).m, false)
  {
    hide SlotsOwned, CloseFrame, OpenAndClose, Push;
    EndMapKeeps(m, fails);
    OwnsShaped(m);
    if EndMap(m, fails).Next? { OwnsShaped(EndMap(m, fails).m); }
    match m.rs
    case Regular => CloseReady(m, fails);
    case InStartMap => OpenReady(m.(rs := Regular), DocFrame, fails);
    case ScopeStartMap => OpenReady(m.(rs := Regular), ScopeFrame, fails);
    case _ =>
  }

  lemma StepReady(m: Machine, e: Event, afterKey: bool)
    requires Inv(m) && Enabled(m, e) && Ready(m, afterKey) && (afterKey ==> !e.OnEndMap?)
    ensures Step(m, e) != PointerMissing
    ensures Step(m, e).Next? ==> Ready(Step(m, e).m, e.OnMapKey?)
  {
    StepKeeps(m, e);
    hide SlotsOwned, StartMap, MapKey, EndMap, StartArray, EndArray, Str, Scalar, CloseFrame;
    if e.OnEndMap? {
      EndReady(m, e.fails);
    } else if !e.OnMapKey? {
      NoPointer(m, e);
    }
  }

  /** When every key is followed by its value, a DBPointer that is appended has a document, at any depth. */
  lemma {:induction false} PointersReady(m: Machine, es: seq<Event>, afterKey: bool)
    requires Inv(m) && Ready(m, afterKey) && Valued(es) && (afterKey && es != [] ==> !es[0].OnEndMap?)
    ensures Run(m, es) != Broke(PointerMissing)
    decreases es
  {
    hide Inv, Enabled, Step, Ready;
    if es != [] && Enabled(m, es[0]) {
      StepReady(m, es[0], afterKey);
      StepKeeps(m, es[0]);
      if Step(m, es[0]).Next? {
        assert forall i :: 0 <= i < |es[1..]| ==> es[1..][i] == es[i + 1];
        PointersReady(Step(m, es[0]).m, es[1..], es[0].OnMapKey?);
      }
    }
  }

  /** The run gets through, and the stack is never shorter than it is with slot `low` on top. */
  predicate StaysAbove(m: Machine, es: seq<Event>, low: nat)
    requires Inv(m)
    decreases es
  {
    m.s.n >= low &&
    if es == [] then true
    else
      Enabled(m, es[0]) && Step(m, es[0]).Next? &&
      (StepKeeps(m, es[0]); StaysAbove(Step(m, es[0]).m, es[1..], low))
  }

  lemma StepAbove(m: Machine, e: Event, low: nat)
    requires Inv(m) && Enabled(m, e) && Step(m, e).Next? && m.s.n >= low && Step(m, e).m.s.n >= low
    ensures Step(m, e).m.s.tags[low] == m.s.tags[low]
  {
    OwnsShaped(m);
    StepKeeps(m, e);
    hide SlotsOwned, StartMap, MapKey, EndMap, StartArray, EndArray, Str, Scalar;
    assert Moved(m.s, Step(m, e).m.s);
  }

  lemma {:induction false} ScopeSurvives(m: Machine, es: seq<Event>, low: nat)
    requires Inv(m) && StaysAbove(m, es, low)
    ensures Run(m, es).Reached? && Run(m, es).m.s.n >= low && Run(m, es).m.s.tags[low] == m.s.tags[low]
    decreases es
  {
    hide Step, Enabled;
    if es != [] {
      StepKeeps(m, es[0]);
      assert StaysAbove(Step(m, es[0]).m, es[1..], low);
      StepAbove(m, es[0], low);
      ScopeSurvives(Step(m, es[0]).m, es[1..], low);
    }
  }

  /** A code value whose scope is in the slot above the top. */
  predicate ScopeReady(m: Machine) {
    Shaped(m) && m.s.n >= 0 && m.rs == InBsonType && m.bt == CodeType && !m.inScope && Holds(m, m.s.n + 1)
  }

  /** Whatever a scope contains, once its brace is closed its document is in the slot above the top. */
  lemma ScopeThenAppend(m: Machine, es: seq<Event>, fails: bool)
    requires Inv(m) && m.s.n >= 0 && Top(m) == ScopeFrame && StaysAbove(m, es, m.s.n)
    requires Run(m, es).Reached? && Run(m, es).m.s.n == m.s.n && Run(m, es).m.rs == Regular
    ensures var closed := EndMap(Run(m, es).m, fails);
            closed.Next? && closed.m.s.n + 1 == m.s.n && Inv(closed.m) && ScopeReady(closed.m)
  {
    ScopeSurvives(m, es, m.s.n);
    ScopeCloses(Run(m, es).m, fails);
  }

  lemma ScopeCloses(m: Machine, fails: bool)
    requires Inv(m) && m.rs == Regular && m.s.n >= 0 && Top(m) == ScopeFrame
    ensures EndMap(m, fails).Next? && Inv(EndMap(m, fails).m)
    ensures EndMap(m, fails).m.s.n + 1 == m.s.n && ScopeReady(EndMap(m, fails).m)
  {
    hide SlotsOwned;
    OwnsShaped(m);
    EndMapKeeps(m, fails);
    SlotHolds(m);
  }

  /** A frame that has a document of its own on top. */
  lemma SlotHolds(m: Machine)
    requires Owns(m) && m.s.n >= 0 && HasBson(Top(m))
    ensures m.s.owned[m.s.n]
  {
  }

  /** Then the code value is appended with it: at once, or after a "$code" key and its text. */
  lemma AppendsCode(m: Machine, fails: bool, query: bool)
    requires ScopeReady(m) && m.hasKey
    ensures EndMap(m, fails).Next?
    ensures ScopeReady(Str(MapKey(m, KCode), false, fails, query))
    ensures EndMap(Str(MapKey(m, KCode), false, fails, query), fails).Next?
  {
    var keyed := MapKey(m, KCode);
    assert keyed == m.(lf := LfCode, hasCode := true);
    assert Str(keyed, false, fails, query) == keyed;
  }

  lemma OpensEnabled(m: Machine, e: Event)
    requires Opened(m) || Opens(e)
    ensures Enabled(m, e)
  {
  }

  lemma FreshHolds()
    ensures Inv(FRESH)
  {
  }
}
