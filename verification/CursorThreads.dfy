/** The cursor used by any number of threads: every interleaving of next, tryNext, toArray and kill. */
module CursorThreads {
  import opened Basics
  import opened Cursor

  /**
   * Where a thread is. Waiting threads have not got the lock yet; PollCheck, PollCall and Collecting hold it;
   * KillWait has stored isClosing and waits for the lock; KillClear has closed the cursor and has not yet
   * cleared isClosing.
   */
  datatype Phase =
    | Idle | NextWait | PollCheck | PollCall | TryWait | ArrayWait | Collecting(found: seq<Doc>) | KillWait | KillClear

  /**
   * A call that has finished, in the order in which the lock was held. `found` are the documents toArray has collected,
   * which it returns unless it throws, or the cached document that kill throws away.
   */
  datatype Entry =
    | NextDone(r: Result) | TryDone(r: Result) | ArrayDone(found: seq<Doc>, thrown: Option<Error>)
    | KillDone(found: seq<Doc>)

  /** The error a call has thrown. */
  function Thrown(entry: Entry): Option<Error> {
    match entry
    case NextDone(r) => if r.Threw? then Some(r.error) else None
    case TryDone(r) => if r.Threw? then Some(r.error) else None
    case ArrayDone(_, thrown) => thrown
    case KillDone(_) => None
  }

  /** How far the calls have got with an error: none surfaced, one surfaced, or also followed by its nil. */
  datatype Epoch = Live | AfterError | Over | Illegal

  /** A kill counts for nothing here. */
  function NextEpoch(e: Epoch, entry: Entry): Epoch {
    if entry.KillDone? then e
    else
      match e
      case Live => if Thrown(entry) == Some(ServerError) then AfterError else Live
      case AfterError =>
        if entry == NextDone(Nothing) then Over
        else if Thrown(entry) == Some(ClosedCursor) && !entry.NextDone? then AfterError
        else Illegal
      case Over => if Thrown(entry) == Some(ClosedCursor) then Over else Illegal
      case Illegal => Illegal
  }

  function EpochOf(log: seq<Entry>): Epoch {
    if log == [] then Live else NextEpoch(EpochOf(log[..|log| - 1]), log[|log| - 1])
  }

  /**
   * `destroys` counts destroy calls; `late` counts the server calls of the current poll made while closing;
   * `epoch` sums up the log; `taken` are the answers libmongoc has given.
   */
  datatype World = World(state: State, cached: Cache, isClosing: bool, holder: Option<nat>, phases: seq<Phase>,
                         destroys: nat, late: nat, log: seq<Entry>, epoch: Epoch, taken: seq<Response>,
                         tailable: bool)

  predicate Holds(p: Phase) { p == PollCheck || p == PollCall || p.Collecting? }

  /** A cursor as its initializer leaves it. */
  function Init(state: State, cached: Cache, threads: nat, tailable: bool): World {
    World(state, cached, false, None, seq(threads, _ => Idle), if state == Open then 0 else 1, 0, [], Live, [],
          tailable)
  }

  datatype Move =
    | Begin(phase: Phase)
    | TakeLock(response: Response, active: bool)
    | Check
    | Call(response: Response, active: bool)
    | Clear

  function SetPhase(w: World, t: nat, p: Phase): World
    requires t < |w.phases|
  {
    w.(phases := w.phases[t := p])
  }

  /** The lock is released and the call is logged. */
  function Finish(w: World, t: nat, e: Entry): World
    requires t < |w.phases|
  {
    SetPhase(w, t, Idle).(holder := None, log := w.log + [e], epoch := NextEpoch(w.epoch, e))
  }

  /** getNextDocument, with the destroy call a closing answer brings about. */
  function Fetch(w: World, response: Response, active: bool): (World, Result) {
    if w.state == Open && !active then (w, Threw(SessionInactive))
    else
      var (state, r) := Advance(w.state, response, w.tailable);
      (w.(state := state, destroys := w.destroys + (if w.state == Open && state != Open then 1 else 0),
          taken := w.taken + if w.state == Open then [response] else []), r)
  }

  /** next() once it has the lock, up to its polling loop. */
  function EnterNext(w: World, t: nat): World
    requires t < |w.phases|
  {
    if !Alive(w.state, w.cached) then
      if w.state == Errored then Finish(w.(state := Closed), t, NextDone(Nothing))
      else Finish(w, t, NextDone(Threw(ClosedCursor)))
    else
      var taken := w.(cached := None);
      if w.cached.Some? && (w.state != Open || w.cached.value.Some?) then
        Finish(taken, t, NextDone(if w.cached.value.Some? then Got(w.cached.value.value) else Nothing))
      else SetPhase(taken, t, PollCheck).(holder := Some(t), late := 0)
  }

  function EnterTry(w: World, t: nat, response: Response, active: bool): World
    requires t < |w.phases|
  {
    var taken := w.(cached := None);
    if w.cached.Some? then
      Finish(taken, t, TryDone(if w.cached.value.Some? then Got(w.cached.value.value) else Nothing))
    else
      var (after, r) := Fetch(taken, response, active);
      Finish(after, t, TryDone(r))
  }

  function EnterArray(w: World, t: nat): World
    requires t < |w.phases|
  {
    if !Alive(w.state, w.cached) then Finish(w, t, ArrayDone([], Some(ClosedCursor)))
    else if w.state != Open then Finish(w.(cached := None), t, ArrayDone(CachedDocs(w.cached), None))
    else SetPhase(w.(cached := None), t, Collecting(CachedDocs(w.cached))).(holder := Some(t))
  }

  /** kill() once it has the lock: clear the cache, close, release. */
  function EnterKill(w: World, t: nat): World
    requires t < |w.phases|
  {
    var e := KillDone(CachedDocs(w.cached));
    SetPhase(w, t, KillClear).(cached := None, state := if w.state == Open then Closed else w.state,
                               destroys := w.destroys + (if w.state == Open then 1 else 0),
                               log := w.log + [e], epoch := NextEpoch(w.epoch, e))
  }

  /** One step of thread t; None when the move is not possible. */
  function Step(w: World, t: nat, m: Move): Option<World>
    requires t < |w.phases|
  {
    var p := w.phases[t];
    match m
    case Begin(phase) =>
      if p != Idle then None
      else if phase == KillWait then Some(SetPhase(w, t, KillWait).(isClosing := true))
      else if phase == NextWait || phase == TryWait || phase == ArrayWait then Some(SetPhase(w, t, phase))
      else None
    case TakeLock(response, active) =>
      if w.holder.Some? then None
      else if p == NextWait then Some(EnterNext(w, t))
      else if p == TryWait then Some(EnterTry(w, t, response, active))
      else if p == ArrayWait then Some(EnterArray(w, t))
      else if p == KillWait then Some(EnterKill(w, t))
      else None
    case Check =>
      if p != PollCheck then None
      else if Alive(w.state, w.cached) && !w.isClosing then Some(SetPhase(w, t, PollCall))
      else Some(Finish(w, t, NextDone(Nothing)))
    case Call(response, active) =>
      var (after, r) := Fetch(w, response, active);
      if p == PollCall then
        var counted := after.(late := w.late + if w.isClosing then 1 else 0);
        if r == Nothing then Some(SetPhase(counted, t, PollCheck)) else Some(Finish(counted, t, NextDone(r)))
      else if p.Collecting? then
        match r
        case Got(doc) => Some(SetPhase(after, t, Collecting(p.found + [doc])))
        case Nothing => Some(Finish(after, t, ArrayDone(p.found, None)))
        case Threw(error) => Some(Finish(after, t, ArrayDone(p.found, Some(error))))
      else None
    case Clear => if p == KillClear then Some(SetPhase(w, t, Idle).(isClosing := false)) else None
  }

  /** At most one thread holds the lock, and it is the one that says so. */
  predicate Locked(w: World) {
    && (w.holder.Some? ==> w.holder.value < |w.phases| && Holds(w.phases[w.holder.value]))
    && (forall t :: 0 <= t < |w.phases| && Holds(w.phases[t]) ==> w.holder == Some(t))
  }

  /**
   * A thread that has closed the cursor has not cleared the flag yet: then the cursor is not open. While it is open,
   * the flag is set exactly when some kill waits for the lock.
   */
  predicate Flagged(w: World) {
    && (forall t :: 0 <= t < |w.phases| && w.phases[t] == KillClear ==> w.state != Open)
    && (w.state == Open ==> (w.isClosing <==> exists t :: 0 <= t < |w.phases| && w.phases[t] == KillWait))
  }

  /** What is known about the thread that holds the lock, given where it is. */
  predicate HolderKnows(w: World, p: Phase) {
    && w.cached == None && w.epoch == Live
    && (p == PollCall || p.Collecting? ==> w.state == Open)
    && (p == PollCall ==> w.late == 0)
    && (p == PollCheck ==> w.late == 1 && w.state == Open ==> w.isClosing)
  }

  predicate Holding(w: World) {
    w.holder.Some? && w.holder.value < |w.phases| ==> HolderKnows(w, w.phases[w.holder.value])
  }

  /** The cursor's own state, whoever is running. */
  predicate Sound(w: World) {
    && w.destroys == (if w.state == Open then 0 else 1)
    && Coherent(w.state, w.cached) && w.late <= 1
    && (w.epoch == AfterError <==> w.state == Errored)
    && w.epoch != Illegal
    && (w.epoch == Over ==> w.state == Closed && w.cached == None)
    && (w.state == Errored ==> w.cached == None)
  }

  predicate Logged(w: World) { w.epoch == EpochOf(w.log) }

  predicate Inv(w: World) {
    Sound(w) && Locked(w) && Flagged(w) && Holding(w)
  }

  lemma LogEpoch(log: seq<Entry>, e: Entry)
    ensures EpochOf(log + [e]) == NextEpoch(EpochOf(log), e)
  {
    assert (log + [e])[..|log|] == log;
  }

  /** Other threads' phases are untouched by a step of thread t. */
  predicate OnlyMoves(w: World, after: World, t: nat) {
    && |after.phases| == |w.phases| && t < |w.phases|
    && (forall u :: 0 <= u < |w.phases| && u != t ==> after.phases[u] == w.phases[u])
  }

  /** A thread that had the lock, or takes it while it is free, and lets it go. */
  lemma Releases(w: World, after: World, t: nat)
    requires Inv(w) && OnlyMoves(w, after, t) && (w.holder == None || w.holder == Some(t))
    requires after.holder == None && (after.phases[t] == Idle || (after.phases[t] == KillClear && after.state != Open))
    requires after.state == Open ==> w.state == Open && w.phases[t] != KillWait
    requires after.isClosing == w.isClosing
    ensures Locked(after) && Flagged(after) && Holding(after)
  {
  }

  /** A thread that has the lock, or takes it while it is free, and keeps it. */
  lemma Keeps(w: World, after: World, t: nat)
    requires Inv(w) && OnlyMoves(w, after, t) && (w.holder == None || w.holder == Some(t))
    requires after.holder == Some(t) && Holds(after.phases[t]) && HolderKnows(after, after.phases[t])
    requires after.state == Open ==> w.state == Open && w.phases[t] != KillWait
    requires after.isClosing == w.isClosing
    ensures Locked(after) && Flagged(after) && Holding(after)
  {
  }

  lemma Moves(w: World, after: World, t: nat, p: Phase)
    requires t < |w.phases| && after.phases == w.phases[t := p]
    ensures OnlyMoves(w, after, t) && after.phases[t] == p
  {
  }

  /** A step that ends with the lock held by t, or free. */
  lemma Lands(w: World, after: World, t: nat, p: Phase)
    requires Inv(w) && t < |w.phases| && after.phases == w.phases[t := p]
    requires w.holder == None || w.holder == Some(t)
    requires after.isClosing == w.isClosing && Sound(after)
    requires after.state == Open ==> w.state == Open && w.phases[t] != KillWait
    requires || (after.holder == None && (p == Idle || (p == KillClear && after.state != Open)))
             || (after.holder == Some(t) && Holds(p) && HolderKnows(after, p))
    ensures Inv(after)
  {
    Moves(w, after, t, p);
    hide OnlyMoves, Sound, Locked, Flagged, Holding, HolderKnows;
    if after.holder.Some? { Keeps(w, after, t); } else { Releases(w, after, t); }
  }

  lemma NextEnters(w: World, t: nat)
    requires Inv(w) && t < |w.phases| && w.holder == None && w.phases[t] == NextWait
    ensures Inv(EnterNext(w, t))
  {
    hide Locked, Flagged, Holding;
    var after := EnterNext(w, t);
    Lands(w, after, t, after.phases[t]);
  }

  lemma TryEnters(w: World, t: nat, response: Response, active: bool)
    requires Inv(w) && t < |w.phases| && w.holder == None && w.phases[t] == TryWait
    ensures Inv(EnterTry(w, t, response, active))
  {
    hide Locked, Flagged, Holding;
    Lands(w, EnterTry(w, t, response, active), t, Idle);
  }

  lemma ArrayEnters(w: World, t: nat)
    requires Inv(w) && t < |w.phases| && w.holder == None && w.phases[t] == ArrayWait
    ensures Inv(EnterArray(w, t))
  {
    hide Locked, Flagged, Holding;
    var after := EnterArray(w, t);
    Lands(w, after, t, after.phases[t]);
  }

  lemma KillEnters(w: World, t: nat)
    requires Inv(w) && t < |w.phases| && w.holder == None
    ensures Inv(EnterKill(w, t))
  {
    hide Locked, Flagged, Holding;
    Lands(w, EnterKill(w, t), t, KillClear);
  }

  /** A thread at its loop has the lock. */
  lemma IsHolder(w: World, t: nat)
    requires Inv(w) && t < |w.phases| && Holds(w.phases[t])
    ensures w.holder == Some(t) && HolderKnows(w, w.phases[t])
  {
  }

  lemma Checks(w: World, t: nat)
    requires Inv(w) && t < |w.phases| && w.phases[t] == PollCheck
    ensures Step(w, t, Check).Some? && Inv(Step(w, t, Check).value)
  {
    IsHolder(w, t);
    hide Locked, Flagged, Holding;
    var after := Step(w, t, Check).value;
    Lands(w, after, t, after.phases[t]);
  }

  lemma Calls(w: World, t: nat, response: Response, active: bool)
    requires Inv(w) && t < |w.phases| && Step(w, t, Call(response, active)).Some?
    ensures Inv(Step(w, t, Call(response, active)).value)
    ensures w.state == Open
  {
    IsHolder(w, t);
    hide Locked, Flagged, Holding;
    var after := Step(w, t, Call(response, active)).value;
    Lands(w, after, t, after.phases[t]);
  }

  lemma Begins(w: World, t: nat, p: Phase)
    requires Inv(w) && t < |w.phases| && Step(w, t, Begin(p)).Some?
    ensures Inv(Step(w, t, Begin(p)).value)
  {
    var after := Step(w, t, Begin(p)).value;
    Moves(w, after, t, p);
    if p == KillWait {
      assert after.phases[t] == KillWait;
    } else {
      assert forall u :: 0 <= u < |w.phases| ==> (after.phases[u] == KillWait <==> w.phases[u] == KillWait);
    }
  }

  lemma Clears(w: World, t: nat)
    requires Inv(w) && t < |w.phases| && Step(w, t, Clear).Some?
    ensures Inv(Step(w, t, Clear).value)
  {
  }

  /** Every step of every thread keeps the invariant. */
  lemma StepKeeps(w: World, t: nat, m: Move)
    requires Inv(w) && t < |w.phases| && Step(w, t, m).Some?
    ensures Inv(Step(w, t, m).value)
  {
    hide Inv, EnterNext, EnterTry, EnterArray, EnterKill;
    match m
    case Begin(p) => Begins(w, t, p);
    case TakeLock(response, active) => TakesLock(w, t, response, active);
    case Check => Checks(w, t);
    case Call(response, active) => Calls(w, t, response, active);
    case Clear => Clears(w, t);
  }

  lemma TakesLock(w: World, t: nat, response: Response, active: bool)
    requires Inv(w) && t < |w.phases| && Step(w, t, TakeLock(response, active)).Some?
    ensures Inv(Step(w, t, TakeLock(response, active)).value)
  {
    hide Inv, EnterNext, EnterTry, EnterArray, EnterKill;
    match w.phases[t]
    case NextWait => NextEnters(w, t);
    case TryWait => TryEnters(w, t, response, active);
    case ArrayWait => ArrayEnters(w, t);
    case KillWait => KillEnters(w, t);
    case _ =>
  }

  /** A step logs one finished call or none. */
  predicate Appends(w: World, after: World) {
    || (after.log == w.log && after.epoch == w.epoch)
    || (|after.log| == |w.log| + 1 && after.log == w.log + [after.log[|w.log|]]
        && after.epoch == NextEpoch(w.epoch, after.log[|w.log|]))
  }

  lemma LockAppends(w: World, t: nat, response: Response, active: bool)
    requires t < |w.phases|
    ensures Appends(w, EnterNext(w, t)) && Appends(w, EnterTry(w, t, response, active))
    ensures Appends(w, EnterArray(w, t)) && Appends(w, EnterKill(w, t))
  {
    hide NextEpoch;
  }

  lemma StepAppends(w: World, t: nat, m: Move)
    requires t < |w.phases| && Step(w, t, m).Some?
    ensures Appends(w, Step(w, t, m).value)
  {
    hide NextEpoch, EnterNext, EnterTry, EnterArray, EnterKill;
    if m.TakeLock? { LockAppends(w, t, m.response, m.active); }
  }

  /** The epoch of every step's log is the one the step computes. */
  lemma StepLogs(w: World, t: nat, m: Move)
    requires Logged(w) && t < |w.phases| && Step(w, t, m).Some?
    ensures Logged(Step(w, t, m).value)
  {
    hide Step;
    StepAppends(w, t, m);
    var after := Step(w, t, m).value;
    if after.log != w.log { LogEpoch(w.log, after.log[|w.log|]); }
  }

  /** The documents that leave the cursor with a call, whether it returns them or not. */
  function Handed(e: Entry): seq<Doc> {
    match e
    case NextDone(r) => if r.Got? then [r.doc] else []
    case TryDone(r) => if r.Got? then [r.doc] else []
    case ArrayDone(found, _) => found
    case KillDone(found) => found
  }

  /** A kill drops the cached document, and a toArray that throws what it has collected. */
  predicate Drops(e: Entry) {
    Handed(e) != [] && (e.KillDone? || (e.ArrayDone? && e.thrown.Some?))
  }

  /** All documents that have left the cursor. */
  function Passed(log: seq<Entry>): seq<Doc> {
    if log == [] then [] else Passed(log[..|log| - 1]) + Handed(log[|log| - 1])
  }

  /** Those that callers have got. */
  function Returned(log: seq<Entry>): seq<Doc> {
    if log == [] then []
    else Returned(log[..|log| - 1]) + if Drops(log[|log| - 1]) then [] else Handed(log[|log| - 1])
  }

  /** What the thread that holds the lock has collected so far. */
  function Collected(w: World): seq<Doc> {
    if w.holder.Some? && w.holder.value < |w.phases| && w.phases[w.holder.value].Collecting?
    then w.phases[w.holder.value].found else []
  }

  /** The documents among the answers. */
  function DocsIn(taken: seq<Response>): seq<Doc> {
    if taken == [] then []
    else DocsIn(taken[..|taken| - 1]) + if taken[|taken| - 1].Produced? then [taken[|taken| - 1].doc] else []
  }

  /**
   * What has left the cursor, then what is being collected, then what is cached, is what libmongoc has produced, the
   * documents `first` before anybody used the cursor.
   */
  predicate Conserved(w: World, first: seq<Doc>) {
    Passed(w.log) + Collected(w) + CachedDocs(w.cached) == first + DocsIn(w.taken)
  }

  lemma DocsSnoc(taken: seq<Response>, response: Response)
    ensures DocsIn(taken + [response]) == DocsIn(taken) + if response.Produced? then [response.doc] else []
  {
    assert (taken + [response])[..|taken|] == taken;
  }

  lemma PassedSnoc(log: seq<Entry>, e: Entry)
    ensures Passed(log + [e]) == Passed(log) + Handed(e)
  {
    assert (log + [e])[..|log|] == log;
  }

  /** A call that ends takes everything with it. */
  lemma EndConserves(w: World, after: World, first: seq<Doc>, e: Entry, made: seq<Doc>)
    requires Conserved(w, first) && after.log == w.log + [e] && DocsIn(after.taken) == DocsIn(w.taken) + made
    requires Handed(e) == Collected(w) + CachedDocs(w.cached) + made
    requires Collected(after) == [] && after.cached == None
    ensures Conserved(after, first)
  {
    hide Passed, Collected, Handed, DocsIn;
    PassedSnoc(w.log, e);
    var left, before := Passed(w.log), Collected(w) + CachedDocs(w.cached);
    assert left + Collected(w) + CachedDocs(w.cached) == left + before;
    assert Passed(after.log) + [] + [] == left + before + made;
  }

  /** One that goes on keeps it. */
  lemma Continues(w: World, after: World, first: seq<Doc>, made: seq<Doc>)
    requires Conserved(w, first) && after.log == w.log && DocsIn(after.taken) == DocsIn(w.taken) + made
    requires Collected(after) + CachedDocs(after.cached) == Collected(w) + CachedDocs(w.cached) + made
    ensures Conserved(after, first)
  {
    hide Passed, Collected, CachedDocs, DocsIn;
    var left, before := Passed(w.log), Collected(w) + CachedDocs(w.cached);
    var kept := Collected(after) + CachedDocs(after.cached);
    assert left + Collected(w) + CachedDocs(w.cached) == left + before;
    assert left + Collected(after) + CachedDocs(after.cached) == left + kept == (left + before) + made;
  }

  /** The documents an attempt to advance adds. */
  lemma Fetched(w: World, response: Response, active: bool)
    ensures var (after, r) := Fetch(w, response, active);
            DocsIn(after.taken) == DocsIn(w.taken) + if r.Got? then [r.doc] else []
  {
    hide DocsIn;
    DocsSnoc(w.taken, response);
    assert w.taken + [] == w.taken && DocsIn(w.taken) + [] == DocsIn(w.taken);
  }

  lemma NextConserves(w: World, first: seq<Doc>, t: nat)
    requires Conserved(w, first) && Coherent(w.state, w.cached) && t < |w.phases| && w.holder == None
    ensures Conserved(EnterNext(w, t), first)
  {
    hide NextEpoch, Passed, DocsIn, Conserved;
    var after := EnterNext(w, t);
    if after.log == w.log {
      Continues(w, after, first, []);
    } else if !Alive(w.state, w.cached) {
      EndConserves(w, after, first, NextDone(if w.state == Errored then Nothing else Threw(ClosedCursor)), []);
    } else {
      EndConserves(w, after, first, NextDone(if w.cached.value.Some? then Got(w.cached.value.value) else Nothing), []);
    }
  }

  lemma TryConserves(w: World, first: seq<Doc>, t: nat, response: Response, active: bool)
    requires Conserved(w, first) && t < |w.phases| && w.holder == None
    ensures Conserved(EnterTry(w, t, response, active), first)
  {
    hide NextEpoch, Passed, DocsIn, Conserved;
    var after := EnterTry(w, t, response, active);
    if w.cached.Some? {
      EndConserves(w, after, first, TryDone(if w.cached.value.Some? then Got(w.cached.value.value) else Nothing), []);
    } else {
      var r := Fetch(w.(cached := None), response, active).1;
      Fetched(w.(cached := None), response, active);
      EndConserves(w, after, first, TryDone(r), if r.Got? then [r.doc] else []);
    }
  }

  lemma ArrayConserves(w: World, first: seq<Doc>, t: nat)
    requires Conserved(w, first) && t < |w.phases| && w.holder == None
    ensures Conserved(EnterArray(w, t), first)
  {
    hide NextEpoch, Passed, DocsIn, Conserved;
    var after := EnterArray(w, t);
    if after.log == w.log {
      Continues(w, after, first, []);
    } else if !Alive(w.state, w.cached) {
      EndConserves(w, after, first, ArrayDone([], Some(ClosedCursor)), []);
    } else {
      EndConserves(w, after, first, ArrayDone(CachedDocs(w.cached), None), []);
    }
  }

  lemma KillConserves(w: World, first: seq<Doc>, t: nat)
    requires Conserved(w, first) && t < |w.phases| && w.holder == None
    ensures Conserved(EnterKill(w, t), first)
  {
    hide NextEpoch, Passed, DocsIn, Conserved;
    EndConserves(w, EnterKill(w, t), first, KillDone(CachedDocs(w.cached)), []);
  }

  /** What the thread that polls does when it looks, and with an answer. */
  lemma PollStepped(w: World, t: nat, m: Move)
    requires t < |w.phases| && Step(w, t, m).Some? && (m.Check? || m.Call?) && !w.phases[t].Collecting?
    requires w.holder == Some(t)
    ensures var after := Step(w, t, m).value;
            var (fetched, r) := if m.Call? then Fetch(w, m.response, m.active) else (w, Nothing);
            && after.taken == fetched.taken && after.cached == w.cached && Collected(after) == Collected(w) == []
            && (after.log == w.log || after.log == w.log + [NextDone(r)]) && (r != Nothing ==> after.log != w.log)
  {
    hide Fetch, EnterNext, EnterTry, EnterArray, EnterKill, NextEpoch;
    if m.Call? { FetchKeeps(w, m.response, m.active); }
  }

  /** A step of the thread that polls. */
  lemma PollConserves(w: World, first: seq<Doc>, t: nat, m: Move)
    requires Inv(w) && Conserved(w, first) && t < |w.phases| && Step(w, t, m).Some? && (m.Check? || m.Call?)
    requires !w.phases[t].Collecting?
    ensures Conserved(Step(w, t, m).value, first)
  {
    IsHolder(w, t);
    hide Step, DocsIn, Conserved, Inv, Fetch, CachedDocs, Collected;
    PollStepped(w, t, m);
    NoneCached();
    var after := Step(w, t, m).value;
    var r := if m.Call? then Fetch(w, m.response, m.active).1 else Nothing;
    var made := if r.Got? then [r.doc] else [];
    if m.Call? { Fetched(w, m.response, m.active); }
    assert DocsIn(w.taken) + [] == DocsIn(w.taken);
    if after.log == w.log {
      Continues(w, after, first, made);
    } else {
      EndConserves(w, after, first, NextDone(r), made);
    }
  }

  /** What the thread that collects does with an answer. */
  lemma CollectStep(w: World, t: nat, m: Move)
    requires t < |w.phases| && Step(w, t, m).Some? && w.phases[t].Collecting? && w.holder == Some(t)
    ensures m.Call?
    ensures var after, (fetched, r) := Step(w, t, m).value, Fetch(w, m.response, m.active);
            && after.taken == fetched.taken && after.cached == w.cached
            && match r
               case Got(doc) => after.log == w.log && Collected(after) == Collected(w) + [doc]
               case Nothing => after.log == w.log + [ArrayDone(Collected(w), None)] && Collected(after) == []
               case Threw(error) =>
                 after.log == w.log + [ArrayDone(Collected(w), Some(error))] && Collected(after) == []
  {
    hide Fetch, EnterNext, EnterTry, EnterArray, EnterKill, NextEpoch;
    if m.Call? { FetchKeeps(w, m.response, m.active); }
  }

  /** A step of the thread that collects. */
  lemma CollectConserves(w: World, first: seq<Doc>, t: nat, m: Move)
    requires Inv(w) && Conserved(w, first) && t < |w.phases| && Step(w, t, m).Some? && w.phases[t].Collecting?
    ensures Conserved(Step(w, t, m).value, first)
  {
    IsHolder(w, t);
    hide Step, DocsIn, Conserved, Inv, Fetch, CachedDocs, Collected;
    CollectStep(w, t, m);
    Fetched(w, m.response, m.active);
    NoneCached();
    var after, found := Step(w, t, m).value, Collected(w);
    match Fetch(w, m.response, m.active).1
    case Got(doc) => Continues(w, after, first, [doc]);
    case Nothing => EndConserves(w, after, first, ArrayDone(found, None), []);
    case Threw(error) => EndConserves(w, after, first, ArrayDone(found, Some(error)), []);
  }

  lemma NoneCached()
    ensures CachedDocs(None) == []
  {
  }

  lemma FetchKeeps(w: World, response: Response, active: bool)
    ensures var after := Fetch(w, response, active).0;
            after.phases == w.phases && after.holder == w.holder && after.log == w.log && after.cached == w.cached
  {
  }

  lemma LockConserves(w: World, first: seq<Doc>, t: nat, response: Response, active: bool)
    requires Inv(w) && Conserved(w, first) && t < |w.phases| && Step(w, t, TakeLock(response, active)).Some?
    ensures Conserved(Step(w, t, TakeLock(response, active)).value, first)
  {
    hide DocsIn, Conserved, EnterNext, EnterTry, EnterArray, EnterKill, Locked, Flagged, Holding;
    NextConserves(w, first, t);
    TryConserves(w, first, t, response, active);
    ArrayConserves(w, first, t);
    KillConserves(w, first, t);
  }

  /** Steps of threads that do not hold the lock. */
  lemma WaitConserves(w: World, first: seq<Doc>, t: nat, m: Move)
    requires Inv(w) && Conserved(w, first) && t < |w.phases| && Step(w, t, m).Some? && (m.Begin? || m.Clear?)
    ensures Conserved(Step(w, t, m).value, first)
  {
    hide DocsIn, Conserved, EnterNext, EnterTry, EnterArray, EnterKill, Flagged, Holding, Sound, CachedDocs;
    Continues(w, Step(w, t, m).value, first, []);
  }

  /** No step of any thread loses, repeats or reorders a document. */
  lemma StepConserves(w: World, first: seq<Doc>, t: nat, m: Move)
    requires Inv(w) && Conserved(w, first) && t < |w.phases| && Step(w, t, m).Some?
    ensures Conserved(Step(w, t, m).value, first)
  {
    hide DocsIn, Conserved, Inv, EnterNext, EnterTry, EnterArray, EnterKill;
    match m
    case Begin(_) => WaitConserves(w, first, t, m);
    case TakeLock(response, active) => LockConserves(w, first, t, response, active);
    case Clear => WaitConserves(w, first, t, m);
    case _ => if w.phases[t].Collecting? { CollectConserves(w, first, t, m); } else { PollConserves(w, first, t, m); }
  }

  /** A kill has got the lock. */
  predicate Killed(log: seq<Entry>) { log != [] && (Killed(log[..|log| - 1]) || log[|log| - 1].KillDone?) }

  /** The cursor goes on after every answer. */
  predicate AllGoOn(taken: seq<Response>, tailable: bool) {
    taken == [] || (AllGoOn(taken[..|taken| - 1], tailable) && GoesOn(taken[|taken| - 1], tailable))
  }

  predicate SomeFailure(taken: seq<Response>) {
    taken != [] && (SomeFailure(taken[..|taken| - 1]) || taken[|taken| - 1].Failure?)
  }

  /**
   * Whether the cursor is open follows from how it began, the answers and the kills; whether an error has surfaced from
   * the answers alone.
   */
  predicate Lives(w: World, open: bool, tailable: bool) {
    && w.tailable == tailable
    && (w.state == Open <==> open && !Killed(w.log) && AllGoOn(w.taken, tailable))
    && (w.epoch == Live <==> !SomeFailure(w.taken))
  }

  lemma KilledSnoc(log: seq<Entry>, e: Entry)
    ensures Killed(log + [e]) <==> Killed(log) || e.KillDone?
  {
    assert (log + [e])[..|log|] == log;
  }

  lemma TakenSnoc(taken: seq<Response>, response: Response, tailable: bool)
    ensures AllGoOn(taken + [response], tailable) <==> AllGoOn(taken, tailable) && GoesOn(response, tailable)
    ensures SomeFailure(taken + [response]) <==> SomeFailure(taken) || response.Failure?
  {
    assert (taken + [response])[..|taken|] == taken;
  }

  /** A finished call that is no kill, with the answer it has taken, if any. */
  lemma CallLives(w: World, after: World, open: bool, e: Entry, answer: Option<Response>)
    requires Lives(w, open, w.tailable) && after.tailable == w.tailable && !e.KillDone?
    requires after.log == w.log + [e] || after.log == w.log
    requires answer == None ==> after.taken == w.taken && (after.state == Open <==> w.state == Open)
    requires answer.Some? ==> after.taken == w.taken + [answer.value] && w.state == Open
    requires answer.Some? ==> (after.state == Open <==> GoesOn(answer.value, w.tailable))
    requires after.epoch == Live <==> w.epoch == Live && !(answer.Some? && answer.value.Failure?)
    ensures Lives(after, open, w.tailable)
  {
    hide Killed, AllGoOn, SomeFailure;
    KilledSnoc(w.log, e);
    if answer.Some? { TakenSnoc(w.taken, answer.value, w.tailable); }
  }

  /** The answer an attempt to advance takes, if any. */
  function AnswerTaken(w: World, response: Response, active: bool): Option<Response> {
    if w.state == Open && active then Some(response) else None
  }

  lemma FetchLives(w: World, response: Response, active: bool)
    ensures var (after, r) := Fetch(w, response, active);
            var answer := AnswerTaken(w, response, active);
            && after.tailable == w.tailable && after.log == w.log && after.epoch == w.epoch
            && after.taken == w.taken + (if answer.Some? then [answer.value] else [])
            && (answer == None ==> after.state == w.state && r != Threw(ServerError))
            && (answer.Some? ==> (after.state == Open <==> GoesOn(response, w.tailable)))
            && (r == Threw(ServerError) <==> answer.Some? && response.Failure?)
  {
    assert w.taken + [] == w.taken;
  }

  lemma NextLives(w: World, open: bool, t: nat)
    requires Inv(w) && Lives(w, open, w.tailable) && t < |w.phases|
    ensures Lives(EnterNext(w, t), open, w.tailable)
  {
    hide Lives, Locked, Flagged, Holding;
    var after := EnterNext(w, t);
    var e := if after.log == w.log then NextDone(Nothing) else after.log[|w.log|];
    CallLives(w, after, open, e, None);
  }

  lemma ArrayLives(w: World, open: bool, t: nat)
    requires Inv(w) && Lives(w, open, w.tailable) && t < |w.phases|
    ensures Lives(EnterArray(w, t), open, w.tailable)
  {
    hide Lives, Locked, Flagged, Holding;
    var after := EnterArray(w, t);
    var e := if after.log == w.log then NextDone(Nothing) else after.log[|w.log|];
    CallLives(w, after, open, e, None);
  }

  lemma TryLives(w: World, open: bool, t: nat, response: Response, active: bool)
    requires Inv(w) && Lives(w, open, w.tailable) && t < |w.phases|
    ensures Lives(EnterTry(w, t, response, active), open, w.tailable)
  {
    hide Lives, Locked, Flagged, Holding, Fetch;
    var taken := w.(cached := None);
    FetchLives(taken, response, active);
    var after := EnterTry(w, t, response, active);
    CallLives(w, after, open, after.log[|w.log|], if w.cached.Some? then None else AnswerTaken(w, response, active));
  }

  lemma KillLives(w: World, open: bool, t: nat)
    requires Lives(w, open, w.tailable) && t < |w.phases|
    ensures Lives(EnterKill(w, t), open, w.tailable)
  {
    hide Killed, AllGoOn, SomeFailure;
    KilledSnoc(w.log, KillDone(CachedDocs(w.cached)));
  }

  lemma CallStepLives(w: World, open: bool, t: nat, response: Response, active: bool)
    requires Inv(w) && Lives(w, open, w.tailable) && t < |w.phases| && Step(w, t, Call(response, active)).Some?
    ensures Lives(Step(w, t, Call(response, active)).value, open, w.tailable)
  {
    IsHolder(w, t);
    hide Lives, Inv, Fetch, EnterNext, EnterTry, EnterArray, EnterKill;
    FetchLives(w, response, active);
    var after := Step(w, t, Call(response, active)).value;
    var e := if after.log == w.log then NextDone(Nothing) else after.log[|w.log|];
    CallLives(w, after, open, e, AnswerTaken(w, response, active));
  }

  lemma CheckLives(w: World, open: bool, t: nat)
    requires Inv(w) && Lives(w, open, w.tailable) && t < |w.phases| && w.phases[t] == PollCheck
    ensures Step(w, t, Check).Some? && Lives(Step(w, t, Check).value, open, w.tailable)
  {
    IsHolder(w, t);
    hide Lives, Inv;
    CallLives(w, Step(w, t, Check).value, open, NextDone(Nothing), None);
  }

  lemma WaitLives(w: World, open: bool, t: nat, m: Move)
    requires Lives(w, open, w.tailable) && t < |w.phases| && Step(w, t, m).Some? && (m.Begin? || m.Clear?)
    ensures Lives(Step(w, t, m).value, open, w.tailable)
  {
    hide Killed, AllGoOn, SomeFailure, EnterNext, EnterTry, EnterArray, EnterKill;
  }

  /** Every step of every thread keeps that. */
  lemma StepLives(w: World, open: bool, t: nat, m: Move)
    requires Inv(w) && Lives(w, open, w.tailable) && t < |w.phases| && Step(w, t, m).Some?
    ensures Lives(Step(w, t, m).value, open, w.tailable)
  {
    hide Lives, Inv, EnterNext, EnterTry, EnterArray, EnterKill;
    match m
    case TakeLock(response, active) =>
      NextLives(w, open, t);
      TryLives(w, open, t, response, active);
      ArrayLives(w, open, t);
      KillLives(w, open, t);
    case Call(response, active) => CallStepLives(w, open, t, response, active);
    case Check => CheckLives(w, open, t);
    case _ => WaitLives(w, open, t, m);
  }

  function Moved(w: World, t: nat, m: Move): World {
    if t < |w.phases| && Step(w, t, m).Some? then Step(w, t, m).value else w
  }

  /** Any schedule; impossible moves are skipped. */
  function Run(w: World, schedule: seq<(nat, Move)>): World
    decreases |schedule|
  {
    if schedule == [] then w
    else
      var (t, m) := schedule[0];
      Run(Moved(w, t, m), schedule[1..])
  }

  lemma {:induction false} RunKeeps(w: World, first: seq<Doc>, open: bool, schedule: seq<(nat, Move)>)
    requires Inv(w) && Logged(w) && Conserved(w, first) && Lives(w, open, w.tailable)
    ensures var after := Run(w, schedule);
            Inv(after) && Logged(after) && Conserved(after, first) && Lives(after, open, w.tailable)
    decreases |schedule|
  {
    hide Inv, Step, Logged, Conserved;
    if schedule != [] {
      var (t, m) := schedule[0];
      if t < |w.phases| && Step(w, t, m).Some? {
        StepKeeps(w, t, m);
        StepLogs(w, t, m);
        StepConserves(w, first, t, m);
        StepLives(w, open, t, m);
        RunKeeps(Step(w, t, m).value, first, open, schedule[1..]);
      } else {
        RunKeeps(w, first, open, schedule[1..]);
      }
    }
  }

  lemma InitHolds(state: State, cached: Cache, threads: nat, tailable: bool)
    requires Coherent(state, cached) && state != Errored
    ensures var w := Init(state, cached, threads, tailable);
            Inv(w) && Logged(w) && Conserved(w, CachedDocs(cached)) && Lives(w, state == Open, tailable)
  {
  }

  /**
   * In every interleaving: the libmongoc cursor is destroyed at most once and only once it is no longer used, a
   * cached document means an open cursor, an error that surfaces is followed by exactly one nil from next and
   * otherwise by closed-cursor errors. While the cursor is open, the closing flag is set exactly when a kill waits for
   * the lock, and a poll makes at most one server call with the flag set.
   */
  lemma SafeUse(state: State, cached: Cache, threads: nat, tailable: bool, schedule: seq<(nat, Move)>)
    requires Coherent(state, cached) && state != Errored
    ensures var w := Run(Init(state, cached, threads, tailable), schedule);
            && w.destroys <= 1 && (w.state == Open <==> w.destroys == 0)
            && (CachedDocs(w.cached) != [] ==> w.state == Open)
            && EpochOf(w.log) != Illegal && w.late <= 1
            && (w.state == Open ==> (w.isClosing <==> exists t :: 0 <= t < |w.phases| && w.phases[t] == KillWait))
            && (forall t :: 0 <= t < |w.phases| && (w.phases[t] == PollCall || w.phases[t].Collecting?)
                            ==> w.state == Open && w.holder == Some(t))
  {
    hide Conserved;
    InitHolds(state, cached, threads, tailable);
    RunKeeps(Init(state, cached, threads, tailable), CachedDocs(cached), state == Open, schedule);
  }

  lemma SameFront(a: seq<Doc>, b: seq<Doc>, x: seq<Doc>, y: seq<Doc>)
    requires a + x + y == b + x + y
    ensures a == b
  {
    assert a == (a + x + y)[..|a|] && b == (b + x + y)[..|b|];
  }

  /** What has been dropped is what has left the cursor and was not returned. */
  lemma {:induction false} ReturnedExactly(log: seq<Entry>)
    ensures |Returned(log)| <= |Passed(log)|
    ensures Returned(log) == Passed(log) <==> forall i :: 0 <= i < |log| ==> !Drops(log[i])
  {
    hide Drops, Handed;
    if log != [] {
      var init, last := log[..|log| - 1], log[|log| - 1];
      ReturnedExactly(init);
      assert (forall i :: 0 <= i < |log| ==> !Drops(log[i]))
        <==> (forall i :: 0 <= i < |init| ==> !Drops(init[i])) && !Drops(last);
      if Drops(last) {
        SomeDropped(last);
      } else if Returned(log) == Passed(log) {
        SameFront(Returned(init), Passed(init), Handed(last), []);
      }
    }
  }

  lemma SomeDropped(e: Entry)
    requires Drops(e)
    ensures Handed(e) != []
  {
  }

  /**
   * In every interleaving, kills included: the documents that have left the cursor, in the order in which the lock was
   * held, then those being collected, then the cached one, are the documents libmongoc has produced. Callers have got
   * all that have left it exactly when no kill has dropped a cached document and no toArray has thrown after it had
   * collected something.
   */
  lemma InOrder(state: State, cached: Cache, threads: nat, tailable: bool, schedule: seq<(nat, Move)>)
    requires Coherent(state, cached) && state != Errored
    ensures var w := Run(Init(state, cached, threads, tailable), schedule);
            && Passed(w.log) + Collected(w) + CachedDocs(w.cached) == CachedDocs(cached) + DocsIn(w.taken)
            && (Returned(w.log) + Collected(w) + CachedDocs(w.cached) == CachedDocs(cached) + DocsIn(w.taken)
                <==> forall i :: 0 <= i < |w.log| ==> !Drops(w.log[i]))
  {
    hide Inv, Logged, Run, Passed, Returned, Collected, CachedDocs, Init;
    InitHolds(state, cached, threads, tailable);
    RunKeeps(Init(state, cached, threads, tailable), CachedDocs(cached), state == Open, schedule);
    var w := Run(Init(state, cached, threads, tailable), schedule);
    ReturnedExactly(w.log);
    if Returned(w.log) + Collected(w) + CachedDocs(w.cached) == CachedDocs(cached) + DocsIn(w.taken) {
      SameFront(Returned(w.log), Passed(w.log), Collected(w), CachedDocs(w.cached));
    }
  }

  lemma {:induction false} KilledExactly(log: seq<Entry>)
    ensures Killed(log) <==> exists i :: 0 <= i < |log| && log[i].KillDone?
  {
    if log != [] {
      var init := log[..|log| - 1];
      KilledExactly(init);
      if Killed(init) {
        var i :| 0 <= i < |init| && init[i].KillDone?;
        assert log[i].KillDone?;
      }
      if i :| 0 <= i < |log| && log[i].KillDone? {
        assert i < |init| ==> init[i].KillDone?;
      }
    }
  }

  lemma {:induction false} TakenExactly(taken: seq<Response>, tailable: bool)
    ensures AllGoOn(taken, tailable) <==> forall i :: 0 <= i < |taken| ==> GoesOn(taken[i], tailable)
    ensures SomeFailure(taken) <==> Failure in taken
  {
    if taken != [] {
      var init := taken[..|taken| - 1];
      TakenExactly(init, tailable);
      assert taken == init + [taken[|taken| - 1]];
    }
  }

  /**
   * In every interleaving: the cursor is open exactly when it began open, no kill has got the lock and every answer was
   * a document, or empty on a tailable cursor with more to come; an error has surfaced exactly when one was answered.
   */
  lemma OpenExactly(state: State, cached: Cache, threads: nat, tailable: bool, schedule: seq<(nat, Move)>)
    requires Coherent(state, cached) && state != Errored
    ensures var w := Run(Init(state, cached, threads, tailable), schedule);
            && (w.state == Open <==>
                 && state == Open && (forall i :: 0 <= i < |w.log| ==> !w.log[i].KillDone?)
                 && (forall i :: 0 <= i < |w.taken| ==> GoesOn(w.taken[i], tailable)))
            && (EpochOf(w.log) == Live <==> Failure !in w.taken)
  {
    hide Conserved, Run, Init;
    InitHolds(state, cached, threads, tailable);
    InitTailable(state, cached, threads, tailable);
    RunKeeps(Init(state, cached, threads, tailable), CachedDocs(cached), state == Open, schedule);
    var w := Run(Init(state, cached, threads, tailable), schedule);
    KilledExactly(w.log);
    TakenExactly(w.taken, tailable);
  }

  lemma InitTailable(state: State, cached: Cache, threads: nat, tailable: bool)
    ensures Init(state, cached, threads, tailable).tailable == tailable
  {
  }

  /** A thread that polls a tailable cursor which nobody closes: so many empty answers, and then a document. */
  function Waiting(t: nat, k: nat, d: Doc): seq<(nat, Move)> {
    if k == 0 then [(t, Check), (t, Call(Produced(d), true))]
    else [(t, Check), (t, Call(Empty(true), true))] + Waiting(t, k - 1, d)
  }

  lemma RunTwo(w: World, t: nat, a: Move, b: Move, rest: seq<(nat, Move)>)
    ensures Run(w, [(t, a), (t, b)] + rest) == Run(Moved(Moved(w, t, a), t, b), rest)
  {
    hide Moved;
    var moves: seq<(nat, Move)> := [(t, a), (t, b)];
    assert (moves + rest)[0] == (t, a) && (moves + rest)[1..] == [(t, b)] + rest;
    assert ([(t, b)] + rest)[0] == (t, b) && ([(t, b)] + rest)[1..] == rest;
  }

  /** One round of polling. */
  lemma PollRound(w: World, t: nat, response: Response)
    requires Inv(w) && t < |w.phases| && w.phases[t] == PollCheck && w.state == Open && !w.isClosing && w.tailable
    requires GoesOn(response, true)
    ensures var after := Moved(Moved(w, t, Check), t, Call(response, true));
            && Inv(after) && |after.phases| == |w.phases| && after.state == Open && !after.isClosing && after.tailable
            && (response == Empty(true) ==> after.phases[t] == PollCheck && after.log == w.log)
            && (response.Produced? ==> after.log == w.log + [NextDone(Got(response.doc))])
  {
    hide Inv, NextEpoch;
    assert Step(w, t, Check).Some?;
    StepKeeps(w, t, Check);
    var called := Step(w, t, Check).value;
    assert Step(called, t, Call(response, true)).Some?;
    StepKeeps(called, t, Call(response, true));
  }

  /** It gets that document, and the cursor stays open. */
  lemma {:induction false} Awaits(w: World, t: nat, k: nat, d: Doc)
    requires Inv(w) && t < |w.phases| && w.phases[t] == PollCheck && w.state == Open && !w.isClosing && w.tailable
    ensures var after := Run(w, Waiting(t, k, d));
            after.log == w.log + [NextDone(Got(d))] && after.state == Open
    decreases k
  {
    hide Inv, Run, Moved;
    if k == 0 {
      PollRound(w, t, Produced(d));
      RunTwo(w, t, Check, Call(Produced(d), true), []);
      assert Waiting(t, 0, d) + [] == Waiting(t, 0, d);
      RunNone(Moved(Moved(w, t, Check), t, Call(Produced(d), true)));
    } else {
      PollRound(w, t, Empty(true));
      RunTwo(w, t, Check, Call(Empty(true), true), Waiting(t, k - 1, d));
      Awaits(Moved(Moved(w, t, Check), t, Call(Empty(true), true)), t, k - 1, d);
    }
  }

  lemma RunNone(w: World)
    ensures Run(w, []) == w
  {
  }
}
