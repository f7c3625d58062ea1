/** The driver's connection pool: sections run under its lock, a closer that waits, and all their interleavings. */
module ConnectionPool {
  import opened Basics

  type Handle = nat

  datatype State = Open | Closing | Closed

  /** The thread inside close(): none, asleep in wait(), or woken and about to take the lock again. */
  datatype Closer = NoCloser | Asleep | Woken

  /** `owned` maps every live Connection to its handle; `destroys` counts destroy calls on the libmongoc pool. */
  datatype World = World(state: State, connCount: int, idle: set<Handle>, owned: map<nat, Handle>, closer: Closer,
                         destroys: nat)

  datatype Outcome = Done | NoneFree | PoolClosed

  const EMPTY := World(Open, 0, {}, map[], NoCloser, 0)

  /** A handle the libmongoc pool may hand out: any that no Connection owns. */
  predicate Free(w: World, h: Handle) { h !in w.owned.Values }

  /** checkOut, and tryCheckOut when a handle is free; c is the new Connection. */
  function CheckOut(w: World, c: nat, h: Handle): (World, Outcome) {
    if w.state == Open
    then (w.(connCount := w.connCount + 1, idle := w.idle - {h}, owned := w.owned[c := h]), Done)
    else (w, PoolClosed)
  }

  /** checkIn, run by the deinitializer of Connection c. */
  function CheckIn(w: World, c: nat): (World, Outcome)
    requires c in w.owned
  {
    if w.state == Closed then (w.(owned := w.owned - {c}), PoolClosed)
    else (w.(connCount := w.connCount - 1, idle := w.idle + {w.owned[c]}, owned := w.owned - {c},
             closer := if w.closer == Asleep then Woken else w.closer), Done)
  }

  /** The loop condition of close(): go to sleep, or destroy the libmongoc pool. */
  function CloseLoop(w: World): World {
    if w.connCount > 0 then w.(closer := Asleep)
    else w.(state := Closed, closer := NoCloser, idle := {}, destroys := w.destroys + 1)
  }

  /** close() up to its first wait. */
  function CloseStart(w: World): (World, Outcome) {
    if w.state == Open then (CloseLoop(w.(state := Closing)), Done) else (w, PoolClosed)
  }

  datatype Step =
    | OnCheckOut(c: nat, h: Handle) | OnTryCheckOut(c: nat, found: Option<Handle>) | OnCheckIn(c: nat)
    | OnClose | OnSpuriousWake | OnResume

  /** What can happen next: a new Connection is new and its handle free; only live Connections are released. */
  predicate Enabled(w: World, s: Step) {
    match s
    case OnCheckOut(c, h) => c !in w.owned && Free(w, h)
    case OnTryCheckOut(c, found) => c !in w.owned && (found.Some? ==> Free(w, found.value))
    case OnCheckIn(c) => c in w.owned
    case OnClose => true
    case OnSpuriousWake => w.closer == Asleep
    case OnResume => w.closer == Woken
  }

  function Next(w: World, s: Step): (World, Outcome)
    requires Enabled(w, s)
  {
    match s
    case OnCheckOut(c, h) => CheckOut(w, c, h)
    case OnTryCheckOut(c, found) =>
      if w.state == Open && found.None? then (w, NoneFree) else CheckOut(w, c, if found.Some? then found.value else 0)
    case OnCheckIn(c) => CheckIn(w, c)
    case OnClose => CloseStart(w)
    case OnSpuriousWake => (w.(closer := Woken), Done)
    case OnResume => (CloseLoop(w), Done)
  }

  /** No handle belongs to two Connections. */
  predicate Distinct(m: map<nat, Handle>) {
    forall c, d :: c in m && d in m && m[c] == m[d] ==> c == d
  }

  predicate Inv(w: World) {
    && w.connCount == |w.owned|
    && Distinct(w.owned)
    && w.idle !! w.owned.Values
    && w.destroys == (if w.state == Closed then 1 else 0)
    && (w.state == Closed ==> w.owned == map[])
    && (w.state == Closing <==> w.closer != NoCloser)
    && (w.closer == Asleep ==> w.connCount > 0)
  }

  lemma RemoveOne(m: map<nat, Handle>, c: nat)
    requires c in m
    ensures |m - {c}| == |m| - 1
  {
    assert (m - {c}).Keys == m.Keys - {c};
    assert |m.Keys - {c}| == |m.Keys| - 1;
    assert |m| == |m.Keys| && |m - {c}| == |(m - {c}).Keys|;
  }

  lemma AddOne(m: map<nat, Handle>, c: nat, h: Handle)
    requires c !in m
    ensures |m[c := h]| == |m| + 1
  {
    assert m[c := h].Keys == m.Keys + {c};
    assert |m| == |m.Keys| && |m[c := h]| == |m[c := h].Keys|;
  }

  lemma DistinctWith(m: map<nat, Handle>, c: nat, h: Handle)
    requires Distinct(m) && c !in m && h !in m.Values
    ensures Distinct(m[c := h])
  {
    assert forall a :: a in m ==> m[a] in m.Values;
  }

  lemma ValuesWith(m: map<nat, Handle>, c: nat, h: Handle)
    requires c !in m
    ensures m[c := h].Values == m.Values + {h}
  {
    assert m[c := h][c] == h;
    forall v ensures v in m.Values ==> v in m[c := h].Values {
      if v in m.Values {
        var d :| d in m && m[d] == v;
        assert m[c := h][d] == v;
      }
    }
  }

  lemma ValuesWithout(m: map<nat, Handle>, c: nat)
    requires c in m && Distinct(m)
    ensures (m - {c}).Values == m.Values - {m[c]} && Distinct(m - {c})
  {
    forall v ensures v in (m - {c}).Values <==> v in m.Values - {m[c]} {
      if v in (m - {c}).Values {
        var d :| d in m - {c} && (m - {c})[d] == v;
        assert m[d] == v && v in m.Values;
      }
      if v in m.Values - {m[c]} {
        var d :| d in m && m[d] == v;
        assert d in m - {c} && (m - {c})[d] == v;
      }
    }
  }

  lemma CheckOutKeeps(w: World, c: nat, h: Handle)
    requires Inv(w) && c !in w.owned && Free(w, h)
    ensures Inv(CheckOut(w, c, h).0)
  {
    AddOne(w.owned, c, h);
    ValuesWith(w.owned, c, h);
    DistinctWith(w.owned, c, h);
    hide Distinct;
  }

  lemma CheckInKeeps(w: World, c: nat)
    requires Inv(w) && c in w.owned
    ensures Inv(CheckIn(w, c).0) && CheckIn(w, c).1 == Done
  {
    RemoveOne(w.owned, c);
    ValuesWithout(w.owned, c);
    assert w.owned[c] in w.owned.Values;
    hide Distinct;
  }

  lemma CloseKeeps(w: World)
    requires Inv(w) && w.state != Closed
    ensures Inv(CloseLoop(w.(state := Closing)))
  {
    if w.connCount == 0 { assert w.owned == map[]; }
  }

  /** Every step keeps the invariant, and a Connection never meets a closed pool when it is released. */
  lemma NextKeeps(w: World, s: Step)
    requires Inv(w) && Enabled(w, s)
    ensures Inv(Next(w, s).0)
    ensures s.OnCheckIn? ==> Next(w, s).1 == Done
    ensures w.state != Open ==> Next(w, s).0.owned.Keys <= w.owned.Keys && Next(w, s).0.state != Open
  {
    hide Inv, CloseLoop;
    match s
    case OnCheckOut(c, h) => CheckOutKeeps(w, c, h);
    case OnTryCheckOut(c, found) => if found.Some? { CheckOutKeeps(w, c, found.value); }
    case OnCheckIn(c) => CheckInKeeps(w, c);
    case OnClose => Closes(w);
    case OnSpuriousWake => Wakes(w);
    case OnResume => Closes(w);
  }

  lemma Wakes(w: World)
    requires Inv(w) && w.closer == Asleep
    ensures Inv(w.(closer := Woken))
  {
  }

  lemma Closes(w: World)
    requires Inv(w)
    ensures w.state == Open ==> Inv(CloseLoop(w.(state := Closing)))
    ensures w.closer == Woken ==> Inv(CloseLoop(w)) && w.state == Closing
    ensures CloseLoop(w).owned == w.owned && (w.state != Open ==> CloseLoop(w).state != Open)
    ensures CloseLoop(w.(state := Closing)).owned == w.owned
  {
    if w.state != Closed { CloseKeeps(w); }
  }

  /** Any schedule; steps that are not possible are skipped. */
  function Run(w: World, schedule: seq<Step>): World
    decreases |schedule|
  {
    if schedule == [] then w
    else Run(if Enabled(w, schedule[0]) then Next(w, schedule[0]).0 else w, schedule[1..])
  }

  /** The invariant holds in every interleaving, and after close has begun nothing is handed out any more. */
  lemma {:induction false} RunKeeps(w: World, schedule: seq<Step>)
    requires Inv(w)
    ensures Inv(Run(w, schedule))
    ensures w.state != Open ==> Run(w, schedule).owned.Keys <= w.owned.Keys && Run(w, schedule).state != Open
    decreases |schedule|
  {
    hide Inv, Next, Enabled;
    if schedule != [] {
      if Enabled(w, schedule[0]) {
        NextKeeps(w, schedule[0]);
        RunKeeps(Next(w, schedule[0]).0, schedule[1..]);
      } else {
        RunKeeps(w, schedule[1..]);
      }
    }
  }

  lemma EmptyHolds()
    ensures Inv(EMPTY)
  {
  }

  /**
   * In every interleaving of checkOut, tryCheckOut, checkIn and close: the count is the number of live Connections,
   * a handle is idle or belongs to one Connection, the libmongoc pool is destroyed at most once and only when no
   * Connection is left, and a closer that still sleeps has Connections to wait for.
   */
  lemma SafePool(schedule: seq<Step>)
    ensures var w := Run(EMPTY, schedule);
            && w.connCount == |w.owned|
            && (forall c, d :: c in w.owned && d in w.owned && w.owned[c] == w.owned[d] ==> c == d)
            && (forall c :: c in w.owned ==> w.owned[c] !in w.idle)
            && w.destroys <= 1 && (w.destroys == 1 ==> w.connCount == 0)
            && (w.closer == Asleep ==> w.connCount > 0)
            && (forall c :: c in w.owned ==> CheckIn(w, c).1 == Done)
  {
    EmptyHolds();
    RunKeeps(EMPTY, schedule);
    var w := Run(EMPTY, schedule);
    assert forall c :: c in w.owned ==> w.owned[c] in w.owned.Values;
  }

  /** Once every Connection has been released the closer is awake, and its next step closes the pool. */
  lemma CloserFinishes(w: World)
    requires Inv(w) && w.state == Closing && w.owned == map[]
    ensures w.closer == Woken && Next(w, OnResume).0.state == Closed && Next(w, OnResume).0.destroys == 1
  {
  }

  /** The Connections that a history leaves alive: those handed out before close was called and not yet released. */
  function Live(history: seq<Step>): map<nat, Handle>
    decreases |history|
  {
    if history == [] then map[]
    else Onwards(history[..|history| - 1], Live(history[..|history| - 1]), history[|history| - 1])
  }

  function Onwards(before: seq<Step>, live: map<nat, Handle>, s: Step): map<nat, Handle> {
    match s
    case OnCheckOut(c, h) => Handed(before, live, c, h)
    case OnTryCheckOut(c, found) => if found.Some? then Handed(before, live, c, found.value) else live
    case OnCheckIn(c) => live - {c}
    case OnClose => live
    case OnSpuriousWake => live
    case OnResume => live
  }

  function Handed(before: seq<Step>, live: map<nat, Handle>, c: nat, h: Handle): map<nat, Handle> {
    if OnClose !in before && c !in live && h !in live.Values then live[c := h] else live
  }

  /** The handles ever handed out. */
  function Given(history: seq<Step>): set<Handle>
    decreases |history|
  {
    if history == [] then {}
    else Given(history[..|history| - 1]) + Live(history).Values
  }

  /** close finds no Connection alive: when it is first called, or when it goes on. */
  predicate FinishesAt(history: seq<Step>, i: nat)
    requires i < |history|
  {
    history[i] == (if OnClose in history[..i] then OnResume else OnClose) && Live(history[..i]) == map[]
  }

  ghost predicate Finished(history: seq<Step>) {
    exists i: nat :: i < |history| && FinishesAt(history, i)
  }

  /** What every call answers, by the calls before it. */
  function Answer(history: seq<Step>, s: Step): Outcome {
    var closed := OnClose in history;
    match s
    case OnCheckOut(_, _) => if closed then PoolClosed else Done
    case OnTryCheckOut(_, found) => if closed then PoolClosed else if found.None? then NoneFree else Done
    case OnClose => if closed then PoolClosed else Done
    case _ => Done
  }

  /** The state of the pool, by the calls so far. */
  ghost predicate Reflects(w: World, history: seq<Step>) {
    && w.owned == Live(history)
    && (w.state == Open <==> OnClose !in history)
    && (w.state == Closed <==> Finished(history))
  }

  /** The handles that wait in the libmongoc pool are those that have been handed out and released. */
  predicate Idles(w: World, given: set<Handle>) {
    w.owned.Values <= given && w.idle == if w.state == Closed then {} else given - w.owned.Values
  }

  lemma {:induction false} RunSnoc(w: World, history: seq<Step>, s: Step)
    ensures var before := Run(w, history);
            Run(w, history + [s]) == if Enabled(before, s) then Next(before, s).0 else before
    decreases |history|
  {
    hide Next, Enabled;
    if history == [] {
      assert [] + [s] == [s] && [s][1..] == [];
    } else {
      var next := if Enabled(w, history[0]) then Next(w, history[0]).0 else w;
      assert (history + [s])[1..] == history[1..] + [s] && (history + [s])[0] == history[0];
      RunSnoc(next, history[1..], s);
    }
  }

  lemma FinishesBefore(history: seq<Step>, s: Step, i: nat)
    requires i < |history|
    ensures FinishesAt(history + [s], i) <==> FinishesAt(history, i)
  {
    assert (history + [s])[..i] == history[..i];
  }

  /** One more step either finishes close or leaves that as it was. */
  lemma FinishedSnoc(history: seq<Step>, s: Step)
    ensures Finished(history + [s]) <==>
              || Finished(history)
              || (s == (if OnClose in history then OnResume else OnClose) && Live(history) == map[])
  {
    hide FinishesAt;
    var all := history + [s];
    forall i: nat | i < |history| ensures FinishesAt(all, i) <==> FinishesAt(history, i) {
      FinishesBefore(history, s, i);
    }
    FinishesLast(history, s);
    if Finished(history) {
      var i: nat :| i < |history| && FinishesAt(history, i);
      assert FinishesAt(all, i);
    }
  }

  lemma FinishesLast(history: seq<Step>, s: Step)
    ensures FinishesAt(history + [s], |history|) <==>
              s == (if OnClose in history then OnResume else OnClose) && Live(history) == map[]
  {
    assert (history + [s])[..|history|] == history;
  }

  lemma LiveSnoc(history: seq<Step>, s: Step)
    ensures Live(history + [s]) == Onwards(history, Live(history), s)
  {
    assert (history + [s])[..|history|] == history;
  }

  lemma NoLonger(m: map<nat, Handle>, c: nat)
    requires c !in m
    ensures m - {c} == m
  {
  }

  lemma ValuesStep(m: map<nat, Handle>, c: nat, h: Handle)
    requires Distinct(m)
    ensures c !in m && h !in m.Values ==> m[c := h].Values == m.Values + {h}
    ensures c in m ==> m[c] in m.Values && (m - {c}).Values == m.Values - {m[c]}
  {
    if c !in m { ValuesWith(m, c, h); } else { ValuesWithout(m, c); }
  }

  lemma EmptyMap(m: map<nat, Handle>)
    ensures |m| == 0 <==> m == map[]
  {
  }

  lemma OneMore(history: seq<Step>, s: Step)
    ensures OnClose in history + [s] <==> OnClose in history || s == OnClose
  {
  }

  lemma OutIdles(w: World, given: set<Handle>, c: nat, h: Handle)
    requires Inv(w) && Idles(w, given) && c !in w.owned && Free(w, h)
    ensures var after := CheckOut(w, c, h).0; Idles(after, given + after.owned.Values)
  {
    ValuesWith(w.owned, c, h);
    hide Distinct;
  }

  lemma InIdles(w: World, given: set<Handle>, c: nat)
    requires Inv(w) && Idles(w, given) && c in w.owned
    ensures var after := CheckIn(w, c).0; Idles(after, given + after.owned.Values)
  {
    ValuesStep(w.owned, c, 0);
    hide Distinct;
    var x, values := w.owned[c], w.owned.Values;
    assert given - values + {x} == given - (values - {x});
    assert given + (values - {x}) == given;
  }

  lemma StepIdles(w: World, given: set<Handle>, s: Step)
    requires Inv(w) && Idles(w, given)
    ensures var after := if Enabled(w, s) then Next(w, s).0 else w; Idles(after, given + after.owned.Values)
  {
    hide Inv;
    assert given + w.owned.Values == given;
    if Enabled(w, s) {
      match s
      case OnCheckOut(c, h) => OutIdles(w, given, c, h);
      case OnTryCheckOut(c, found) => if found.Some? { OutIdles(w, given, c, found.value); }
      case OnCheckIn(c) => InIdles(w, given, c);
      case _ => ClosingIdles(w, given, s);
    }
  }

  lemma ClosingIdles(w: World, given: set<Handle>, s: Step)
    requires Inv(w) && Idles(w, given) && Enabled(w, s) && (s.OnClose? || s.OnSpuriousWake? || s.OnResume?)
    ensures Idles(Next(w, s).0, given + Next(w, s).0.owned.Values)
  {
    hide Distinct;
    assert given + w.owned.Values == given;
  }

  /** A step changes the pool as it changes the history. */
  lemma StepReflects(w: World, history: seq<Step>, s: Step)
    requires Inv(w) && Reflects(w, history)
    ensures Reflects(if Enabled(w, s) then Next(w, s).0 else w, history + [s])
    ensures Enabled(w, s) ==> Next(w, s).1 == Answer(history, s)
  {
    hide Finished, Live, Distinct;
    FinishedSnoc(history, s);
    LiveSnoc(history, s);
    OneMore(history, s);
    EmptyMap(w.owned);
    if s.OnCheckIn? && s.c !in w.owned { NoLonger(w.owned, s.c); }
  }

  /**
   * In every interleaving, who owns what, which handles are idle, and whether the pool is open, closing or closed can
   * be read off the calls made.
   */
  lemma {:induction false} RunReflects(history: seq<Step>)
    ensures Inv(Run(EMPTY, history)) && Reflects(Run(EMPTY, history), history)
    ensures Idles(Run(EMPTY, history), Given(history))
    decreases |history|
  {
    EmptyHolds();
    RunKeeps(EMPTY, history);
    hide Next, Enabled, Idles, Inv, Finished;
    if history == [] {
      NothingYet();
    } else {
      var before, s := history[..|history| - 1], history[|history| - 1];
      assert history == before + [s];
      RunReflects(before);
      RunSnoc(EMPTY, before, s);
      StepReflects(Run(EMPTY, before), before, s);
      StepIdles(Run(EMPTY, before), Given(before), s);
    }
  }

  lemma NothingYet()
    ensures Idles(EMPTY, {}) && !Finished([])
  {
  }

  /** What every call answers in every interleaving. */
  lemma Answers(history: seq<Step>, s: Step)
    requires Enabled(Run(EMPTY, history), s)
    ensures Next(Run(EMPTY, history), s).1 == Answer(history, s)
  {
    RunReflects(history);
    StepReflects(Run(EMPTY, history), history, s);
  }

  lemma {:induction false} RunAppend(w: World, a: seq<Step>, b: seq<Step>)
    ensures Run(w, a + b) == Run(Run(w, a), b)
    decreases |a|
  {
    hide Next, Enabled;
    if a == [] {
      assert a + b == b;
    } else {
      assert (a + b)[1..] == a[1..] + b && (a + b)[0] == a[0];
      RunAppend(if Enabled(w, a[0]) then Next(w, a[0]).0 else w, a[1..], b);
    }
  }

  lemma ClosedStep(w: World, s: Step)
    requires Inv(w) && w.state == Closed && Enabled(w, s)
    ensures Next(w, s).0 == w
  {
  }

  lemma {:induction false} ClosedStays(w: World, schedule: seq<Step>)
    requires Inv(w) && w.state == Closed
    ensures Run(w, schedule) == w
    decreases |schedule|
  {
    hide Inv, Next, Enabled;
    if schedule != [] {
      if Enabled(w, schedule[0]) { ClosedStep(w, schedule[0]); }
      ClosedStays(w, schedule[1..]);
    }
  }

  lemma CloseCalled(w: World)
    requires Inv(w)
    ensures var after := Next(w, OnClose).0;
            after.state != Open && (w.state == Open && w.owned == map[] ==> after.state == Closed)
  {
    EmptyMap(w.owned);
  }

  lemma CloseGoesOn(w: World)
    requires Inv(w) && w.state != Open && w.owned == map[]
    ensures (if Enabled(w, OnResume) then Next(w, OnResume).0 else w).state == Closed
  {
    EmptyMap(w.owned);
  }

  /**
   * After close has been called the pool is never open again and no Connection is new. If it was open with none alive
   * it is closed at once, otherwise by the next step of the closer when the last has been released; the libmongoc pool
   * is destroyed exactly then.
   */
  lemma ClosesForGood(a: seq<Step>, b: seq<Step>)
    ensures var before, w := Run(EMPTY, a), Run(EMPTY, a + [OnClose] + b);
            && w.state != Open && w.owned.Keys <= before.owned.Keys
            && (before.state == Open && before.owned == map[] ==> w.state == Closed)
            && (w.owned == map[] ==> Run(EMPTY, a + [OnClose] + b + [OnResume]).state == Closed)
            && w.destroys == (if w.state == Closed then 1 else 0)
  {
    EmptyHolds();
    RunKeeps(EMPTY, a);
    hide Next, Enabled;
    var before := Run(EMPTY, a);
    var called := Next(before, OnClose).0;
    RunSnoc(EMPTY, a, OnClose);
    assert Enabled(before, OnClose) by { CloseEnabled(before); }
    NextKeeps(before, OnClose);
    CloseCalled(before);
    CloseKeepsOwned(before);
    RunAppend(EMPTY, a + [OnClose], b);
    RunKeeps(called, b);
    if called.state == Closed { ClosedStays(called, b); }
    var w := Run(called, b);
    RunSnoc(EMPTY, a + [OnClose] + b, OnResume);
    if w.owned == map[] { CloseGoesOn(w); }
  }

  lemma CloseEnabled(w: World)
    ensures Enabled(w, OnClose)
  {
  }

  lemma CloseKeepsOwned(w: World)
    ensures Next(w, OnClose).0.owned == w.owned
  {
  }

  /** The libmongoc pool. */
  class ClientPool {
    var idle: set<Handle>
    var out: set<Handle>
    var destroyed: bool

    constructor ()
      ensures idle == {} && out == {} && !destroyed
    {
      idle, out, destroyed := {}, {}, false;
    }

    /** Pops an idle handle, or makes a new one; `h` is any handle that is not out. */
    method Pop(h: Handle)
      requires !destroyed && h !in out
      modifies this
      ensures idle == old(idle) - {h} && out == old(out) + {h} && !destroyed
    {
      idle, out := idle - {h}, out + {h};
    }

    method Push(h: Handle)
      requires !destroyed && h in out
      modifies this
      ensures idle == old(idle) + {h} && out == old(out) - {h} && !destroyed
    {
      idle, out := idle + {h}, out - {h};
    }

    /** Destroying the pool while a handle is out would leave it dangling. */
    method Destroy()
      requires !destroyed && out == {}
      modifies this
      ensures idle == {} && out == {} && destroyed
    {
      idle, destroyed := {}, true;
    }
  }

  class Pool {
    var state: State
    var connCount: int
    var closer: Closer
    var owned: map<nat, Handle>
    const clients: ClientPool

    function Abs(): World
      reads this, clients
    {
      World(state, connCount, clients.idle, owned, closer, if clients.destroyed then 1 else 0)
    }

    ghost predicate Valid()
      reads this, clients
    {
      Inv(Abs()) && clients.out == owned.Values
    }

    constructor ()
      ensures Valid() && Abs() == EMPTY && fresh(clients)
    {
      state, connCount, closer, owned := Open, 0, NoCloser, map[];
      clients := new ClientPool();
    }

    /** `h` is the handle libmongoc hands out; it blocks until there is one. */
    method CheckOutConnection(c: nat, h: Handle) returns (r: Outcome)
      requires Valid() && c !in owned && Free(Abs(), h)
      modifies this, clients
      ensures Valid() && (Abs(), r) == CheckOut(old(Abs()), c, h)
    {
      CheckOutKeeps(Abs(), c, h);
      hide Inv;
      if state != Open {
        return PoolClosed;
      }
      connCount := connCount + 1;
      clients.Pop(h);
      ValuesWith(owned, c, h);
      owned := owned[c := h];
      r := Done;
    }

    method TryCheckOutConnection(c: nat, found: Option<Handle>) returns (r: Outcome)
      requires Valid() && c !in owned && (found.Some? ==> Free(Abs(), found.value))
      modifies this, clients
      ensures Valid() && (Abs(), r) == Next(old(Abs()), OnTryCheckOut(c, found))
    {
      if state != Open {
        return PoolClosed;
      }
      if found.None? {
        return NoneFree;
      }
      r := CheckOutConnection(c, found.value);
    }

    method CheckInConnection(c: nat)
      requires Valid() && c in owned
      modifies this, clients
      ensures Valid() && (Abs(), Done) == CheckIn(old(Abs()), c)
    {
      CheckInKeeps(Abs(), c);
      assert owned[c] in owned.Values;
      clients.Push(owned[c]);
      connCount := connCount - 1;
      if closer == Asleep {
        closer := Woken;
      }
      ValuesWithout(owned, c);
      owned := owned - {c};
    }

    /** The test of the wait loop, and what follows it. */
    method CloseOrSleep()
      requires state == Closing && !clients.destroyed && clients.out == owned.Values
      requires connCount == |owned|
      modifies this, clients
      ensures Abs() == CloseLoop(old(Abs())) && clients.out == owned.Values
    {
      if connCount > 0 {
        closer := Asleep;
        return;
      }
      assert owned == map[];
      clients.Destroy();
      state, closer := Closed, NoCloser;
    }

    method Close() returns (r: Outcome)
      requires Valid()
      modifies this, clients
      ensures Valid() && (Abs(), r) == CloseStart(old(Abs()))
    {
      Closes(Abs());
      if state != Open {
        return PoolClosed;
      }
      state := Closing;
      CloseOrSleep();
      r := Done;
    }

    /** After wait() has returned. */
    method ResumeClose()
      requires Valid() && closer == Woken
      modifies this, clients
      ensures Valid() && Abs() == CloseLoop(old(Abs()))
    {
      Closes(Abs());
      CloseOrSleep();
    }
  }
}
