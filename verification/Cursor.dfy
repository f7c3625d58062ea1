/** The driver's cursor: its state, its one-document cache, and the operations that run under its lock. */
module Cursor {
  import opened Basics

  type Doc = nat

  datatype State = Open | Errored | Closed

  /** What libmongoc answers to one attempt to advance. */
  datatype Response = Produced(doc: Doc) | Failure | Empty(more: bool)

  datatype Error = ClosedCursor | ServerError | SessionInactive

  datatype Result = Got(doc: Doc) | Nothing | Threw(error: Error)

  /** A cached result, which may be the absence of a document; None is an empty cache. */
  type Cache = Option<Option<Doc>>

  function CachedDocs(c: Cache): seq<Doc> {
    if c.Some? && c.value.Some? then [c.value.value] else []
  }

  predicate Alive(state: State, cached: Cache) { cached.Some? || state == Open }

  /** getNextDocument on an answer. */
  function Advance(state: State, response: Response, tailable: bool): (State, Result) {
    if state != Open then (state, Threw(ClosedCursor))
    else
      match response
      case Produced(doc) => (Open, Got(doc))
      case Failure => (Errored, Threw(ServerError))
      case Empty(more) => (if !tailable || !more then Closed else Open, Nothing)
  }

  /** An answer after which the cursor goes on: a document, or none yet on a tailable cursor that has more to come. */
  predicate GoesOn(response: Response, tailable: bool) {
    response.Produced? || (tailable && response == Empty(true))
  }

  /** An answer that next waits through. */
  predicate Waits(response: Response, tailable: bool) { tailable && response == Empty(true) }

  /** What an answer makes next return. */
  function Verdict(response: Response): Result {
    match response
    case Produced(doc) => Got(doc)
    case Failure => Threw(ServerError)
    case Empty(_) => Nothing
  }

  /** Since `before`, only answers have been taken that polling waits through. */
  predicate Waiting(taken: seq<Response>, before: seq<Response>, tailable: bool) {
    before <= taken && forall i :: |before| <= i < |taken| ==> Waits(taken[i], tailable)
  }

  /** Such answers, and then one that decides the result. */
  predicate Polled(taken: seq<Response>, before: seq<Response>, tailable: bool, r: Result) {
    var n := |taken| - 1;
    n >= |before| && Waiting(taken[..n], before, tailable) && !Waits(taken[n], tailable) && r == Verdict(taken[n])
  }

  lemma NothingTaken(taken: seq<Response>, tailable: bool)
    ensures Waiting(taken, taken, tailable)
  {
  }

  lemma PollStep(taken: seq<Response>, before: seq<Response>, tailable: bool, response: Response)
    requires Waiting(taken, before, tailable)
    ensures if Waits(response, tailable) then Waiting(taken + [response], before, tailable)
            else Polled(taken + [response], before, tailable, Verdict(response))
  {
    assert (taken + [response])[..|taken|] == taken;
  }

  /** Polling stops at the first document behind answers it waits through. */
  lemma FirstDecides(taken: seq<Response>, before: seq<Response>, r: Result, k: nat, d: Doc)
    requires Polled(taken, before, true, r)
    requires forall i :: |before| <= i < |taken| && i < |before| + k ==> taken[i] == Empty(true)
    requires |before| + k < |taken| ==> taken[|before| + k] == Produced(d)
    ensures |taken| == |before| + k + 1 && r == Got(d)
  {
    var n := |taken| - 1;
    assert forall i :: 0 <= i < n ==> taken[..n][i] == taken[i];
  }

  /** A cached document is only ever kept for an open cursor. */
  predicate Coherent(state: State, cached: Cache) {
    CachedDocs(cached) != [] ==> state == Open
  }

  /** The libmongoc cursor: the answers it will give and those it has given, and the documents it has produced. */
  class Mongoc {
    var script: seq<Response>
    var last: Response
    var destroyed: bool
    ghost const answers: seq<Response>
    ghost var taken: seq<Response>
    ghost var produced: seq<Doc>

    /** `construction` is Failure when making the cursor failed. */
    constructor (toGive: seq<Response>, construction: Response)
      ensures script == answers == toGive && last == construction && !destroyed && taken == [] && produced == []
    {
      script, last, destroyed, answers, taken, produced := toGive, construction, false, toGive, [], [];
    }

    /** Its answers are given in order, and when there are none left it is exhausted. */
    ghost predicate InTurn()
      reads this
    {
      && script == (if |taken| <= |answers| then answers[|taken|..] else [])
      && (forall i :: 0 <= i < |taken| ==> taken[i] == if i < |answers| then answers[i] else Empty(false))
    }

    /** The answer to come; at the end of the script the cursor is exhausted. */
    function Coming(): Response
      reads this
    {
      if script == [] then Empty(false) else script[0]
    }

    method Next() returns (doc: Option<Doc>)
      requires !destroyed
      modifies this
      ensures !destroyed && last == old(Coming()) && script == if old(script) == [] then [] else old(script)[1..]
      ensures doc == if last.Produced? then Some(last.doc) else None
      ensures taken == old(taken) + [last] && (old(InTurn()) ==> InTurn())
      ensures produced == old(produced) + if last.Produced? then [last.doc] else []
    {
      last := Coming();
      taken := taken + [last];
      script := if script == [] then [] else script[1..];
      if last.Produced? {
        produced := produced + [last.doc];
        return Some(last.doc);
      }
      return None;
    }

    method ErrorDocument() returns (failed: bool)
      requires !destroyed
      ensures failed == last.Failure?
    {
      failed := last.Failure?;
    }

    method More() returns (more: bool)
      requires !destroyed
      ensures last.Empty? ==> more == last.more
    {
      more := last.Empty? && last.more;
    }

    method Destroy()
      requires !destroyed
      modifies this`destroyed
      ensures destroyed
    {
      destroyed := true;
    }
  }

  /** Every method runs while the lock is held; threads are in CursorThreads. */
  class Cursor {
    var state: State
    var cached: Cache
    var isClosing: bool
    var sessionActive: bool
    const tailable: bool
    const mongoc: Mongoc
    ghost var returned: seq<Doc>

    /** The libmongoc cursor is destroyed exactly when the cursor is no longer open. */
    ghost predicate Valid()
      reads this, mongoc
    {
      (state == Open <==> !mongoc.destroyed) && Coherent(state, cached) && mongoc.InTurn()
    }

    /** What was returned, then what is cached, is what libmongoc produced. */
    ghost predicate Conserved()
      reads this, mongoc
    {
      returned + CachedDocs(cached) == mongoc.produced
    }

    /** As long as nobody has killed it, the cursor is open exactly when it goes on after every answer taken. */
    ghost predicate Lives()
      reads this, mongoc
    {
      state == Open <==> forall i :: 0 <= i < |mongoc.taken| ==> GoesOn(mongoc.taken[i], tailable)
    }

    /** getMongocError. */
    method MongocError() returns (failed: bool)
      requires Valid()
      ensures failed == (state == Open && mongoc.last.Failure?)
    {
      if state != Open {
        return false;
      }
      failed := mongoc.ErrorDocument();
    }

    method Close(fromError: bool)
      requires Valid() && CachedDocs(cached) == []
      modifies this`state, mongoc`destroyed
      ensures Valid() && state == if old(state) != Open then old(state) else if fromError then Errored else Closed
    {
      if state != Open {
        return;
      }
      mongoc.Destroy();
      state := if fromError then Errored else Closed;
    }

    /** One attempt to advance; an inactive session ends it before libmongoc is asked. */
    method GetNextDocument() returns (r: Result)
      requires Valid() && cached == None
      modifies this`state, mongoc
      ensures Valid()
      ensures old(state) == Open && !sessionActive ==>
                r == Threw(SessionInactive) && state == Open && mongoc.script == old(mongoc.script)
      ensures old(state) != Open || sessionActive ==> (state, r) == Advance(old(state), old(mongoc.Coming()), tailable)
      ensures mongoc.produced == old(mongoc.produced) + if r.Got? then [r.doc] else []
      ensures mongoc.taken ==
                old(mongoc.taken) + if old(state) == Open && sessionActive then [old(mongoc.Coming())] else []
      ensures old(state) == Open && sessionActive ==>
                mongoc.script == if old(mongoc.script) == [] then [] else old(mongoc.script)[1..]
      ensures old(Lives()) ==> Lives()
      ensures r == Nothing && state == Open ==> |mongoc.script| < |old(mongoc.script)|
      ensures r.Got? ==> |mongoc.script| < |old(mongoc.script)|
    {
      if state != Open {
        return Threw(ClosedCursor);
      }
      if !sessionActive {
        return Threw(SessionInactive);
      }
      var doc := mongoc.Next();
      assert mongoc.taken[|mongoc.taken| - 1] == mongoc.last;
      if doc.None? {
        var failed := MongocError();
        if failed {
          Close(true);
          return Threw(ServerError);
        }
        var more := mongoc.More();
        if !tailable || !more {
          Close(false);
        }
        return Nothing;
      }
      return Got(doc.value);
    }

    /** `lazy` cursors fetch their first document at once; `threw` is the error the initializer ends with. */
    constructor (m: Mongoc, isTailable: bool, lazy: bool, active: bool)
      requires !m.destroyed && m.produced == [] && m.taken == [] && m.InTurn()
      modifies m
      ensures Valid() && Conserved() && mongoc == m && tailable == isTailable && !isClosing && returned == []
      ensures old(m.last).Failure? ==> state == Errored && cached == None
      ensures !old(m.last).Failure? ==> Lives()
      ensures !old(m.last).Failure? && !lazy ==> state == Open && cached == None
      ensures !old(m.last).Failure? && lazy && !active ==> state == Open && cached == None
      ensures !old(m.last).Failure? && lazy && active ==>
                && state == Advance(Open, old(m.Coming()), isTailable).0
                && cached == match Advance(Open, old(m.Coming()), isTailable).1
                             case Got(doc) => Some(Some(doc))
                             case Nothing => Some(None)
                             case Threw(_) => None
    {
      state, cached, isClosing, sessionActive, tailable, mongoc := Open, None, false, active, isTailable, m;
      returned := [];
      new;
      var failed := MongocError();
      if failed {
        Close(true);
        return;
      }
      if lazy {
        var r := GetNextDocument();
        match r {
          case Got(doc) => cached := Some(Some(doc));
          case Nothing => cached := Some(None);
          case Threw(_) =>
        }
      }
    }

    /** Returns the next document, polling until there is one, the cursor dies, or it is being closed. */
    method Next() returns (r: Result)
      requires Valid()
      modifies this`state, this`cached, this`returned, mongoc
      ensures Valid() && cached == None
      ensures old(!Alive(state, cached)) ==> r == if old(state) == Errored then Nothing else Threw(ClosedCursor)
      ensures old(!Alive(state, cached)) ==> state == Closed && mongoc.script == old(mongoc.script)
      ensures CachedDocs(old(cached)) != [] ==> r == Got(CachedDocs(old(cached))[0]) && state == old(state)
      ensures r == Threw(ServerError) ==> state == Errored
      ensures r.Got? ==> state == old(state)
      ensures old(Alive(state, cached)) && r == Nothing && state == Open ==> isClosing
      ensures old(state) == Open && CachedDocs(old(cached)) == [] && isClosing ==>
                r == Nothing && state == Open && mongoc.taken == old(mongoc.taken)
      ensures old(state) == Open && CachedDocs(old(cached)) == [] && sessionActive && !isClosing ==>
                Polled(mongoc.taken, old(mongoc.taken), tailable, r)
      ensures returned == old(returned) + if r.Got? then [r.doc] else []
      ensures old(Lives()) ==> Lives()
      ensures old(Conserved()) ==> Conserved()
    {
      hide Waiting, Polled, Mongoc.InTurn, GoesOn;
      if !Alive(state, cached) {
        if state != Errored {
          return Threw(ClosedCursor);
        }
        state := Closed;
        return Nothing;
      }
      var taken := cached;
      cached := None;
      if taken.Some? && (!Alive(state, cached) || taken.value.Some?) {
        r := if taken.value.Some? then Got(taken.value.value) else Nothing;
        returned := returned + CachedDocs(taken);
        return;
      }
      NothingTaken(mongoc.taken, tailable);
      while Alive(state, cached) && !isClosing
        invariant Valid() && cached == None && returned == old(returned)
        invariant old(Conserved()) ==> Conserved()
        invariant old(Lives()) ==> Lives()
        invariant isClosing ==> state == old(state) && mongoc.taken == old(mongoc.taken)
        invariant old(state) == Open && CachedDocs(old(cached)) == [] && sessionActive ==>
                    if state == Open then Waiting(mongoc.taken, old(mongoc.taken), tailable)
                    else Polled(mongoc.taken, old(mongoc.taken), tailable, Nothing)
        decreases state == Open, |mongoc.script|
      {
        if Waiting(mongoc.taken, old(mongoc.taken), tailable) {
          PollStep(mongoc.taken, old(mongoc.taken), tailable, mongoc.Coming());
        }
        r := GetNextDocument();
        if r.Got? {
          returned := returned + [r.doc];
          return;
        }
        if r.Threw? {
          return;
        }
      }
      return Nothing;
    }

    /** One attempt, or the cached result. */
    method TryNext() returns (r: Result)
      requires Valid()
      modifies this`state, this`cached, this`returned, mongoc
      ensures Valid() && cached == None
      ensures old(cached).Some? ==>
                r == (if old(cached).value.Some? then Got(old(cached).value.value) else Nothing) && state == old(state)
      ensures old(cached).None? && (old(state) != Open || sessionActive) ==>
                (state, r) == Advance(old(state), old(mongoc.Coming()), tailable)
      ensures old(cached).None? && old(state) == Open && !sessionActive ==> r == Threw(SessionInactive) && state == Open
      ensures returned == old(returned) + if r.Got? then [r.doc] else []
      ensures old(Lives()) ==> Lives()
      ensures old(Conserved()) ==> Conserved()
    {
      var taken := cached;
      cached := None;
      if taken.Some? {
        r := if taken.value.Some? then Got(taken.value.value) else Nothing;
      } else {
        r := GetNextDocument();
      }
      if r.Got? {
        returned := returned + [r.doc];
      }
    }

    /** All documents available now; an error drops what has been collected. */
    method ToArray() returns (docs: seq<Doc>, thrown: Option<Error>)
      requires Valid()
      modifies this`state, this`cached, this`returned, mongoc
      ensures Valid()
      ensures old(!Alive(state, cached)) <==> thrown == Some(ClosedCursor)
      ensures thrown == Some(ClosedCursor) ==> state == old(state) && cached == old(cached)
      ensures thrown == Some(ServerError) ==> state == Errored
      ensures thrown != Some(ClosedCursor) ==> cached == None
      ensures returned == old(returned) + if thrown.None? then docs else []
      ensures old(Lives()) ==> Lives()
      ensures old(Conserved()) && (thrown.None? || thrown == Some(ClosedCursor)) ==> Conserved()
    {
      docs, thrown := [], None;
      if !Alive(state, cached) {
        return [], Some(ClosedCursor);
      }
      docs := CachedDocs(cached);
      cached := None;
      if Alive(state, cached) {
        var more := true;
        while more
          invariant Valid() && cached == None && returned == old(returned)
          invariant more ==> state == Open
          invariant old(Lives()) ==> Lives()
          invariant old(Conserved()) ==> returned + docs == mongoc.produced
          decreases more, |mongoc.script|
        {
          var r := GetNextDocument();
          match r {
            case Got(doc) => docs := docs + [doc];
            case Nothing => more := false;
            case Threw(error) => return docs, Some(error);
          }
        }
      }
      returned := returned + docs;
    }

    /** Empties the cache and closes the cursor; an errored cursor stays errored. */
    method Kill()
      requires Valid()
      modifies this`state, this`cached, this`isClosing, mongoc`destroyed
      ensures Valid() && cached == None && !isClosing
      ensures state == if old(state) == Open then Closed else old(state)
    {
      isClosing := true;
      cached := None;
      Close(false);
      isClosing := false;
    }
  }

  /** What a user does; the session may start and end in between. */
  datatype Op = CallNext | CallTryNext | CallToArray | SessionTurns(active: bool)

  /** Any run before a kill: unless a toArray drops what it has collected, nothing is lost, repeated or reordered. */
  method Use(c: Cursor, ops: seq<Op>) returns (docs: seq<Doc>, dropped: bool)
    requires c.Valid() && c.Conserved() && c.Lives() && c.returned == []
    modifies c, c.mongoc
    ensures c.Valid() && docs == c.returned
    ensures c.state == Open <==> forall i :: 0 <= i < |c.mongoc.taken| ==> GoesOn(c.mongoc.taken[i], c.tailable)
    ensures !dropped ==> docs + CachedDocs(c.cached) == c.mongoc.produced
  {
    docs, dropped := [], false;
    var i := 0;
    while i < |ops|
      invariant 0 <= i <= |ops| && c.Valid() && c.Lives() && docs == c.returned
      invariant !dropped ==> c.Conserved()
    {
      match ops[i] {
        case CallNext =>
          var r := c.Next();
          docs := docs + if r.Got? then [r.doc] else [];
        case CallTryNext =>
          var r := c.TryNext();
          docs := docs + if r.Got? then [r.doc] else [];
        case CallToArray =>
          var found, thrown := c.ToArray();
          docs := docs + if thrown.None? then found else [];
          dropped := dropped || (thrown.Some? && thrown != Some(ClosedCursor));
        case SessionTurns(active) =>
          c.sessionActive := active;
      }
      i := i + 1;
    }
  }

  /** A tailable cursor that nobody closes waits for its next document, however many empty answers come before it. */
  method Await(c: Cursor, ghost k: nat, ghost d: Doc) returns (r: Result)
    requires c.Valid() && c.state == Open && c.tailable && c.sessionActive && !c.isClosing && CachedDocs(c.cached) == []
    requires k < |c.mongoc.script| && c.mongoc.script[k] == Produced(d)
    requires forall i :: 0 <= i < k ==> c.mongoc.script[i] == Empty(true)
    modifies c, c.mongoc
    ensures c.Valid() && r == Got(d) && c.state == Open && |c.mongoc.taken| == |old(c.mongoc.taken)| + k + 1
  {
    ghost var before, script := c.mongoc.taken, c.mongoc.script;
    r := c.Next();
    ghost var taken := c.mongoc.taken;
    assert forall i :: |before| <= i < |taken| && i <= |before| + k ==> taken[i] == script[i - |before|];
    FirstDecides(taken, before, r, k, d);
  }
}
