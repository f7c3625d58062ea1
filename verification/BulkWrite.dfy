/** Which inserted ids a failed bulk write reports, against what an executor really inserted. */
module BulkWrite {
  import opened Basics

  type Id = int

  datatype Model = Insert(id: Id) | Other

  /** What became of a model on the server. */
  datatype Status = Succeeded | Failed | NotAttempted

  /** The indices of the inserts, and their ids. */
  function InsertIds(models: seq<Model>): map<nat, Id> {
    map i: nat | i < |models| && models[i].Insert? :: models[i].id
  }

  /** The loop of execute() that adds the models and keeps the ids it gets back. */
  method CollectIds(models: seq<Model>) returns (ids: map<nat, Id>)
    ensures ids == InsertIds(models)
  {
    ids := map[];
    var index := 0;
    while index < |models|
      invariant 0 <= index <= |models| && ids == InsertIds(models[..index])
    {
      if models[index].Insert? {
        ids := ids[index := models[index].id];
      }
      index := index + 1;
    }
    assert models[..|models|] == models;
  }

  lemma MaxExists(s: set<nat>)
    requires s != {}
    ensures exists m: nat :: m in s && forall x <- s :: x <= m
    decreases |s|
  {
    var y :| y in s;
    if s - {y} == {} {
      assert s == {y};
    } else {
      MaxExists(s - {y});
      var m: nat :| m in s - {y} && forall x <- s - {y} :: x <= m;
      var top := if y > m then y else m;
      forall x | x in s ensures x <= top {
        if x != y { assert x in s - {y}; }
      }
      assert top in s;
    }
  }

  ghost function Max(s: set<nat>): (m: nat)
    requires s != {}
    ensures m in s && forall x <- s :: x <= m
  {
    MaxExists(s);
    var m: nat :| m in s && forall x <- s :: x <= m;
    m
  }

  predicate Increasing(r: seq<nat>) { forall i, j :: 0 <= i < j < |r| ==> r[i] < r[j] }

  /** keys.sorted() */
  ghost function Sorted(s: set<nat>): (r: seq<nat>)
    ensures Increasing(r) && |r| == |s| && forall x: nat :: x in r <==> x in s
    decreases |s|
  {
    if s == {} then [] else Sorted(s - {Max(s)}) + [Max(s)]
  }

  function Cut(ids: map<nat, Id>, last: nat): map<nat, Id> { map k | k in ids && k <= last :: ids[k] }

  /** The ids an error keeps; None when the count exceeds the ids and the subscript traps. */
  ghost function Surviving(ids: map<nat, Id>, insertedCount: nat, ordered: bool, errors: set<nat>)
    : Option<map<nat, Id>>
  {
    if insertedCount == 0 then Some(map[])
    else if ordered then
      if insertedCount > |ids| then None
      else
        var last := Sorted(ids.Keys)[insertedCount - 1];
        Some(Cut(ids, last))
    else Some(map k | k in ids && k !in errors :: ids[k])
  }

  /** The inserts that took effect. */
  function Effective(models: seq<Model>, statuses: seq<Status>): map<nat, Id>
    requires |statuses| == |models|
  {
    map i: nat | i < |models| && models[i].Insert? && statuses[i] == Succeeded :: models[i].id
  }

  /** An initial segment: with an element come all smaller ones. */
  predicate Initial(part: set<nat>, whole: set<nat>) {
    part <= whole && forall x, y :: x in whole && y in part && x < y ==> x in part
  }

  /** Two initial segments of one size are the same. */
  lemma SameSegment(a: set<nat>, b: set<nat>, whole: set<nat>)
    requires Initial(a, whole) && Initial(b, whole) && |a| == |b|
    ensures a == b
  {
    if !(a <= b) {
      var x :| x in a && x !in b;
      forall y | y in b ensures y in a {
        assert !(x < y);
      }
      Subset(b, a);
    } else {
      Subset(a, b);
    }
  }

  lemma Subset(a: set<nat>, b: set<nat>)
    requires a <= b && |a| == |b|
    ensures a == b
  {
    if a != b {
      var x :| x in b && x !in a;
      SubsetSize(a, b - {x});
    }
  }

  lemma SubsetSize(a: set<nat>, b: set<nat>)
    requires a <= b
    ensures |a| <= |b|
    decreases |a|
  {
    if a != {} {
      var x :| x in a;
      SubsetSize(a - {x}, b - {x});
    }
  }

  /** The elements up to a bound. */
  function UpTo(s: set<nat>, bound: nat): set<nat> { set x | x in s && x <= bound }

  /** The elements up to the n-th smallest are n elements. */
  lemma {:induction false} FirstCount(s: set<nat>, n: nat)
    requires 0 < n <= |s|
    ensures |UpTo(s, Sorted(s)[n - 1])| == n
    decreases |s|
  {
    var top, rest, bound := Max(s), s - {Max(s)}, Sorted(s)[n - 1];
    SortedSplit(s);
    hide Sorted;
    if n == |s| {
      assert UpTo(s, bound) == s;
    } else {
      assert rest < s && |rest| == |s| - 1;
      FirstCount(rest, n);
      SortedBelow(s, n - 1);
      assert UpTo(s, bound) == UpTo(rest, bound);
    }
  }

  lemma SortedBelow(s: set<nat>, i: nat)
    requires i + 1 < |s|
    ensures Sorted(s)[i] == Sorted(s - {Max(s)})[i] < Max(s)
  {
    SortedSplit(s);
    hide Sorted;
    assert Sorted(s)[|s| - 1] == Max(s);
  }

  lemma SortedSplit(s: set<nat>)
    requires s != {}
    ensures Sorted(s) == Sorted(s - {Max(s)}) + [Max(s)]
  {
  }

  lemma SubmapSize(ids: map<nat, Id>, part: map<nat, Id>)
    requires part.Keys <= ids.Keys
    ensures |part| <= |ids| && |part| == |part.Keys| && |ids| == |ids.Keys|
  {
    SubsetSize(part.Keys, ids.Keys);
  }

  /**
   * Ordered: cutting off behind the insertedCount-th insert gives the effective inserts exactly when these are the
   * first ones among all inserts.
   */
  lemma OrderedExactly(models: seq<Model>, statuses: seq<Status>, errors: set<nat>)
    requires |statuses| == |models|
    ensures var done := Effective(models, statuses);
            Surviving(InsertIds(models), |done|, true, errors) == Some(done)
            <==> Initial(done.Keys, InsertIds(models).Keys)
  {
    var ids, done := InsertIds(models), Effective(models, statuses);
    assert done.Keys <= ids.Keys && forall k <- done :: done[k] == ids[k];
    hide InsertIds, Effective, Surviving, Initial;
    OrderedSubmap(ids, done, errors);
  }

  lemma OrderedSubmap(ids: map<nat, Id>, done: map<nat, Id>, errors: set<nat>)
    requires done.Keys <= ids.Keys && forall k <- done :: done[k] == ids[k]
    ensures Surviving(ids, |done|, true, errors) == Some(done) <==> Initial(done.Keys, ids.Keys)
  {
    hide Cut, Sorted, UpTo;
    SubmapSize(ids, done);
    if |done| == 0 {
      assert done == map[] && done.Keys == {};
    } else {
      var last := Sorted(ids.Keys)[|done| - 1];
      FirstCount(ids.Keys, |done|);
      CutExactly(ids, done, last);
    }
  }

  /** Cutting a map at a bound that leaves as many entries as a submap has. */
  lemma CutExactly(ids: map<nat, Id>, done: map<nat, Id>, last: nat)
    requires done.Keys <= ids.Keys && (forall k <- done :: done[k] == ids[k]) && |UpTo(ids.Keys, last)| == |done|
    ensures Cut(ids, last) == done <==> Initial(done.Keys, ids.Keys)
  {
    var kept := Cut(ids, last);
    assert kept.Keys == UpTo(ids.Keys, last);
    assert Initial(kept.Keys, ids.Keys);
    assert |done| == |done.Keys|;
    if Initial(done.Keys, ids.Keys) {
      SameSegment(done.Keys, kept.Keys, ids.Keys);
      assert kept == done;
    }
  }

  /** Unordered: leaving out the reported indices is right exactly when they are the inserts without effect. */
  lemma UnorderedExactly(models: seq<Model>, statuses: seq<Status>, errors: set<nat>)
    requires |statuses| == |models|
    ensures var done := Effective(models, statuses);
            Surviving(InsertIds(models), |done|, false, errors) == Some(done)
            <==> done == map[]
                 || forall i: nat :: i < |models| && models[i].Insert? ==> (i in errors <==> statuses[i] != Succeeded)
  {
    var ids, done := InsertIds(models), Effective(models, statuses);
    if done != map[] {
      var kept := map k | k in ids && k !in errors :: ids[k];
      assert |done| > 0;
      if kept == done {
        forall i: nat | i < |models| && models[i].Insert? ensures i in errors <==> statuses[i] != Succeeded {
          assert i in kept <==> i in done;
        }
      }
    }
  }

  /** An ordered executor: nothing after the first failure is attempted. */
  predicate StopsAtFailure(statuses: seq<Status>) {
    && (forall i, j :: 0 <= i < j < |statuses| && statuses[i] != Succeeded ==> statuses[j] == NotAttempted)
    && (statuses != [] ==> statuses[0] != NotAttempted)
  }

  /** An unordered executor: everything is attempted, and each failure reported. */
  predicate AttemptsAll(statuses: seq<Status>, errors: set<nat>) {
    forall i: nat :: i < |statuses| ==> statuses[i] != NotAttempted && (i in errors <==> statuses[i] == Failed)
  }

  /** Either way, the ids in the error are those of the inserts that took effect, and as many as counted. */
  lemma ErrorKeepsEffective(models: seq<Model>, statuses: seq<Status>, ordered: bool, errors: set<nat>)
    requires |statuses| == |models|
    requires if ordered then StopsAtFailure(statuses) else AttemptsAll(statuses, errors)
    ensures var done := Effective(models, statuses);
            Surviving(InsertIds(models), |done|, ordered, errors) == Some(done)
  {
    if ordered {
      OrderedExactly(models, statuses, errors);
    } else {
      UnorderedExactly(models, statuses, errors);
    }
  }

  /** An unordered bulk that breaks off reports ids that were never inserted. */
  lemma BrokenOff()
    ensures var models, statuses := [Insert(7), Insert(8)], [Succeeded, NotAttempted];
            Surviving(InsertIds(models), |Effective(models, statuses)|, false, {}) != Some(Effective(models, statuses))
  {
    var models, statuses := [Insert(7), Insert(8)], [Succeeded, NotAttempted];
    UnorderedExactly(models, statuses, {});
    assert 0 in Effective(models, statuses);
    assert models[1].Insert? && statuses[1] != Succeeded;
  }

  /** The counters libmongoc may leave out of a reply; one that is no number counts as zero. */
  datatype Field = NRemoved | NInserted | NMatched | NModified | NUpserted

  /** An entry of the upserted list: a document or not. Its index may be no number, and its id may be missing. */
  datatype Upsert = Upsert(index: Option<int>, id: Option<Id>) | NoDocument

  datatype Upserted = NoArray | Upserts(list: seq<Upsert>)

  datatype Reply = Reply(counts: map<Field, Option<int>>, upserted: Option<Upserted>)

  datatype BulkResult = BulkResult(deleted: int, inserted: int, ids: map<nat, Id>, matched: int, modified: int,
                                   upserts: int, upsertedIds: map<int, Id>)

  datatype Parsed = Unrecognized | Malformed | Result(value: BulkResult)

  predicate Indexed(u: Upsert) { u.Upsert? && u.index.Some? }

  function IndexOf(u: Upsert): int
    requires Indexed(u)
  {
    u.index.value
  }

  /** Assigning to a dictionary: no value takes the entry out. */
  function Assign(m: map<int, Id>, index: int, id: Option<Id>): map<int, Id> {
    match id case Some(v) => m[index := v] case None => m - {index}
  }

  /** A later entry for an index replaces an earlier one, or takes it out. */
  function UpsertedIds(list: seq<Upsert>): map<int, Id>
    requires forall j :: 0 <= j < |list| ==> Indexed(list[j])
  {
    if list == [] then map[]
    else
      var last := list[|list| - 1];
      Assign(UpsertedIds(list[..|list| - 1]), IndexOf(last), last.id)
  }

  /** What is reported for an index is the id of the last entry that has it. */
  lemma {:induction false} LastUpsert(list: seq<Upsert>, k: nat)
    requires k < |list| && forall j :: 0 <= j < |list| ==> Indexed(list[j])
    requires forall j :: k < j < |list| ==> IndexOf(list[j]) != IndexOf(list[k])
    ensures var index := IndexOf(list[k]);
            match list[k].id
            case Some(id) => index in UpsertedIds(list) && UpsertedIds(list)[index] == id
            case None => index !in UpsertedIds(list)
  {
    if k < |list| - 1 {
      LastUpsert(list[..|list| - 1], k);
      assert IndexOf(list[|list| - 1]) != IndexOf(list[k]);
    }
  }

  /** Nothing else is reported. */
  lemma {:induction false} OnlyUpserts(list: seq<Upsert>, index: int)
    requires forall j :: 0 <= j < |list| ==> Indexed(list[j])
    requires index in UpsertedIds(list)
    ensures exists k :: 0 <= k < |list| && list[k] == Upsert(Some(index), Some(UpsertedIds(list)[index]))
  {
    var init, last := list[..|list| - 1], list[|list| - 1];
    if IndexOf(last) == index {
      assert last == Upsert(Some(index), Some(UpsertedIds(list)[index]));
    } else {
      OnlyUpserts(init, index);
      var k :| 0 <= k < |init| && init[k] == Upsert(Some(index), Some(UpsertedIds(init)[index]));
      assert list[k] == init[k];
    }
  }

  function CountOf(reply: Reply, f: Field): int {
    if f in reply.counts && reply.counts[f].Some? then reply.counts[f].value else 0
  }

  function EntriesOf(reply: Reply): seq<Upsert> {
    if reply.upserted.Some? && reply.upserted.value.Upserts? then reply.upserted.value.list else []
  }

  /** The counter of a result that stands for a field. */
  function Counter(r: BulkResult, f: Field): int {
    match f
    case NRemoved => r.deleted
    case NInserted => r.inserted
    case NMatched => r.matched
    case NModified => r.modified
    case NUpserted => r.upserts
  }

  /** Numbers are reported as they are, and what is missing or no number is reported as zero. */
  ghost predicate Reported(reply: Reply, r: BulkResult) {
    && (forall f: Field, n: int :: f in reply.counts && reply.counts[f] == Some(n) ==> Counter(r, f) == n)
    && (forall f: Field :: f !in reply.counts || reply.counts[f] == None ==> Counter(r, f) == 0)
  }

  /** BulkWriteResult.init?(reply:insertedIDs:): nothing known in the reply, a bad upsert entry, or a result. */
  method FromReply(reply: Reply, ids: map<nat, Id>) returns (r: Parsed)
    ensures r == Unrecognized <==> reply.counts == map[] && reply.upserted == None
    ensures r == Malformed <==>
              exists list: seq<Upsert> :: reply.upserted == Some(Upserts(list)) && exists u <- list :: !Indexed(u)
    ensures r.Result? ==> r.value.ids == ids && Reported(reply, r.value)
    ensures r.Result? ==>
              r.value.upsertedIds == match reply.upserted
                                     case Some(Upserts(list)) => UpsertedIds(list)
                                     case _ => map[]
  {
    if reply.counts == map[] && reply.upserted == None {
      return Unrecognized;
    }
    var upsertedIds: map<int, Id> := map[];
    var list, i := EntriesOf(reply), 0;
    while i < |list|
      invariant 0 <= i <= |list| && forall j :: 0 <= j < i ==> Indexed(list[j])
      invariant upsertedIds == UpsertedIds(list[..i])
    {
      if list[i].NoDocument? || list[i].index.None? {
        assert list[i] in list && !Indexed(list[i]);
        return Malformed;
      }
      assert list[..i + 1][..i] == list[..i];
      upsertedIds := Assign(upsertedIds, IndexOf(list[i]), list[i].id);
      i := i + 1;
    }
    assert list[..i] == list;
    r := Result(BulkResult(CountOf(reply, NRemoved), CountOf(reply, NInserted), ids, CountOf(reply, NMatched),
                           CountOf(reply, NModified), CountOf(reply, NUpserted), upsertedIds));
  }
}
