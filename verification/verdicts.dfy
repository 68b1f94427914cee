/** The store of paid deliberations. */
module VerdictSpec {
  import opened Wrappers
  import opened Tally

  datatype Status = Pending | Completed | Failed

  /** Context and transaction hashes, which nothing below reads, are left out. */
  datatype VerdictRecord = VerdictRecord(
    id: string, proposal: string, stellarPaymentTx: Option<string>, nearProposalId: Option<nat>,
    status: Status, verdict: Option<TallyResult>, error: Option<string>,
    createdAt: int, completedAt: Option<int>)

  /** A field of a partial update: absent, or present with a value. */
  datatype Field<T> = Keep | To(value: T)
  datatype Updates = Updates(status: Field<Status>, verdict: Field<Option<TallyResult>>, error: Field<Option<string>>,
                             nearProposalId: Field<Option<nat>>, completedAt: Field<Option<int>>)

  /** Records in creation order, as the insertion-ordered map iterates. */
  datatype Store = Store(order: seq<string>, records: map<string, VerdictRecord>)

  function Put(s: Store, r: VerdictRecord): Store {
    Store(if r.id in s.records then s.order else s.order + [r.id], s.records[r.id := r])
  }

  function NewRecord(id: string, proposal: string, tx: Option<string>, now: int): VerdictRecord {
    VerdictRecord(id, proposal, tx, None, Pending, None, None, now, None)
  }

  function Over<T>(f: Field<T>, was: T): T { if f.To? then f.value else was }

  /** A zero time stamp counts as no time stamp. */
  predicate Stamped(completedAt: Option<int>) { completedAt.Some? && completedAt.value != 0 }

  function Merge(r: VerdictRecord, u: Updates, now: int): VerdictRecord {
    var m := r.(status := Over(u.status, r.status), verdict := Over(u.verdict, r.verdict),
                error := Over(u.error, r.error),
                nearProposalId := Over(u.nearProposalId, r.nearProposalId),
                completedAt := Over(u.completedAt, r.completedAt));
    if !Stamped(r.completedAt) && m.status != Pending then m.(completedAt := Some(now)) else m
  }

  ghost predicate Coherent(s: Store) {
    && Distinct(s.order) && (forall id :: id in s.order <==> id in s.records)
    && forall id :: id in s.records ==> s.records[id].id == id
  }

  function InOrder(s: Store): (rs: seq<VerdictRecord>)
    requires forall id :: id in s.order ==> id in s.records
    ensures |rs| == |s.order| && forall k :: 0 <= k < |rs| ==> rs[k] == s.records[s.order[k]]
  {
    seq(|s.order|, k requires 0 <= k < |s.order| => s.records[s.order[k]])
  }

  /** The stable sort by falling creation time. */
  function NewestFirst(rs: seq<VerdictRecord>): seq<VerdictRecord> {
    if rs == [] then [] else Place(NewestFirst(rs[..|rs| - 1]), rs[|rs| - 1])
  }

  function Place(sorted: seq<VerdictRecord>, r: VerdictRecord): seq<VerdictRecord> {
    if sorted == [] || sorted[0].createdAt < r.createdAt then [r] + sorted
    else [sorted[0]] + Place(sorted[1..], r)
  }

  ghost predicate Falling(rs: seq<VerdictRecord>) {
    forall i, j :: 0 <= i < j < |rs| ==> rs[i].createdAt >= rs[j].createdAt
  }

  /** The records of one millisecond, in their order. */
  function CreatedAt(rs: seq<VerdictRecord>, t: int): seq<VerdictRecord> {
    if rs == [] then [] else (if rs[0].createdAt == t then [rs[0]] else []) + CreatedAt(rs[1..], t)
  }

  lemma {:induction false} PlacePermutes(sorted: seq<VerdictRecord>, r: VerdictRecord)
    ensures multiset(Place(sorted, r)) == multiset(sorted) + multiset{r}
  {
    if sorted != [] {
      assert sorted == [sorted[0]] + sorted[1..];
      PlacePermutes(sorted[1..], r);
    }
  }

  lemma {:induction false} PlaceFalls(sorted: seq<VerdictRecord>, r: VerdictRecord, top: int)
    requires Falling(sorted) && r.createdAt <= top && forall k :: 0 <= k < |sorted| ==> sorted[k].createdAt <= top
    ensures Falling(Place(sorted, r))
    ensures forall k :: 0 <= k < |Place(sorted, r)| ==> Place(sorted, r)[k].createdAt <= top
  {
    if sorted != [] && sorted[0].createdAt >= r.createdAt { PlaceFalls(sorted[1..], r, sorted[0].createdAt); }
  }

  lemma {:induction false} PlaceKeepsTies(sorted: seq<VerdictRecord>, r: VerdictRecord, t: int)
    requires Falling(sorted)
    ensures CreatedAt(Place(sorted, r), t) == CreatedAt(sorted, t) + if r.createdAt == t then [r] else []
  {
    if sorted != [] && sorted[0].createdAt >= r.createdAt {
      PlaceKeepsTies(sorted[1..], r, t);
    } else {
      NoneLater(sorted, r, t);
      assert ([r] + sorted)[1..] == sorted;
    }
  }

  lemma {:induction false} NoneLater(sorted: seq<VerdictRecord>, r: VerdictRecord, t: int)
    requires forall k :: 0 <= k < |sorted| ==> sorted[k].createdAt < r.createdAt
    ensures r.createdAt == t ==> CreatedAt(sorted, t) == []
  {
    if sorted != [] { NoneLater(sorted[1..], r, t); }
  }

  lemma {:induction false} NewestFirstPermutes(rs: seq<VerdictRecord>)
    ensures multiset(NewestFirst(rs)) == multiset(rs)
  {
    if rs != [] {
      NewestFirstPermutes(rs[..|rs| - 1]);
      PlacePermutes(NewestFirst(rs[..|rs| - 1]), rs[|rs| - 1]);
      assert rs == rs[..|rs| - 1] + [rs[|rs| - 1]];
    }
  }

  lemma {:induction false} NewestFirstFalls(rs: seq<VerdictRecord>)
    ensures Falling(NewestFirst(rs))
  {
    if rs != [] {
      NewestFirstFalls(rs[..|rs| - 1]);
      var (sorted, last) := (NewestFirst(rs[..|rs| - 1]), rs[|rs| - 1]);
      PlaceFalls(sorted, last,
                 if sorted != [] && sorted[0].createdAt > last.createdAt then sorted[0].createdAt else last.createdAt);
    }
  }

  lemma {:induction false} NewestFirstKeepsTies(rs: seq<VerdictRecord>, t: int)
    ensures CreatedAt(NewestFirst(rs), t) == CreatedAt(rs, t)
  {
    if rs != [] {
      var (init, last) := (rs[..|rs| - 1], rs[|rs| - 1]);
      NewestFirstKeepsTies(init, t);
      NewestFirstFalls(init);
      PlaceKeepsTies(NewestFirst(init), last, t);
      CreatedAtSplit(init, last, t);
      assert rs == init + [last];
    }
  }

  /** `NewestFirst` rearranges the records, newest first, and keeps creation order within one millisecond. */
  lemma NewestFirstIsStableSort(rs: seq<VerdictRecord>)
    ensures Falling(NewestFirst(rs)) && multiset(NewestFirst(rs)) == multiset(rs)
    ensures forall t :: CreatedAt(NewestFirst(rs), t) == CreatedAt(rs, t)
  {
    NewestFirstPermutes(rs);
    NewestFirstFalls(rs);
    forall t
      ensures CreatedAt(NewestFirst(rs), t) == CreatedAt(rs, t)
    {
      NewestFirstKeepsTies(rs, t);
    }
  }

  lemma {:induction false} CreatedAtSplit(rs: seq<VerdictRecord>, r: VerdictRecord, t: int)
    ensures CreatedAt(rs + [r], t) == CreatedAt(rs, t) + if r.createdAt == t then [r] else []
  {
    if rs != [] {
      assert (rs + [r])[1..] == rs[1..] + [r];
      CreatedAtSplit(rs[1..], r, t);
    }
  }

  /** Falling order and equal content per millisecond leave no freedom. */
  lemma {:induction false} StableSortIsUnique(a: seq<VerdictRecord>, b: seq<VerdictRecord>)
    requires Falling(a) && Falling(b) && forall t :: CreatedAt(a, t) == CreatedAt(b, t)
    ensures a == b
  {
    EmptyTogether(a, b);
    EmptyTogether(b, a);
    if a != [] {
      HeadIsNewest(a, b);
      HeadIsNewest(b, a);
      assert CreatedAt(a, a[0].createdAt)[0] == a[0] && CreatedAt(b, b[0].createdAt)[0] == b[0];
      forall t
        ensures CreatedAt(a[1..], t) == CreatedAt(b[1..], t)
      {
        assert CreatedAt(a, t) == CreatedAt(b, t);
        TiesOfTail(a, t);
        TiesOfTail(b, t);
      }
      StableSortIsUnique(a[1..], b[1..]);
    }
  }

  lemma EmptyTogether(a: seq<VerdictRecord>, b: seq<VerdictRecord>)
    requires forall t :: CreatedAt(a, t) == CreatedAt(b, t)
    ensures b == [] ==> a == []
  {
    if a != [] { assert CreatedAt(a, a[0].createdAt) == CreatedAt(b, a[0].createdAt); }
  }

  lemma TiesOfTail(a: seq<VerdictRecord>, t: int)
    requires a != []
    ensures CreatedAt(a[1..], t) == if a[0].createdAt == t then CreatedAt(a, t)[1..] else CreatedAt(a, t)
  {
  }

  lemma HeadIsNewest(a: seq<VerdictRecord>, b: seq<VerdictRecord>)
    requires a != [] && Falling(b) && b != [] && forall t :: CreatedAt(a, t) == CreatedAt(b, t)
    ensures a[0].createdAt <= b[0].createdAt
  {
    var t := a[0].createdAt;
    assert CreatedAt(a, t) != [];
    hide CreatedAt;
    assert CreatedAt(b, t) != [];
    CreatedAtMember(b, t);
    var k :| 0 <= k < |b| && b[k].createdAt == t;
  }

  lemma {:induction false} CreatedAtMember(rs: seq<VerdictRecord>, t: int)
    ensures CreatedAt(rs, t) != [] ==> exists k :: 0 <= k < |rs| && rs[k].createdAt == t
  {
    if rs != [] {
      CreatedAtMember(rs[1..], t);
      if rs[0].createdAt == t { assert rs[0].createdAt == t; }
      else if CreatedAt(rs, t) != [] {
        var k :| 0 <= k < |rs[1..]| && rs[1..][k].createdAt == t;
        assert rs[k + 1].createdAt == t;
      }
    }
  }

  /**
   * A merge takes each field the update names from it and leaves the others; it
   * sets the completion time when the result is terminal and none was set before.
   */
  lemma MergeIsFieldwise(was: VerdictRecord, u: Updates, now: int)
    ensures var r := Merge(was, u, now);
            && r.id == was.id && r.proposal == was.proposal && r.stellarPaymentTx == was.stellarPaymentTx
            && r.createdAt == was.createdAt
            && r.status == (if u.status.To? then u.status.value else was.status)
            && r.verdict == (if u.verdict.To? then u.verdict.value else was.verdict)
            && r.error == (if u.error.To? then u.error.value else was.error)
            && r.nearProposalId == (if u.nearProposalId.To? then u.nearProposalId.value else was.nearProposalId)
            && r.completedAt == (if (was.completedAt.None? || was.completedAt == Some(0)) && r.status != Pending
                                 then Some(now)
                                 else if u.completedAt.To? then u.completedAt.value else was.completedAt)
  {
  }

  /**
   * Creating a record leaves every stored one as it is exactly if the generated id
   * is new, or names that same record.
   */
  lemma OnlyNewIdsLoseNothing(s: Store, id: string, proposal: string, tx: Option<string>, now: int)
    ensures var r := NewRecord(id, proposal, tx, now);
            (forall k :: k in s.records ==> Put(s, r).records[k] == s.records[k]) <==>
            (id in s.records ==> s.records[id] == r)
  {
    var r := NewRecord(id, proposal, tx, now);
    assert Put(s, r).records[id] == r;
  }

  /** A merge takes a terminal record back to pending exactly when the update says so: nothing in it forbids that. */
  lemma TerminalSurvivesMerge(r: VerdictRecord, u: Updates, now: int)
    requires r.status != Pending
    ensures Merge(r, u, now).status == Pending <==> u.status == To(Pending)
  {
  }

  /**
   * The first time stamp stands under every update that does not name it; and a
   * record with its stamp in step with its status stays so, given a clock past
   * zero, exactly when the update does not resurrect a stamped record.
   */
  lemma StampFollowsStatus(r: VerdictRecord, u: Updates, now: int)
    requires u.completedAt.Keep? && now > 0 && (Stamped(r.completedAt) <==> r.status != Pending)
    ensures r.status != Pending ==> Merge(r, u, now).completedAt == r.completedAt
    ensures (Stamped(Merge(r, u, now).completedAt) <==> Merge(r, u, now).status != Pending) <==>
            !(r.status != Pending && u.status == To(Pending))
  {
  }
}

/** The module-level store as an object. */
module VerdictStoreClass {
  import opened Wrappers
  import opened VerdictSpec

  class VerdictStore {
    var order: seq<string>
    var records: map<string, VerdictRecord>

    ghost function View(): Store
      reads this
    {
      Store(order, records)
    }

    ghost predicate Valid()
      reads this
    {
      Coherent(View())
    }

    constructor ()
      ensures Valid() && View() == Store([], map[])
    {
      order, records := [], map[];
    }

    /** `id` is the generated one; nothing checks that it is new. */
    method CreateRecord(id: string, proposal: string, tx: Option<string>, now: int) returns (record: VerdictRecord)
      requires Valid()
      modifies this
      ensures Valid() && record == NewRecord(id, proposal, tx, now) && View() == Put(old(View()), record)
      ensures record == VerdictRecord(id, proposal, tx, None, Pending, None, None, now, None)
      ensures records == old(records)[id := record]
    {
      record := VerdictRecord(id, proposal, tx, None, Pending, None, None, now, None);
      if id !in records { order := order + [id]; }
      records := records[id := record];
    }

    method UpdateRecord(id: string, updates: Updates, now: int) returns (updated: Option<VerdictRecord>)
      requires Valid()
      modifies this
      ensures Valid() && (updated.Some? <==> id in old(records))
      ensures updated.Some? ==>
                && updated.value == Merge(old(records)[id], updates, now)
                && View() == Put(old(View()), updated.value)
      ensures updated.None? ==> View() == old(View())
      ensures updated.Some? ==> records == old(records)[id := updated.value]
    {
      if id !in records { return None; }
      var merged := records[id];
      if updates.status.To? { merged := merged.(status := updates.status.value); }
      if updates.verdict.To? { merged := merged.(verdict := updates.verdict.value); }
      if updates.error.To? { merged := merged.(error := updates.error.value); }
      if updates.nearProposalId.To? { merged := merged.(nearProposalId := updates.nearProposalId.value); }
      if updates.completedAt.To? { merged := merged.(completedAt := updates.completedAt.value); }
      if !Stamped(records[id].completedAt) && merged.status != Pending {
        merged := merged.(completedAt := Some(now));
      }
      records := records[id := merged];
      return Some(merged);
    }

    method GetRecord(id: string) returns (record: Option<VerdictRecord>)
      ensures record == if id in View().records then Some(View().records[id]) else None
    {
      record := if id in records then Some(records[id]) else None;
    }

    method ListRecords() returns (listed: seq<VerdictRecord>)
      requires Valid()
      ensures listed == NewestFirst(InOrder(View()))
    {
      listed := NewestFirst(InOrder(Store(order, records)));
    }
  }
}

/** Paid requests, their background runs and their timers, interleaved in any order. */
module Deliberations {
  import opened Wrappers
  import opened Tally
  import opened JsText
  import opened VerdictSpec

  /** How the coordination behind one deliberation ends. */
  datatype Outcome = Tallied(tally: TallyResult, proposalId: nat) | NoTally | Threw(message: string)

  const NO_TALLY: string :=
    "Coordination returned null (timeout, insufficient workers, or contract resume failed "
    + "— check coordinator logs)"

  function UpdatesFor(o: Outcome): Updates {
    match o
    case Tallied(t, proposalId) => Updates(To(Completed), To(Some(t)), Keep, To(Some(proposalId)), Keep)
    case NoTally => Updates(To(Failed), Keep, To(Some(NO_TALLY)), Keep, Keep)
    case Threw(message) => Updates(To(Failed), Keep, To(Some(message)), Keep, Keep)
  }

  /** The race between the background run, with the record it returned, and the await timer. */
  datatype Race = Undecided | ByRun(result: Option<VerdictRecord>) | ByTimer

  datatype Reply = Full(code: nat, record: VerdictRecord) | Poll(id: string, tx: Option<string>, createdAt: int)

  /** `created` is the handler's own reference to the record it made. */
  datatype Request = Request(created: VerdictRecord, running: bool, race: Race, reply: Option<Reply>)

  datatype World = World(store: Store, requests: map<string, Request>)

  datatype Event =
    | Posts(id: string, proposal: string, tx: Option<string>, now: int)
    | Finishes(id: string, outcome: Outcome, now: int)
    | TimerFires(id: string)
    | Replies(id: string)

  const Nothing := World(Store([], map[]), map[])

  /** A blank or overlong proposal is turned away before anything is stored. */
  predicate Acceptable(proposal: string) { 0 < |Trim(proposal)| <= 8000 }

  function ReplyOf(q: Request): Reply {
    var finished := if q.race.ByRun? then q.race.result else None;
    if finished.Some? && finished.value.status == Completed then Full(200, finished.value)
    else if finished.Some? && finished.value.status == Failed then Full(422, finished.value)
    else Poll(q.created.id, q.created.stellarPaymentTx, q.created.createdAt)
  }

  /** Generated ids are new, a run ends once, the clock is past zero, a reply follows a decided race. */
  predicate Possible(w: World, e: Event) {
    match e
    case Posts(id, _, _, _) => id !in w.store.records
    case Finishes(id, _, now) => id in w.requests && w.requests[id].running && now > 0
    case TimerFires(id) => id in w.requests && w.requests[id].race.Undecided?
    case Replies(id) => id in w.requests && !w.requests[id].race.Undecided? && w.requests[id].reply.None?
  }

  function Next(w: World, e: Event): World {
    if !Possible(w, e) then w
    else
      match e
      case Posts(id, proposal, tx, now) =>
        if !Acceptable(proposal) then w
        else
          var r := NewRecord(id, Trim(proposal), tx, now);
          World(Put(w.store, r), w.requests[id := Request(r, true, Undecided, None)])
      case Finishes(id, outcome, now) =>
        var q := w.requests[id];
        if id !in w.store.records then w.(requests := w.requests[id := Finished(q, None)])
        else
          var r := Merge(w.store.records[id], UpdatesFor(outcome), now);
          World(Put(w.store, r), w.requests[id := Finished(q, Some(r))])
      case TimerFires(id) => w.(requests := w.requests[id := w.requests[id].(race := ByTimer)])
      case Replies(id) => w.(requests := w.requests[id := w.requests[id].(reply := Some(ReplyOf(w.requests[id])))])
  }

  function Finished(q: Request, result: Option<VerdictRecord>): Request {
    q.(running := false, race := if q.race.Undecided? then ByRun(result) else q.race)
  }

  ghost function At(run: seq<Event>, n: nat): World
    requires n <= |run|
  {
    if n == 0 then Nothing else Next(At(run, n - 1), run[n - 1])
  }

  /** What the retrieval route answers, 404 being `None`. */
  function Retrieve(w: World, id: string): Option<(nat, VerdictRecord)> {
    if id !in w.store.records then None
    else
      var r := w.store.records[id];
      Some((match r.status case Pending => 202 case Failed => 422 case Completed => 200, r))
  }

  // ---------------------------------------------------------------- invariant

  ghost predicate Linked(r: VerdictRecord, q: Request) {
    && (r.status == Pending <==> q.running)
    && (r.status == Pending ==> r == q.created)
    && (r.completedAt.Some? <==> r.status != Pending) && (r.completedAt.Some? ==> r.completedAt.value > 0)
    && r.id == q.created.id && q.created == NewRecord(r.id, r.proposal, r.stellarPaymentTx, r.createdAt)
    && (q.race.Undecided? ==> q.running)
    && (q.race.ByRun? ==> q.race.result == Some(r) && r.status != Pending)
    && (q.reply.Some? ==> !q.race.Undecided? && q.reply.value == ReplyOf(q))
  }

  ghost predicate Inv(w: World) {
    && Coherent(w.store) && (forall id :: id in w.store.records <==> id in w.requests)
    && forall id :: id in w.requests ==> Linked(w.store.records[id], w.requests[id])
  }

  lemma StoreStep(w: World, e: Event)
    requires Inv(w)
    ensures var v := Next(w, e);
            Coherent(v.store) && forall id :: id in v.store.records <==> id in v.requests
  {
  }

  lemma LinkStep(w: World, e: Event, id: string)
    requires Inv(w) && id in Next(w, e).requests && id in Next(w, e).store.records
    ensures Linked(Next(w, e).store.records[id], Next(w, e).requests[id])
  {
    hide Next, Linked, Inv;
    if id == e.id { LinkOwn(w, e); } else { LinkOther(w, e, id); }
  }

  lemma LinkOther(w: World, e: Event, id: string)
    requires Inv(w) && id in Next(w, e).requests && id in Next(w, e).store.records && id != e.id
    ensures Linked(Next(w, e).store.records[id], Next(w, e).requests[id])
  {
    hide Linked;
  }

  lemma LinkOwn(w: World, e: Event)
    requires Inv(w) && e.id in Next(w, e).requests && e.id in Next(w, e).store.records
    ensures Linked(Next(w, e).store.records[e.id], Next(w, e).requests[e.id])
  {
    assert forall k :: k in w.store.records ==> w.store.records[k].id == k;
    hide Coherent;
  }

  lemma NextKeepsInv(w: World, e: Event)
    requires Inv(w)
    ensures Inv(Next(w, e))
  {
    StoreStep(w, e);
    forall id | id in Next(w, e).requests
      ensures Linked(Next(w, e).store.records[id], Next(w, e).requests[id])
    {
      LinkStep(w, e, id);
    }
    hide Next, Linked, Coherent;
  }

  lemma {:induction false} InvHolds(run: seq<Event>, n: nat)
    requires n <= |run|
    ensures Inv(At(run, n))
  {
    hide Next;
    if n > 0 {
      InvHolds(run, n - 1);
      NextKeepsInv(At(run, n - 1), run[n - 1]);
    }
  }

  /** Records stay in place; a terminal one and a given reply never change; a decided race stays decided. */
  ghost predicate Moves(w: World, v: World) {
    && w.store.order <= v.store.order
    && forall id :: id in w.store.records && id in w.requests ==>
         && id in v.store.records && id in v.requests && v.requests[id].created == w.requests[id].created
         && (w.store.records[id].status != Pending ==> v.store.records[id] == w.store.records[id])
         && (!w.requests[id].race.Undecided? ==> v.requests[id].race == w.requests[id].race)
         && (w.requests[id].reply.Some? ==> v.requests[id].reply == w.requests[id].reply)
  }

  lemma NextMoves(w: World, e: Event)
    requires Inv(w)
    ensures Moves(w, Next(w, e))
  {
  }

  /**
   * Every record leaves pending at most once and never changes afterwards, however
   * requests, runs and timers interleave.
   */
  lemma {:induction false} RecordsSettleOnce(run: seq<Event>, i: nat, j: nat)
    requires i <= j <= |run|
    ensures Moves(At(run, i), At(run, j))
  {
    InvHolds(run, i);
    if i < j {
      RecordsSettleOnce(run, i, j - 1);
      InvHolds(run, j - 1);
      NextMoves(At(run, j - 1), run[j - 1]);
      hide Next, Inv;
    }
  }

  /** A time stamp is set exactly while the record is terminal. */
  lemma {:induction false} CompletedAtExactlyWhenTerminal(run: seq<Event>, n: nat, id: string)
    requires n <= |run| && id in At(run, n).store.records
    ensures var r := At(run, n).store.records[id];
            && (Stamped(r.completedAt) <==> r.status != Pending) && (r.completedAt.Some? <==> r.status != Pending)
  {
    InvHolds(run, n);
  }

  /** An inline reply is final: every later retrieval answers with the same code and the same record. */
  lemma InlineRepliesAgree(run: seq<Event>, i: nat, j: nat, id: string)
    requires i <= j <= |run| && id in At(run, i).requests
    requires At(run, i).requests[id].reply.Some? && At(run, i).requests[id].reply.value.Full?
    ensures var reply := At(run, i).requests[id].reply.value;
            Retrieve(At(run, j), id) == Some((reply.code, reply.record)) && reply.code in {200, 422}
  {
    InvHolds(run, i);
    RecordsSettleOnce(run, i, j);
  }

  ghost predicate TimerBeatRun(run: seq<Event>, k: nat, id: string)
    requires k < |run|
  {
    run[k] == TimerFires(id) && id in At(run, k).store.records && At(run, k).store.records[id].status == Pending
  }

  ghost predicate TimerWon(run: seq<Event>, n: nat, id: string)
    requires n <= |run|
  {
    exists k: nat :: k < n && TimerBeatRun(run, k, id)
  }

  lemma {:induction false} RaceGoesToTheTimer(run: seq<Event>, n: nat, id: string)
    requires n <= |run| && id in At(run, n).requests
    ensures At(run, n).requests[id].race == ByTimer <==> TimerWon(run, n, id)
  {
    hide Next, Inv, Possible, Coherent;
    var w := At(run, n - 1);
    InvHolds(run, n - 1);
    if id in w.requests {
      SameRequests(w);
      RaceGoesToTheTimer(run, n - 1, id);
      RaceStep(w, run[n - 1], id);
      assert TimerBeatRun(run, n - 1, id) <==> run[n - 1] == TimerFires(id) && w.store.records[id].status == Pending;
      hide TimerBeatRun, Inv;
      assert TimerWon(run, n, id) <==> TimerWon(run, n - 1, id) || TimerBeatRun(run, n - 1, id);
    } else {
      NotYetPosted(run, n - 1, id);
    }
  }

  /** The buyer is told to poll exactly when the timer fired while the deliberation was still pending. */
  lemma PolledExactlyWhenTimerWins(run: seq<Event>, n: nat, id: string)
    requires n <= |run| && id in At(run, n).requests && At(run, n).requests[id].reply.Some?
    ensures At(run, n).requests[id].reply.value.Poll? <==> exists k: nat :: k < n && TimerBeatRun(run, k, id)
  {
    InvHolds(run, n);
    RaceGoesToTheTimer(run, n, id);
  }

  lemma RaceStep(w: World, e: Event, id: string)
    requires Inv(w) && id in w.requests
    ensures id in Next(w, e).requests
    ensures Next(w, e).requests[id].race == ByTimer <==>
            w.requests[id].race == ByTimer || (e == TimerFires(id) && w.store.records[id].status == Pending)
  {
  }

  lemma NotYetPosted(run: seq<Event>, n: nat, id: string)
    requires n < |run| && id !in At(run, n).requests
    ensures id in At(run, n + 1).requests ==> At(run, n + 1).requests[id].race.Undecided?
    ensures forall k: nat :: k <= n ==> !TimerBeatRun(run, k, id)
  {
    InvHolds(run, n);
    forall k: nat | k <= n
      ensures !TimerBeatRun(run, k, id)
    {
      InvHolds(run, k);
      RecordsSettleOnce(run, k, n);
    }
  }

  /** Event `k` ends the run of a deliberation that was pending. */
  ghost predicate SettledBy(run: seq<Event>, k: nat, id: string)
    requires k < |run|
  {
    run[k].Finishes? && run[k].id == id && Possible(At(run, k), run[k])
  }

  /** A terminal record is its creation record merged with the outcome of a run. */
  lemma TerminalRecordComesFromARun(run: seq<Event>, n: nat, id: string)
    requires n <= |run| && id in At(run, n).store.records && At(run, n).store.records[id].status != Pending
    ensures id in At(run, n).requests
    ensures exists k: nat :: k < n && SettledBy(run, k, id)
              && At(run, n).store.records[id]
                 == Merge(At(run, n).requests[id].created, UpdatesFor(run[k].outcome), run[k].now)
  {
    hide Next, Inv, Merge, At, Possible, UpdatesFor;
    var k := FirstTerminal(run, n, id);
    OneStep(run, k);
    InvHolds(run, k);
    InvHolds(run, n);
    InvHolds(run, k + 1);
    RecordsSettleOnce(run, k + 1, n);
    SameRequests(At(run, k + 1));
    SettlingStep(At(run, k), run[k], id);
    SameRequests(At(run, n));
    assert SettledBy(run, k, id);
  }

  lemma OneStep(run: seq<Event>, n: nat)
    requires n < |run|
    ensures At(run, n + 1) == Next(At(run, n), run[n])
  {
  }

  lemma SameRequests(w: World)
    requires Inv(w)
    ensures forall id :: id in w.store.records <==> id in w.requests
  {
  }

  /** Only one run ends for a deliberation. */
  lemma OneRunSettles(run: seq<Event>, i: nat, j: nat, id: string)
    requires i <= j < |run| && SettledBy(run, i, id) && SettledBy(run, j, id)
    ensures i == j
  {
    hide Next, Inv, Merge, At, Possible, UpdatesFor, Moves;
    if i < j {
      InvHolds(run, i);
      InvHolds(run, j);
      OneStep(run, i);
      RecordsSettleOnce(run, i + 1, j);
      SettlesForGood(At(run, i), run[i], At(run, j), run[j]);
    }
  }

  lemma SettlesForGood(w: World, e: Event, v: World, f: Event)
    requires Inv(w) && e.Finishes? && Possible(w, e)
    requires Inv(v) && Moves(Next(w, e), v) && f.Finishes? && f.id == e.id
    ensures !Possible(v, f)
  {
  }

  lemma SettlingStep(w: World, e: Event, id: string)
    requires Inv(w) && Inv(Next(w, e))
    requires id in w.store.records ==> w.store.records[id].status == Pending
    ensures id in Next(w, e).store.records && Next(w, e).store.records[id].status != Pending <==>
            e.Finishes? && e.id == id && Possible(w, e)
    ensures e.Finishes? && e.id == id && Possible(w, e) ==>
              && Next(w, e).store.records[id] == Merge(w.requests[id].created, UpdatesFor(e.outcome), e.now)
              && id in Next(w, e).requests && Next(w, e).requests[id].created == w.requests[id].created
  {
  }

  /** The event that made the record terminal. */
  ghost function FirstTerminal(run: seq<Event>, n: nat, id: string): (k: nat)
    requires n <= |run| && id in At(run, n).store.records && At(run, n).store.records[id].status != Pending
    ensures k < n && (id in At(run, k).store.records ==> At(run, k).store.records[id].status == Pending)
    ensures id in At(run, k + 1).store.records && At(run, k + 1).store.records[id].status != Pending
  {
    var w := At(run, n - 1);
    if id in w.store.records && w.store.records[id].status != Pending then FirstTerminal(run, n - 1, id) else n - 1
  }

  // ---------------------------------------------------------------- told from the events

  /** A request that is let in: its text, trimmed, is not empty and not too long. */
  ghost predicate LetsIn(e: Event, id: string) {
    e.Posts? && e.id == id && Trim(e.proposal) != "" && |Trim(e.proposal)| <= 8000
  }

  /** Event `p` is the first request let in under `id`. */
  ghost predicate PostedAt(run: seq<Event>, p: nat, id: string)
    requires p < |run|
  {
    LetsIn(run[p], id) && forall m: nat :: m < p ==> !LetsIn(run[m], id)
  }

  ghost predicate Ending(e: Event, id: string) {
    e.Finishes? && e.id == id && e.now > 0
  }

  /** Event `k` is the first end of a run for `id` after event `p`. */
  ghost predicate EndedAt(run: seq<Event>, p: nat, k: nat, id: string)
    requires k < |run|
  {
    p < k && Ending(run[k], id) && forall m: nat :: p < m < k ==> !Ending(run[m], id)
  }

  /** The record after a request. */
  ghost function Posted(e: Event): VerdictRecord
    requires e.Posts?
  {
    VerdictRecord(e.id, Trim(e.proposal), e.tx, None, Pending, None, None, e.now, None)
  }

  /** The record once a run has ended. */
  ghost function Settled(r: VerdictRecord, o: Outcome, now: int): VerdictRecord {
    match o
    case Tallied(t, n) =>
      r.(nearProposalId := Some(n), status := Completed, verdict := Some(t), completedAt := Some(now))
    case NoTally =>
      r.(status := Failed, completedAt := Some(now),
         error := Some("Coordination returned null (timeout, insufficient workers, or contract resume failed "
                       + "— check coordinator logs)"))
    case Threw(message) => r.(status := Failed, error := Some(message), completedAt := Some(now))
  }

  lemma OutcomeSettles(r: VerdictRecord, o: Outcome, now: int)
    requires !Stamped(r.completedAt)
    ensures Merge(r, UpdatesFor(o), now) == Settled(r, o, now)
    ensures Merge(r, UpdatesFor(o), now).id == r.id
  {
  }

  /** What one event does to the record of `id`, for a record as requests and runs leave it. */
  lemma RecordStep(w: World, e: Event, id: string)
    requires Inv(w)
    ensures var (was, now) := (w.store.records, Next(w, e).store.records);
            if LetsIn(e, id) && id !in was then id in now && now[id] == Posted(e)
            else if Ending(e, id) && id in was && was[id].status == Pending then
              id in now && now[id] == Settled(was[id], e.outcome, e.now)
            else (id in now <==> id in was) && (id in was ==> now[id] == was[id])
  {
    hide Trim, Merge, UpdatesFor, Settled;
    if e.Finishes? && e.id in w.requests && w.requests[e.id].running {
      assert Linked(w.store.records[e.id], w.requests[e.id]);
      OutcomeSettles(w.store.records[e.id], e.outcome, e.now);
    }
  }

  /**
   * A record is there exactly once a request under its id was let in; it is what
   * that request gave until a run ends for it, and from then on what the first
   * such end made of it.
   */
  lemma {:induction false} RecordFollowsEvents(run: seq<Event>, n: nat, id: string)
    requires n <= |run|
    ensures var records := At(run, n).store.records;
            && (id in records <==> exists p: nat :: p < n && PostedAt(run, p, id))
            && forall p: nat :: p < n && PostedAt(run, p, id) ==>
                 && id in records
                 && (forall k: nat :: k < n && EndedAt(run, p, k, id) ==>
                      records[id] == Settled(Posted(run[p]), run[k].outcome, run[k].now))
                 && ((forall k: nat :: k < n ==> !EndedAt(run, p, k, id)) ==> records[id] == Posted(run[p]))
  {
    hide At, Next, LetsIn, Ending, Posted, Settled, Inv;
    if n == 0 {
      NothingStored(run);
    } else {
      var m := n - 1;
      RecordFollowsEvents(run, m, id);
      InvHolds(run, m);
      OneStep(run, m);
      RecordStep(At(run, m), run[m], id);
      if id !in At(run, m).store.records {
        NotLetInYet(run, m, id);
        assert PostedAt(run, m, id) <==> LetsIn(run[m], id);
        assert forall k: nat :: k < n ==> !EndedAt(run, m, k, id);
      } else {
        var p: nat :| p < m && PostedAt(run, p, id);
        OnePost(run, p, id);
        RecordOnwards(run, m, id, p);
      }
    }
  }

  lemma NothingStored(run: seq<Event>)
    ensures At(run, 0).store.records == map[]
  {
  }

  lemma NotLetInYet(run: seq<Event>, n: nat, id: string)
    requires n <= |run| && forall p: nat :: p < n ==> !PostedAt(run, p, id)
    ensures forall p: nat :: p < n ==> !LetsIn(run[p], id)
  {
    hide LetsIn;
    if p: nat :| p < n && LetsIn(run[p], id) { FirstLetIn(run, p, id); }
  }

  lemma {:induction false} FirstLetIn(run: seq<Event>, n: nat, id: string)
    requires n < |run| && LetsIn(run[n], id)
    ensures exists p: nat :: p <= n && PostedAt(run, p, id)
    decreases n
  {
    hide LetsIn;
    if m: nat :| m < n && LetsIn(run[m], id) { FirstLetIn(run, m, id); } else { assert PostedAt(run, n, id); }
  }

  lemma OnePost(run: seq<Event>, p: nat, id: string)
    requires p < |run| && PostedAt(run, p, id)
    ensures forall q: nat :: q < |run| && PostedAt(run, q, id) ==> q == p
  {
    hide LetsIn;
  }

  /** One more event for a record that is there. */
  lemma RecordOnwards(run: seq<Event>, m: nat, id: string, p: nat)
    requires m < |run| && p < m && PostedAt(run, p, id) && id in At(run, m).store.records
    requires var r := At(run, m).store.records[id];
             && (forall k: nat :: k < m && EndedAt(run, p, k, id) ==>
                  r == Settled(Posted(run[p]), run[k].outcome, run[k].now))
             && ((forall k: nat :: k < m ==> !EndedAt(run, p, k, id)) ==> r == Posted(run[p]))
    requires var (was, now) := (At(run, m).store.records, At(run, m + 1).store.records);
             id in now && now[id] == if Ending(run[m], id) && was[id].status == Pending
                                     then Settled(was[id], run[m].outcome, run[m].now) else was[id]
    ensures var r := At(run, m + 1).store.records[id];
            && (forall k: nat :: k < m + 1 && EndedAt(run, p, k, id) ==>
                 r == Settled(Posted(run[p]), run[k].outcome, run[k].now))
            && ((forall k: nat :: k < m + 1 ==> !EndedAt(run, p, k, id)) ==> r == Posted(run[p]))
  {
    hide At, Trim, Settled;
    if k: nat :| k < m && EndedAt(run, p, k, id) {
      SettledIsTerminal(Posted(run[p]), run[k].outcome, run[k].now);
      assert !EndedAt(run, p, m, id);
    } else {
      NoEndYet(run, p, m, id);
      assert EndedAt(run, p, m, id) <==> Ending(run[m], id);
    }
  }

  lemma SettledIsTerminal(r: VerdictRecord, o: Outcome, now: int)
    ensures Settled(r, o, now).status != Pending
  {
  }

  lemma {:induction false} NoEndYet(run: seq<Event>, p: nat, n: nat, id: string)
    requires p < n <= |run| && forall k: nat :: k < n ==> !EndedAt(run, p, k, id)
    ensures forall k: nat :: p < k < n ==> !Ending(run[k], id)
  {
    hide Ending;
    if p + 1 < n {
      NoEndYet(run, p, n - 1, id);
      assert !EndedAt(run, p, n - 1, id);
    }
  }

  // ---------------------------------------------------------------- replies

  /** A reply to poll names the deliberation, its payment and its creation, an inline one the code of its status. */
  lemma RepliesSayWhatIsStored(run: seq<Event>, n: nat, id: string)
    requires n <= |run| && id in At(run, n).requests && At(run, n).requests[id].reply.Some?
    ensures id in At(run, n).store.records
    ensures var (reply, r) := (At(run, n).requests[id].reply.value, At(run, n).store.records[id]);
            && r.id == id
            && (reply.Poll? ==> reply == Poll(r.id, r.stellarPaymentTx, r.createdAt))
            && (reply.Full? ==> reply == Full(if r.status == Completed then 200 else 422, r) && r.status != Pending)
  {
    InvHolds(run, n);
  }

  /** Once the race is decided, the handler replies. */
  lemma RepliesOnceDecided(run: seq<Event>, n: nat, id: string)
    requires n < |run| && run[n] == Replies(id) && id in At(run, n).requests
    requires At(run, n).requests[id].race != Undecided
    ensures id in At(run, n + 1).requests && At(run, n + 1).requests[id].reply.Some?
  {
    OneStep(run, n);
    hide At;
  }

  /** An undecided race is decided by the end of the run or by the timer, whichever comes. */
  lemma RaceIsDecided(run: seq<Event>, n: nat, id: string)
    requires n < |run| && id in At(run, n).requests && At(run, n).requests[id].race == Undecided
    ensures id in At(run, n + 1).requests
    ensures At(run, n + 1).requests[id].race != Undecided <==> run[n] == TimerFires(id) || Ending(run[n], id)
  {
    InvHolds(run, n);
    OneStep(run, n);
    hide At;
  }

  /** The retrieval route answers 404, 202, 422 or 200 as the record is missing, pending, failed or completed. */
  lemma RetrievalCodes(w: World, id: string)
    ensures Retrieve(w, id)
            == if id !in w.store.records then None
               else
                 var r := w.store.records[id];
                 Some((if r.status == Pending then 202 else if r.status == Failed then 422 else 200, r))
  {
  }
}
