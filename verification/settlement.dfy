/**
 * The settlement protocol: the coordinator contract together with the runtime's
 * table of yielded promises, driven by an arbitrary interleaving of public
 * calls, timeouts and callback deliveries.
 */
module Settlement {
  import opened Wrappers
  import opened CoordinatorSpec

  /** First resume wins; a fired timeout beats every later resume; one callback per yield. */
  datatype YieldStatus = Pending | ResumedWith(data: string) | TimeoutFired | Delivered
  datatype Yield = Yield(proposal: nat, status: YieldStatus)
  datatype World = World(contract: State, promises: map<nat, Yield>)

  datatype Event =
    | SetsManifesto(caller: AccountId, text: string)
    | Starts(caller: AccountId, taskConfig: string, expected: u8, quorum: u8, yieldId: nat, now: nat)
    | Records(caller: AccountId, id: nat, subs: seq<SubmissionInput>, now: nat)
    | Resumes(caller: AccountId, id: nat, result: string, configHash: string, resultHash: string)
    | Approves(caller: AccountId, codehash: string)
    | Removes(caller: AccountId, codehash: string)
    | Registers(caller: AccountId, checksum: string, codehash: string)
    | Clears(caller: AccountId, id: nat)
    | Transfers(caller: AccountId, newOwner: AccountId)
    | TimesOut(yieldId: nat)
    | Delivers(yieldId: nat)
    | Reads  // a view call

  function Commit(w: World, r: Option<State>): World {
    if r.Some? then w.(contract := r.value) else w
  }

  /** `promise_yield_resume`: takes effect on a pending yield only. */
  function ResumeYield(promises: map<nat, Yield>, y: nat, data: string): map<nat, Yield> {
    if y in promises && promises[y].status.Pending?
    then promises[y := promises[y].(status := ResumedWith(data))]
    else promises
  }

  /** The runtime never hands out a yield identifier twice. */
  function Begin(hash: Hasher, w: World, e: Event): World
    requires e.Starts?
  {
    var r := Start(hash, w.contract, e.caller, e.taskConfig, e.expected, e.quorum, e.yieldId, e.now);
    if r.None? || e.yieldId in w.promises then w
    else World(r.value, w.promises[e.yieldId := Yield(r.value.currentId, Pending)])
  }

  function Resume(hash: Hasher, w: World, e: Event): World
    requires e.Resumes?
  {
    if ResumeAccepted(hash, w.contract, e.caller, e.id, e.result, e.configHash, e.resultHash)
    then w.(promises := ResumeYield(w.promises, w.contract.proposals[e.id].yieldId, e.result))
    else w
  }

  function FireTimeout(w: World, y: nat): World {
    if y in w.promises && w.promises[y].status.Pending?
    then w.(promises := w.promises[y := w.promises[y].(status := TimeoutFired)])
    else w
  }

  function Deliver(w: World, y: nat): World {
    if y in w.promises && (w.promises[y].status.ResumedWith? || w.promises[y].status.TimeoutFired?) then
      var entry := w.promises[y];
      var response := if entry.status.ResumedWith? then Some(entry.status.data) else None;
      World(Callback(w.contract, entry.proposal, response), w.promises[y := entry.(status := Delivered)])
    else w
  }

  /** Calls by the owner that change neither a proposal nor a yield, except that clearing drops a proposal. */
  function Administer(w: World, e: Event): Option<State> {
    match e
    case SetsManifesto(caller, text) => SetManifesto(w.contract, caller, text)
    case Approves(caller, codehash) => ApproveCodehash(w.contract, caller, codehash)
    case Removes(caller, codehash) => RemoveCodehash(w.contract, caller, codehash)
    case Registers(caller, checksum, codehash) => RegisterCoordinator(w.contract, caller, checksum, codehash)
    case Clears(caller, id) => ClearProposal(w.contract, caller, id)
    case Transfers(caller, newOwner) => TransferOwnership(w.contract, caller, newOwner)
    case _ => None
  }

  ghost function Step(hash: Hasher, w: World, e: Event): World {
    match e
    case Starts(_, _, _, _, _, _) => Begin(hash, w, e)
    case Records(caller, id, subs, now) => Commit(w, Record(w.contract, caller, id, subs, now))
    case Resumes(_, _, _, _, _) => Resume(hash, w, e)
    case TimesOut(y) => FireTimeout(w, y)
    case Delivers(y) => Deliver(w, y)
    case _ => Commit(w, Administer(w, e))
  }

  /** The world after the first `n` events of a run on a fresh deployment. */
  ghost function At(hash: Hasher, owner: AccountId, run: seq<Event>, n: nat): World
    requires n <= |run|
  {
    if n == 0 then World(InitialState(owner), map[])
    else Step(hash, At(hash, owner, run, n - 1), run[n - 1])
  }

  // ------------------------------------------------------- how proposals and yields are wired

  /** Every stored proposal owns exactly one yield, and no yield serves two proposals. */
  ghost predicate Wired(w: World) {
    && (forall id :: id in w.contract.proposals ==> WiredAt(w, id))
    && (forall y :: y in w.promises ==> 1 <= w.promises[y].proposal <= w.contract.currentId)
    && (forall y, z :: y in w.promises && z in w.promises && w.promises[y].proposal == w.promises[z].proposal ==>
         y == z)
  }

  ghost predicate WiredAt(w: World, id: nat)
    requires id in w.contract.proposals
  {
    var y := w.contract.proposals[id].yieldId;
    1 <= id <= w.contract.currentId && y in w.promises && w.promises[y].proposal == id
  }

  lemma RewiringNothing(w: World, v: World)
    requires Wired(w)
    requires v.contract.currentId == w.contract.currentId
    requires forall y :: y in v.promises <==> y in w.promises
    requires forall y :: y in w.promises ==> v.promises[y].proposal == w.promises[y].proposal
    requires forall id :: id in v.contract.proposals ==>
               id in w.contract.proposals && v.contract.proposals[id].yieldId == w.contract.proposals[id].yieldId
    ensures Wired(v)
  {
    forall id | id in v.contract.proposals
      ensures WiredAt(v, id)
    {
      assert WiredAt(w, id);
    }
  }

  // ------------------------------------------------------- one proposal seen alone

  /** A stored proposal together with the status of its yield. */
  datatype Slot = Gone | Held(p: Proposal, status: YieldStatus)

  ghost function SlotOf(w: World, id: nat): Slot
    requires Wired(w)
  {
    if id in w.contract.proposals then
      assert WiredAt(w, id);
      var p := w.contract.proposals[id];
      Held(p, w.promises[p.yieldId].status)
    else Gone
  }

  ghost predicate AcceptsRecord(c: State, e: Event, id: nat) {
    e.Records? && e.id == id && RecordAccepted(c, e.caller, id, e.subs)
  }

  ghost predicate AcceptsResume(hash: Hasher, c: State, e: Event, id: nat) {
    && e.Resumes? && e.id == id
    && ResumeAccepted(hash, c, e.caller, id, e.result, e.configHash, e.resultHash)
  }

  ghost predicate AcceptsClear(c: State, e: Event, id: nat) {
    e.Clears? && e.id == id && e.caller == c.owner
  }

  /** The life of one proposal: the only changes an event can make to its slot. */
  ghost predicate SlotMove(hash: Hasher, c: State, e: Event, id: nat, s: Slot, t: Slot) {
    || t == s
    || (t == Gone && AcceptsClear(c, e, id))
    || (s == Gone && id == c.currentId + 1 && e.Starts?
        && t == Held(Proposal(e.yieldId, e.taskConfig, hash(e.taskConfig), e.now, e.caller, Created,
                              e.expected, e.quorum, [], None), Pending))
    || (s.Held? && AcceptsRecord(c, e, id) && s.p.state == Created
        && |e.subs| % 0x100 == s.p.expectedWorkerCount && NoRepeats(s.p.submissions, e.subs)
        && t == s.(p := s.p.(state := WorkersCompleted, submissions := s.p.submissions + Stamp(e.subs, e.now))))
    || (s.Held? && s.status == Pending && AcceptsResume(hash, c, e, id) && s.p.state == WorkersCompleted
        && t == s.(status := ResumedWith(e.result)))
    || (s.Held? && s.status == Pending && e == TimesOut(s.p.yieldId) && t == s.(status := TimeoutFired))
    || (&& s.Held? && s.status == TimeoutFired && e == Delivers(s.p.yieldId)
        && t == Held(s.p.(state := TimedOut), Delivered))
    || (s.Held? && s.status.ResumedWith? && e == Delivers(s.p.yieldId)
        && t == Held(s.p.(state := Finalized, finalizedResult := Some(s.status.data)), Delivered))
  }

  /** What the runtime owes a proposal: a timeout of its pending yield fires, and what happened is delivered. */
  ghost predicate RuntimeActs(e: Event, s: Slot, t: Slot) {
    s.Held? ==>
      && (s.status == Pending && e == TimesOut(s.p.yieldId) ==> t == s.(status := TimeoutFired))
      && (s.status == TimeoutFired && e == Delivers(s.p.yieldId) ==> t == Held(s.p.(state := TimedOut), Delivered))
      && (s.status.ResumedWith? && e == Delivers(s.p.yieldId) ==>
            t == Held(s.p.(state := Finalized, finalizedResult := Some(s.status.data)), Delivered))
  }

  /** The wiring survives and the slot of `id` moves as one event allows. */
  ghost predicate GoodStep(hash: Hasher, w: World, e: Event, v: World, id: nat)
    requires Wired(w)
  {
    && Wired(v)
    && w.contract.currentId <= v.contract.currentId <= w.contract.currentId + 1
    && SlotMove(hash, w.contract, e, id, SlotOf(w, id), SlotOf(v, id))
    && RuntimeActs(e, SlotOf(w, id), SlotOf(v, id))
    && (AcceptsResume(hash, w.contract, e, id) && SlotOf(w, id).Held? && SlotOf(w, id).status == Pending ==>
          SlotOf(v, id) == SlotOf(w, id).(status := ResumedWith(e.result)))
    && (AcceptsResume(hash, w.contract, e, id) ==> SlotOf(w, id).Held?)
    && (AcceptsClear(w.contract, e, id) ==> SlotOf(v, id) == Gone)
  }

  lemma BeginKeepsWiring(hash: Hasher, w: World, e: Event)
    requires Wired(w) && e.Starts?
    ensures Wired(Begin(hash, w, e))
  {
    var v := Begin(hash, w, e);
    if v != w {
      forall k | k in v.contract.proposals
        ensures WiredAt(v, k)
      {
        if k != v.contract.currentId { assert WiredAt(w, k); }
      }
    }
  }

  /** A start fills the slot of the next id, or changes nothing. */
  lemma BegunSlotOf(hash: Hasher, w: World, e: Event, id: nat)
    requires Wired(w) && e.Starts? && Wired(Begin(hash, w, e))
    ensures var (v, c) := (Begin(hash, w, e), w.contract);
            && w.contract.currentId <= v.contract.currentId <= w.contract.currentId + 1
            && SlotOf(v, id) == if v != w && id == c.currentId + 1
                                then Held(Proposal(e.yieldId, e.taskConfig, hash(e.taskConfig), e.now, e.caller,
                                                   Created, e.expected, e.quorum, [], None), Pending)
                                else SlotOf(w, id)
    ensures id == w.contract.currentId + 1 ==> SlotOf(w, id) == Gone
  {
    if id in w.contract.proposals { assert WiredAt(w, id); }
    hide Wired;
  }

  lemma BeginIsGood(hash: Hasher, w: World, e: Event, id: nat)
    requires Wired(w) && e.Starts?
    ensures GoodStep(hash, w, e, Begin(hash, w, e), id)
  {
    BeginKeepsWiring(hash, w, e);
    BegunSlotOf(hash, w, e, id);
    hide Wired, Begin, SlotOf, RecordAccepted, ResumeAccepted;
  }

  lemma RecordIsGood(hash: Hasher, w: World, e: Event, id: nat)
    requires Wired(w) && e.Records?
    ensures GoodStep(hash, w, e, Commit(w, Record(w.contract, e.caller, e.id, e.subs, e.now)), id)
  {
    RewiringNothing(w, Commit(w, Record(w.contract, e.caller, e.id, e.subs, e.now)));
  }

  lemma ResumeIsGood(hash: Hasher, w: World, e: Event, id: nat)
    requires Wired(w) && e.Resumes?
    ensures GoodStep(hash, w, e, Resume(hash, w, e), id)
  {
    hide RecordAccepted;
    ResumeKeepsWiring(hash, w, e);
    hide Wired;
    if AcceptsResume(hash, w.contract, e, e.id) {
      ResumeMovesItsSlot(hash, w, e, id);
      assert AcceptsResume(hash, w.contract, e, id) ==> SlotOf(w, id).Held?;
      assert AcceptsResume(hash, w.contract, e, id) ==> SlotOf(w, id).p.state == WorkersCompleted;
      hide Resume, ResumeAccepted, SlotOf;
    } else {
      hide ResumeAccepted;
      assert Resume(hash, w, e) == w;
      hide Resume, SlotOf;
    }
  }

  lemma ResumeKeepsWiring(hash: Hasher, w: World, e: Event)
    requires Wired(w) && e.Resumes?
    ensures Wired(Resume(hash, w, e)) && Resume(hash, w, e).contract == w.contract
  {
    RewiringNothing(w, Resume(hash, w, e));
  }

  lemma ResumeMovesItsSlot(hash: Hasher, w: World, e: Event, id: nat)
    requires Wired(w) && e.Resumes? && Wired(Resume(hash, w, e)) && AcceptsResume(hash, w.contract, e, e.id)
    ensures var (s, t) := (SlotOf(w, id), SlotOf(Resume(hash, w, e), id));
            t == if id == e.id && s.Held? && s.status == Pending then s.(status := ResumedWith(e.result)) else s
  {
    hide RecordAccepted, NoRepeats;
    assert WiredAt(w, e.id);
    if id in w.contract.proposals { assert WiredAt(w, id); }
  }

  lemma TimeoutIsGood(hash: Hasher, w: World, e: Event, id: nat)
    requires Wired(w) && e.TimesOut?
    ensures GoodStep(hash, w, e, FireTimeout(w, e.yieldId), id)
  {
    RewiringNothing(w, FireTimeout(w, e.yieldId));
    if id in w.contract.proposals { assert WiredAt(w, id); }
  }

  lemma DeliverKeepsWiring(w: World, y: nat)
    requires Wired(w)
    ensures Wired(Deliver(w, y))
  {
    RewiringNothing(w, Deliver(w, y));
  }

  /** A delivery moves the slot whose yield it is, if there is something to deliver. */
  lemma DeliveredSlot(w: World, y: nat, id: nat)
    requires Wired(w) && Wired(Deliver(w, y))
    ensures var (s, t) := (SlotOf(w, id), SlotOf(Deliver(w, y), id));
            t == if s.Held? && s.p.yieldId == y && s.status == TimeoutFired
                 then Held(s.p.(state := TimedOut), Delivered)
                 else if s.Held? && s.p.yieldId == y && s.status.ResumedWith?
                 then Held(s.p.(state := Finalized, finalizedResult := Some(s.status.data)), Delivered)
                 else s
    ensures Deliver(w, y).contract.currentId == w.contract.currentId
  {
    if id in w.contract.proposals {
      assert WiredAt(w, id);
      assert y in w.promises && w.promises[y].proposal == id ==> w.contract.proposals[id].yieldId == y;
    }
    hide Wired;
  }

  lemma DeliverIsGood(hash: Hasher, w: World, e: Event, id: nat)
    requires Wired(w) && e.Delivers?
    ensures GoodStep(hash, w, e, Deliver(w, e.yieldId), id)
  {
    DeliverKeepsWiring(w, e.yieldId);
    DeliveredSlot(w, e.yieldId, id);
    hide Wired, Deliver, SlotOf, RecordAccepted, ResumeAccepted;
  }

  lemma AdministerIsGood(hash: Hasher, w: World, e: Event, id: nat)
    requires Wired(w) && !e.Starts? && !e.Records? && !e.Resumes? && !e.TimesOut? && !e.Delivers?
    ensures GoodStep(hash, w, e, Commit(w, Administer(w, e)), id)
  {
    hide GoodStep, Wired;
    if e.Clears? {
      ClearIsGood(hash, w, e, id);
    } else {
      OthersTouchNoProposal(w, e);
      hide Administer, Commit;
      SameProposalsIsGood(hash, w, e, Commit(w, Administer(w, e)), id);
    }
  }

  lemma OthersTouchNoProposal(w: World, e: Event)
    requires !e.Clears?
    ensures var v := Commit(w, Administer(w, e));
            && v.promises == w.promises && v.contract.proposals == w.contract.proposals
            && v.contract.currentId == w.contract.currentId
  {
  }

  lemma SameProposalsIsGood(hash: Hasher, w: World, e: Event, v: World, id: nat)
    requires Wired(w) && !e.Clears? && !e.Resumes? && !e.TimesOut? && !e.Delivers?
    requires v.promises == w.promises && v.contract.proposals == w.contract.proposals
    requires v.contract.currentId == w.contract.currentId
    ensures GoodStep(hash, w, e, v, id)
  {
    hide RecordAccepted, ResumeAccepted;
    RewiringNothing(w, v);
  }

  /** A clear drops exactly the proposal it names, if the owner calls it. */
  lemma ClearedSlot(w: World, e: Event, id: nat)
    requires Wired(w) && e.Clears?
    ensures var v := Commit(w, Administer(w, e));
            && Wired(v) && v.contract.currentId == w.contract.currentId
            && SlotOf(v, id) == if AcceptsClear(w.contract, e, id) then Gone else SlotOf(w, id)
  {
    hide SwapRemove;
    RewiringNothing(w, Commit(w, Administer(w, e)));
    hide Wired;
  }

  lemma ClearIsGood(hash: Hasher, w: World, e: Event, id: nat)
    requires Wired(w) && e.Clears?
    ensures GoodStep(hash, w, e, Commit(w, Administer(w, e)), id)
  {
    hide Wired, SlotOf, Administer, Commit, RecordAccepted, ResumeAccepted;
    ClearedSlot(w, e, id);
  }

  /** Whatever happens in the world, each proposal lives the life of a single slot. */
  lemma StepIsGood(hash: Hasher, w: World, e: Event, id: nat)
    requires Wired(w)
    ensures GoodStep(hash, w, e, Step(hash, w, e), id)
  {
    hide GoodStep, Begin, Commit, Record, Resume, FireTimeout, Deliver, Administer;
    match e
    case Starts(_, _, _, _, _, _) => BeginIsGood(hash, w, e, id);
    case Records(_, _, _, _) => RecordIsGood(hash, w, e, id);
    case Resumes(_, _, _, _, _) => ResumeIsGood(hash, w, e, id);
    case TimesOut(_) => TimeoutIsGood(hash, w, e, id);
    case Delivers(_) => DeliverIsGood(hash, w, e, id);
    case _ => AdministerIsGood(hash, w, e, id);
  }

  // ---------------------------------------------------------------- what a slot always satisfies

  predicate Terminal(s: ProposalState) { s == Finalized || s == TimedOut }

  ghost predicate DistinctWorkers(subs: seq<Submission>) {
    forall i, j :: 0 <= i < j < |subs| ==> subs[i].workerId != subs[j].workerId
  }

  ghost predicate SlotOk(hash: Hasher, s: Slot) {
    s.Held? ==>
      && s.p.configHash == hash(s.p.taskConfig)
      && (s.p.finalizedResult.Some? <==> s.p.state == Finalized)
      && DistinctWorkers(s.p.submissions)
      && (s.p.state == Created ==> s.p.submissions == [])
      && (s.p.state == WorkersCompleted || s.p.state == Finalized ==>
            |s.p.submissions| % 0x100 == s.p.expectedWorkerCount)
      && (Terminal(s.p.state) <==> s.status == Delivered)
      && (s.status.ResumedWith? ==> s.p.state == WorkersCompleted)
  }

  lemma MoveKeepsSlotOk(hash: Hasher, c: State, e: Event, id: nat, s: Slot, t: Slot)
    requires SlotOk(hash, s) && SlotMove(hash, c, e, id, s, t)
    ensures SlotOk(hash, t)
  {
  }

  /** Every world of every run is wired, and every proposal in it is consistent. */
  lemma {:induction false} RunIsConsistent(hash: Hasher, owner: AccountId, run: seq<Event>, n: nat, id: nat)
    requires n <= |run|
    ensures Wired(At(hash, owner, run, n))
    ensures SlotOk(hash, SlotOf(At(hash, owner, run, n), id))
    ensures n > 0 ==>
              && Wired(At(hash, owner, run, n - 1))
              && GoodStep(hash, At(hash, owner, run, n - 1), run[n - 1], At(hash, owner, run, n), id)
  {
    hide Step;
    if n > 0 {
      var w, v := At(hash, owner, run, n - 1), At(hash, owner, run, n);
      RunIsConsistent(hash, owner, run, n - 1, id);
      StepIsGood(hash, w, run[n - 1], id);
      MoveKeepsSlotOk(hash, w.contract, run[n - 1], id, SlotOf(w, id), SlotOf(v, id));
    }
  }

  ghost function ContractAt(hash: Hasher, owner: AccountId, run: seq<Event>, n: nat): State
    requires n <= |run|
  {
    At(hash, owner, run, n).contract
  }

  ghost function SlotAt(hash: Hasher, owner: AccountId, run: seq<Event>, n: nat, id: nat): Slot
    requires n <= |run|
  {
    RunIsConsistent(hash, owner, run, n, id);
    SlotOf(At(hash, owner, run, n), id)
  }

  lemma NothingAtFirst(hash: Hasher, owner: AccountId, run: seq<Event>, id: nat)
    ensures SlotAt(hash, owner, run, 0, id) == Gone && ContractAt(hash, owner, run, 0).currentId == 0
  {
  }

  /** One event of a run, as the slot of `id` sees it. */
  lemma SlotAdvances(hash: Hasher, owner: AccountId, run: seq<Event>, n: nat, id: nat)
    requires n < |run|
    ensures var (c, s, t) := (ContractAt(hash, owner, run, n), SlotAt(hash, owner, run, n, id),
                              SlotAt(hash, owner, run, n + 1, id));
            && SlotOk(hash, s) && SlotOk(hash, t)
            && c.currentId <= ContractAt(hash, owner, run, n + 1).currentId <= c.currentId + 1
            && (s.Held? ==> 1 <= id <= c.currentId)
            && SlotMove(hash, c, run[n], id, s, t)
            && RuntimeActs(run[n], s, t)
            && (AcceptsResume(hash, c, run[n], id) ==>
                  && s.Held?
                  && (s.status == Pending ==> t == s.(status := ResumedWith(run[n].result))))
            && (AcceptsClear(c, run[n], id) ==> t == Gone)
  {
    hide Step, SlotMove, SlotOk, RuntimeActs, ResumeAccepted;
    RunIsConsistent(hash, owner, run, n, id);
    RunIsConsistent(hash, owner, run, n + 1, id);
    if id in ContractAt(hash, owner, run, n).proposals { assert WiredAt(At(hash, owner, run, n), id); }
  }

  // ---------------------------------------------------------------- lifecycle

  /** What a proposal can look like at any later time. */
  ghost predicate Evolves(p: Proposal, q: Proposal) {
    && q == p.(state := q.state, submissions := q.submissions, finalizedResult := q.finalizedResult)
    && (p.state != Created ==> q.submissions == p.submissions)
    && (p.state == WorkersCompleted ==> q.state != Created)
    && (p.state == q.state || Terminal(p.state) ==> q == p)
  }

  /**
   * A stored proposal only moves forward: its terms never change, recorded
   * submissions are frozen, terminal proposals never change, and an identifier
   * once handed out and now absent stays absent, so it is never reused.
   */
  lemma {:induction false} ProposalsOnlyMoveForward(
    hash: Hasher, owner: AccountId, run: seq<Event>, i: nat, j: nat, id: nat)
    requires i <= j <= |run|
    requires 1 <= id <= ContractAt(hash, owner, run, i).currentId
    ensures id <= ContractAt(hash, owner, run, j).currentId
    ensures var (s, t) := (SlotAt(hash, owner, run, i, id), SlotAt(hash, owner, run, j, id));
            t.Held? ==> s.Held? && Evolves(s.p, t.p)
  {
    hide At, SlotOf;
    if i < j {
      ProposalsOnlyMoveForward(hash, owner, run, i, j - 1, id);
      SlotAdvances(hash, owner, run, j - 1, id);
    }
  }

  /** Event `n` is the owner clearing proposal `id`. */
  ghost predicate ClearsAt(hash: Hasher, owner: AccountId, run: seq<Event>, n: nat, id: nat)
    requires n < |run|
  {
    AcceptsClear(ContractAt(hash, owner, run, n), run[n], id)
  }

  /** A stored proposal stays stored exactly until its owner clears it. */
  lemma {:induction false} HeldUntilCleared(hash: Hasher, owner: AccountId, run: seq<Event>, i: nat, j: nat, id: nat)
    requires i <= j <= |run| && SlotAt(hash, owner, run, i, id).Held?
    ensures SlotAt(hash, owner, run, j, id).Held? <==>
            forall k: nat :: i <= k < j ==> !ClearsAt(hash, owner, run, k, id)
  {
    hide At, SlotOf, RecordAccepted, ResumeAccepted, SlotOk;
    if i < j {
      HeldUntilCleared(hash, owner, run, i, j - 1, id);
      SlotAdvances(hash, owner, run, i, id);
      ProposalsOnlyMoveForward(hash, owner, run, i, j - 1, id);
      SlotAdvances(hash, owner, run, j - 1, id);
      var s, t := SlotAt(hash, owner, run, j - 1, id), SlotAt(hash, owner, run, j, id);
      assert t.Held? <==> s.Held? && !ClearsAt(hash, owner, run, j - 1, id);
      hide ClearsAt;
    }
  }

  /**
   * The state changes one event can make: Created, WorkersCompleted, Finalized in
   * order, or a timeout from a live state.
   */
  lemma StatesMoveInOrder(hash: Hasher, owner: AccountId, run: seq<Event>, n: nat, id: nat)
    requires n < |run|
    ensures var (s, t) := (SlotAt(hash, owner, run, n, id), SlotAt(hash, owner, run, n + 1, id));
            && (s == Gone && t.Held? ==> t.p.state == Created && id == ContractAt(hash, owner, run, n).currentId + 1)
            && (s.Held? && t.Held? && s.p.state != t.p.state ==>
                  (s.p.state, t.p.state) in {(Created, WorkersCompleted), (WorkersCompleted, Finalized),
                                             (Created, TimedOut), (WorkersCompleted, TimedOut)})
            && (t.Held? ==> (t.p.finalizedResult.Some? <==> t.p.state == Finalized))
            && (t.Held? ==> t.p.configHash == hash(t.p.taskConfig))
  {
    hide At, SlotOf;
    SlotAdvances(hash, owner, run, n, id);
  }

  // ------------------------------------------------------- settles at most once

  /** Event `n` takes proposal `id` from a live state to a terminal one. */
  ghost predicate SettlesAt(hash: Hasher, owner: AccountId, run: seq<Event>, n: nat, id: nat)
    requires n < |run|
  {
    var (s, t) := (SlotAt(hash, owner, run, n, id), SlotAt(hash, owner, run, n + 1, id));
    s.Held? && t.Held? && !Terminal(s.p.state) && Terminal(t.p.state)
  }

  /**
   * A proposal settles exactly when the runtime delivers its yield after a resume
   * or a timeout: with the data resumed it is finalized, otherwise timed out, and
   * nothing else about it changes.
   */
  lemma SettlesExactlyOnDelivery(hash: Hasher, owner: AccountId, run: seq<Event>, n: nat, id: nat)
    requires n < |run|
    ensures var (s, t) := (SlotAt(hash, owner, run, n, id), SlotAt(hash, owner, run, n + 1, id));
            && (SettlesAt(hash, owner, run, n, id) <==>
                 s.Held? && run[n] == Delivers(s.p.yieldId) && (s.status.ResumedWith? || s.status == TimeoutFired))
            && (SettlesAt(hash, owner, run, n, id) && s.status.ResumedWith? ==>
                 t == Held(s.p.(state := Finalized, finalizedResult := Some(s.status.data)), Delivered))
            && (SettlesAt(hash, owner, run, n, id) && s.status == TimeoutFired ==>
                 t == Held(s.p.(state := TimedOut), Delivered))
  {
    hide At, SlotOf;
    SlotAdvances(hash, owner, run, n, id);
  }

  /** The timeout of a pending yield fires, and only then does a proposal's yield come to be timed out. */
  lemma TimeoutFiresExactly(hash: Hasher, owner: AccountId, run: seq<Event>, n: nat, id: nat)
    requires n < |run| && SlotAt(hash, owner, run, n, id).Held? && SlotAt(hash, owner, run, n, id).status == Pending
    ensures var (s, t) := (SlotAt(hash, owner, run, n, id), SlotAt(hash, owner, run, n + 1, id));
            t == s.(status := TimeoutFired) <==> run[n] == TimesOut(s.p.yieldId)
  {
    hide At, SlotOf;
    SlotAdvances(hash, owner, run, n, id);
  }

  lemma SettlesAtMostOnce(hash: Hasher, owner: AccountId, run: seq<Event>, i: nat, j: nat, id: nat)
    requires i < |run| && j < |run|
    requires SettlesAt(hash, owner, run, i, id) && SettlesAt(hash, owner, run, j, id)
    ensures i == j
  {
    hide At, SlotOf;
    if i != j {
      var first, second := if i < j then i else j, if i < j then j else i;
      SlotAdvances(hash, owner, run, first, id);
      ProposalsOnlyMoveForward(hash, owner, run, first + 1, second, id);
    }
  }

  // ---------------------------------------------------------------- provenance

  /** Event `n` is an accepted submission record for `id`, its caller approved at that moment. */
  ghost predicate RecordsAt(hash: Hasher, owner: AccountId, run: seq<Event>, n: nat, id: nat)
    requires n < |run|
  {
    AcceptsRecord(ContractAt(hash, owner, run, n), run[n], id)
  }

  /** Event `n` is an accepted resume of `id`, its caller approved and both hashes matching at that moment. */
  ghost predicate ResumesAt(hash: Hasher, owner: AccountId, run: seq<Event>, n: nat, id: nat)
    requires n < |run|
  {
    AcceptsResume(hash, ContractAt(hash, owner, run, n), run[n], id)
  }

  ghost predicate FirstResume(hash: Hasher, owner: AccountId, run: seq<Event>, n: nat, id: nat)
    requires n < |run|
  {
    ResumesAt(hash, owner, run, n, id) && forall m: nat :: m < n ==> !ResumesAt(hash, owner, run, m, id)
  }

  /** Recorded submissions are those of one earlier accepted call, in its order. */
  lemma {:induction false} RecordedBy(hash: Hasher, owner: AccountId, run: seq<Event>, n: nat, id: nat)
    requires n <= |run|
    requires SlotAt(hash, owner, run, n, id).Held?
    requires SlotAt(hash, owner, run, n, id).p.state in {WorkersCompleted, Finalized}
    ensures exists i: nat ::
              && i < n && RecordsAt(hash, owner, run, i, id)
              && SlotAt(hash, owner, run, n, id).p.submissions == Stamp(run[i].subs, run[i].now)
  {
    hide At, SlotOf, RecordAccepted;
    NothingAtFirst(hash, owner, run, id);
    SlotAdvances(hash, owner, run, n - 1, id);
    var s := SlotAt(hash, owner, run, n - 1, id);
    if s.Held? && s.p.state in {WorkersCompleted, Finalized} {
      RecordedBy(hash, owner, run, n - 1, id);
    } else {
      assert RecordsAt(hash, owner, run, n - 1, id);
    }
  }

  /** Before an identifier is handed out, no call about it is accepted. */
  lemma {:induction false} NoResumeYet(hash: Hasher, owner: AccountId, run: seq<Event>, i: nat, j: nat, id: nat)
    requires i <= j <= |run| && i < |run|
    requires id > ContractAt(hash, owner, run, j).currentId
    ensures !ResumesAt(hash, owner, run, i, id)
  {
    hide At, SlotOf, ResumeAccepted;
    SlotAdvances(hash, owner, run, i, id);
    if SlotAt(hash, owner, run, i, id).Held? { ProposalsOnlyMoveForward(hash, owner, run, i, j, id); }
  }

  /** A resumed yield carries the argument of the first accepted resume; a pending one has seen none. */
  lemma {:induction false} ResumedByFirst(hash: Hasher, owner: AccountId, run: seq<Event>, n: nat, id: nat)
    requires n <= |run|
    requires SlotAt(hash, owner, run, n, id).Held?
    ensures var status := SlotAt(hash, owner, run, n, id).status;
            && (status.ResumedWith? ==>
                  exists j: nat :: j < n && FirstResume(hash, owner, run, j, id) && run[j].result == status.data)
            && (status.Pending? ==> forall j: nat :: j < n ==> !ResumesAt(hash, owner, run, j, id))
  {
    hide At, SlotOf, ResumeAccepted, RecordAccepted;
    NothingAtFirst(hash, owner, run, id);
    SlotAdvances(hash, owner, run, n - 1, id);
    var s, t := SlotAt(hash, owner, run, n - 1, id), SlotAt(hash, owner, run, n, id);
    if s.Held? {
      ResumedByFirst(hash, owner, run, n - 1, id);
      if s.status == Pending && t.status.ResumedWith? {
        assert FirstResume(hash, owner, run, n - 1, id);
      }
    } else {
      forall j: nat | j < n
        ensures !ResumesAt(hash, owner, run, j, id)
      {
        NoResumeYet(hash, owner, run, j, n - 1, id);
      }
    }
  }

  /** Events `i`, `j`, `k` recorded, first resumed and settled proposal `id`. */
  ghost predicate SettledBy(hash: Hasher, owner: AccountId, run: seq<Event>, n: nat, id: nat, i: nat, j: nat, k: nat)
    requires n <= |run|
  {
    && i < j < k < n
    && RecordsAt(hash, owner, run, i, id)
    && FirstResume(hash, owner, run, j, id)
    && SettlesAt(hash, owner, run, k, id)
    && SlotAt(hash, owner, run, n, id).Held?
    && SlotAt(hash, owner, run, n, id).p.finalizedResult == Some(run[j].result)
  }

  /**
   * A finalized result is the argument of the first accepted resume, which came
   * after an accepted submission record and before the one settling callback.
   */
  lemma {:induction false} FinalizedProvenance(hash: Hasher, owner: AccountId, run: seq<Event>, n: nat, id: nat)
    requires n <= |run|
    requires SlotAt(hash, owner, run, n, id).Held? && SlotAt(hash, owner, run, n, id).p.state == Finalized
    ensures exists i: nat, j: nat, k: nat :: SettledBy(hash, owner, run, n, id, i, j, k)
  {
    hide At, SlotOf, ResumeAccepted, RecordAccepted;
    NothingAtFirst(hash, owner, run, id);
    SlotAdvances(hash, owner, run, n - 1, id);
    var s := SlotAt(hash, owner, run, n - 1, id);
    if s.p.state == Finalized {
      FinalizedProvenance(hash, owner, run, n - 1, id);
      var i: nat, j: nat, k: nat :| SettledBy(hash, owner, run, n - 1, id, i, j, k);
      assert SettledBy(hash, owner, run, n, id, i, j, k);
    } else {
      ResumedByFirst(hash, owner, run, n - 1, id);
      var j: nat :| j < n - 1 && FirstResume(hash, owner, run, j, id) && run[j].result == s.status.data;
      SlotAdvances(hash, owner, run, j, id);
      ResumeSeesRecord(hash, owner, run, j, id);
      RecordedBy(hash, owner, run, j, id);
      var i: nat :| i < j && RecordsAt(hash, owner, run, i, id);
      assert SettledBy(hash, owner, run, n, id, i, j, n - 1);
    }
  }

  lemma ResumeSeesRecord(hash: Hasher, owner: AccountId, run: seq<Event>, j: nat, id: nat)
    requires j < |run| && ResumesAt(hash, owner, run, j, id)
    ensures SlotAt(hash, owner, run, j, id).Held? && SlotAt(hash, owner, run, j, id).p.state == WorkersCompleted
  {
    hide At;
  }

  /** Conversely, an accepted resume that finds its yield pending fixes the outcome for good. */
  lemma {:induction false} PendingResumeDecides(
    hash: Hasher, owner: AccountId, run: seq<Event>, j: nat, n: nat, id: nat)
    requires j < n <= |run|
    requires ResumesAt(hash, owner, run, j, id) && SlotAt(hash, owner, run, j, id).status == Pending
    requires SlotAt(hash, owner, run, n, id).Held?
    ensures var t := SlotAt(hash, owner, run, n, id);
            if Terminal(t.p.state) then t.p.state == Finalized && t.p.finalizedResult == Some(run[j].result)
            else t.status == ResumedWith(run[j].result)
  {
    hide At, SlotOf, ResumeAccepted, RecordAccepted;
    SlotAdvances(hash, owner, run, n - 1, id);
    SlotAdvances(hash, owner, run, j, id);
    ProposalsOnlyMoveForward(hash, owner, run, j, n - 1, id);
    ProposalsOnlyMoveForward(hash, owner, run, n - 1, n, id);
    if j < n - 1 { PendingResumeDecides(hash, owner, run, j, n - 1, id); }
  }

  /** Once a timeout has fired first, the proposal can only end timed out, whatever is resumed later. */
  lemma {:induction false} FiredTimeoutDecides(
    hash: Hasher, owner: AccountId, run: seq<Event>, j: nat, n: nat, id: nat)
    requires j <= n <= |run|
    requires SlotAt(hash, owner, run, j, id).Held? && SlotAt(hash, owner, run, j, id).status == TimeoutFired
    requires SlotAt(hash, owner, run, n, id).Held?
    ensures var t := SlotAt(hash, owner, run, n, id);
            if Terminal(t.p.state) then t.p.state == TimedOut else t.status == TimeoutFired
  {
    hide At, SlotOf, ResumeAccepted, RecordAccepted;
    if j < n {
      SlotAdvances(hash, owner, run, j, id);
      SlotAdvances(hash, owner, run, n - 1, id);
      ProposalsOnlyMoveForward(hash, owner, run, j, n - 1, id);
      ProposalsOnlyMoveForward(hash, owner, run, n - 1, n, id);
      FiredTimeoutDecides(hash, owner, run, j, n - 1, id);
    } else {
      RunIsConsistent(hash, owner, run, j, id);
    }
  }

  /**
   * The outcome of an accepted resume, exactly: the first one finalizes its
   * proposal if and only if it came before the timeout fired.
   */
  lemma FirstResumeOutcome(hash: Hasher, owner: AccountId, run: seq<Event>, j: nat, n: nat, id: nat)
    requires j < n <= |run| && FirstResume(hash, owner, run, j, id)
    requires SlotAt(hash, owner, run, n, id).Held? && Terminal(SlotAt(hash, owner, run, n, id).p.state)
    ensures SlotAt(hash, owner, run, j, id).Held?
    ensures var (s, p) := (SlotAt(hash, owner, run, j, id), SlotAt(hash, owner, run, n, id).p);
            && (p.state == Finalized <==> s.status == Pending)
            && (p.state == Finalized ==> p.finalizedResult == Some(run[j].result))
  {
    hide At, SlotOf, ResumeAccepted, RecordAccepted;
    SlotAdvances(hash, owner, run, j, id);
    ResumeSeesRecord(hash, owner, run, j, id);
    ResumedByFirst(hash, owner, run, j, id);
    if SlotAt(hash, owner, run, j, id).status == Pending {
      PendingResumeDecides(hash, owner, run, j, n, id);
    } else {
      FiredTimeoutDecides(hash, owner, run, j, n, id);
    }
  }

  // ---------------------------------------------------------------- the nullifier

  ghost predicate DistinctInputs(subs: seq<SubmissionInput>) {
    forall i, j :: 0 <= i < j < |subs| ==> subs[i].workerId != subs[j].workerId
  }

  /** A batch meeting a proposal in Created whose submission list is still empty. */
  lemma RecordInWorld(hash: Hasher, w: World, e: Event)
    requires Wired(w) && Wired(Step(hash, w, e)) && e.Records? && SlotOk(hash, SlotOf(w, e.id))
    ensures var (s, t) := (SlotOf(w, e.id), SlotOf(Step(hash, w, e), e.id));
            && (AcceptsRecord(w.contract, e, e.id) <==>
                  && ApprovedCoordinator(w.contract, e.caller)
                  && s.Held? && s.p.state == Created
                  && |e.subs| % 0x100 == s.p.expectedWorkerCount && DistinctInputs(e.subs))
            && (AcceptsRecord(w.contract, e, e.id) ==>
                  t == s.(p := s.p.(state := WorkersCompleted, submissions := Stamp(e.subs, e.now))))
            && (!AcceptsRecord(w.contract, e, e.id) ==> Step(hash, w, e) == w)
  {
    if e.id in w.contract.proposals && w.contract.proposals[e.id].state == Created {
      assert [] + Stamp(e.subs, e.now) == Stamp(e.subs, e.now);
    }
  }

  /**
   * A submission record is all or nothing. It is accepted exactly from an
   * approved coordinator, for a proposal still in Created, with a count that
   * agrees modulo 256 and pairwise distinct workers; what is stored is the
   * batch in its order; and the count is the expected one exactly when it
   * stays below 256.
   */
  lemma RecordIsAllOrNothing(hash: Hasher, owner: AccountId, run: seq<Event>, n: nat, id: nat)
    requires n < |run| && run[n].Records? && run[n].id == id
    ensures var (s, t) := (SlotAt(hash, owner, run, n, id), SlotAt(hash, owner, run, n + 1, id));
            var subs := run[n].subs;
            && (RecordsAt(hash, owner, run, n, id) <==>
                  && ApprovedCoordinator(ContractAt(hash, owner, run, n), run[n].caller)
                  && s.Held? && s.p.state == Created
                  && |subs| % 0x100 == s.p.expectedWorkerCount && DistinctInputs(subs))
            && (RecordsAt(hash, owner, run, n, id) ==>
                  && t == s.(p := s.p.(state := WorkersCompleted, submissions := Stamp(subs, run[n].now)))
                  && (|subs| == s.p.expectedWorkerCount <==> |subs| < 0x100))
            && (!RecordsAt(hash, owner, run, n, id) ==> At(hash, owner, run, n + 1) == At(hash, owner, run, n))
  {
    hide Step, SlotOf, SlotOk, RecordAccepted, ApprovedCoordinator, DistinctInputs, Wired;
    RunIsConsistent(hash, owner, run, n, id);
    RunIsConsistent(hash, owner, run, n + 1, id);
    RecordInWorld(hash, At(hash, owner, run, n), run[n]);
  }

  /** No proposal is recorded twice, however many rounds try. */
  lemma RecordedAtMostOnce(hash: Hasher, owner: AccountId, run: seq<Event>, i: nat, j: nat, id: nat)
    requires i < |run| && j < |run|
    requires RecordsAt(hash, owner, run, i, id) && RecordsAt(hash, owner, run, j, id)
    ensures i == j
  {
    if i != j {
      var first, second := if i < j then i else j, if i < j then j else i;
      RecordIsAllOrNothing(hash, owner, run, first, id);
      RecordIsAllOrNothing(hash, owner, run, second, id);
      hide At, SlotOf, RecordAccepted;
      SlotAdvances(hash, owner, run, first, id);
      ProposalsOnlyMoveForward(hash, owner, run, first + 1, second, id);
    }
  }

  /** The truncated comparison does let a batch of 256 through where none was expected. */
  lemma TruncatedCountIsAccepted(s: State, caller: AccountId, id: nat)
    requires ApprovedCoordinator(s, caller) && id in s.proposals
    requires s.proposals[id].state == Created && s.proposals[id].submissions == []
    requires s.proposals[id].expectedWorkerCount == 0
    ensures exists subs: seq<SubmissionInput> :: |subs| == 0x100 && RecordAccepted(s, caller, id, subs)
  {
    var subs := seq(0x100, (i: int) requires 0 <= i < 0x100 => SubmissionInput([i as char], ""));
    assert forall i, j :: 0 <= i < j < |subs| ==> subs[i].workerId[0] != subs[j].workerId[0];
    assert RecordAccepted(s, caller, id, subs);
  }

  /** On a fresh deployment: 256 workers recorded for a proposal that expects none. */
  function OverfullRun(owner: AccountId, subs: seq<SubmissionInput>): seq<Event> {
    [SetsManifesto(owner, ""), Approves(owner, "code"), Registers(owner, "sum", "code"),
     Starts(owner, "", 0, 0, 1, 0), Records(owner, 1, subs, 0)]
  }

  lemma OverfullStart(hash: Hasher, owner: AccountId, subs: seq<SubmissionInput>)
    ensures var c := ContractAt(hash, owner, OverfullRun(owner, subs), 4);
            && ApprovedCoordinator(c, owner) && 1 in c.proposals
            && c.proposals[1] == Proposal(1, "", hash(""), 0, owner, Created, 0, 0, [], None)
  {
    var run := OverfullRun(owner, subs);
    var c := InitialState(owner);
    assert At(hash, owner, run, 1) == World(c.(manifesto := Some("")), map[]);
    assert At(hash, owner, run, 2) == World(c.(manifesto := Some(""), approved := {"code"}), map[]);
    assert At(hash, owner, run, 3).contract.manifesto == Some("");
    assert ApprovedCoordinator(At(hash, owner, run, 3).contract, owner);
  }

  lemma OverfullRecordIsAccepted(hash: Hasher, owner: AccountId)
    ensures exists subs: seq<SubmissionInput> ::
              |subs| == 0x100 && RecordsAt(hash, owner, OverfullRun(owner, subs), 4, 1)
  {
    OverfullStart(hash, owner, []);
    var c := ContractAt(hash, owner, OverfullRun(owner, []), 4);
    TruncatedCountIsAccepted(c, owner, 1);
    var subs: seq<SubmissionInput> :| |subs| == 0x100 && RecordAccepted(c, owner, 1, subs);
    OverfullStart(hash, owner, subs);
    hide At;
    assert RecordsAt(hash, owner, OverfullRun(owner, subs), 4, 1);
  }
}
