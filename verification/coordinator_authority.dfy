/**
 * Who may do what, when: owner, manifesto, codehashes and coordinators of the
 * contract, told from the calls of a run alone.
 */
module CoordinatorAuthority {
  import opened Wrappers
  import opened CoordinatorSpec
  import opened Settlement

  /** The account the deployment and the transfers so far made owner. */
  ghost function OwnerOf(owner: AccountId, run: seq<Event>, n: nat): AccountId
    requires n <= |run|
  {
    if n == 0 then owner
    else if run[n - 1].Transfers? && run[n - 1].caller == OwnerOf(owner, run, n - 1) then run[n - 1].newOwner
    else OwnerOf(owner, run, n - 1)
  }

  /** Event `k` is the owner approving or removing codehash `h`. */
  ghost predicate Decides(owner: AccountId, run: seq<Event>, k: nat, h: string)
    requires k < |run|
  {
    || (run[k].Approves? && run[k].codehash == h && run[k].caller == OwnerOf(owner, run, k))
    || (run[k].Removes? && run[k].codehash == h && run[k].caller == OwnerOf(owner, run, k))
  }

  /** The last decision about `h` is an approval. */
  ghost predicate HashApproved(owner: AccountId, run: seq<Event>, n: nat, h: string)
    requires n <= |run|
  {
    exists k: nat :: k < n && Decides(owner, run, k, h) && run[k].Approves?
      && forall m: nat :: k < m < n ==> !Decides(owner, run, m, h)
  }

  /** Event `k` is the owner registering as a coordinator, with a codehash approved by then. */
  ghost predicate RegistersAt(owner: AccountId, run: seq<Event>, k: nat, caller: AccountId)
    requires k < |run|
  {
    && run[k].Registers? && run[k].caller == caller == OwnerOf(owner, run, k)
    && HashApproved(owner, run, k, run[k].codehash)
  }

  /** Event `k` is the last such registration of `caller`. */
  ghost predicate LastRegistration(owner: AccountId, run: seq<Event>, n: nat, caller: AccountId, k: nat)
    requires n <= |run|
  {
    k < n && RegistersAt(owner, run, k, caller) && forall m: nat :: k < m < n ==> !RegistersAt(owner, run, m, caller)
  }

  /** Event `k` is the owner setting the manifesto. */
  ghost predicate SetsAt(owner: AccountId, run: seq<Event>, k: nat)
    requires k < |run|
  {
    run[k].SetsManifesto? && run[k].caller == OwnerOf(owner, run, k) && Utf8Len(run[k].text) <= 10000
  }

  ghost predicate LastSet(owner: AccountId, run: seq<Event>, n: nat, k: nat)
    requires n <= |run|
  {
    k < n && SetsAt(owner, run, k) && forall m: nat :: k < m < n ==> !SetsAt(owner, run, m)
  }

  // ---------------------------------------------------------------- one call

  /** What one event does to the four. */
  lemma AuthorityStep(hash: Hasher, w: World, e: Event)
    ensures var (c, d) := (w.contract, Step(hash, w, e).contract);
            && d.owner == (if e.Transfers? && e.caller == c.owner then e.newOwner else c.owner)
            && d.approved == (if e.Approves? && e.caller == c.owner then c.approved + {e.codehash}
                              else if e.Removes? && e.caller == c.owner then c.approved - {e.codehash} else c.approved)
            && d.coordinators == (if e.Registers? && e.caller == c.owner && e.codehash in c.approved
                                  then c.coordinators[e.caller := Worker(e.checksum, e.codehash)] else c.coordinators)
            && d.manifesto == (if e.SetsManifesto? && e.caller == c.owner && Utf8Len(e.text) <= 10000
                               then Some(e.text) else c.manifesto)
  {
    hide RecordAccepted, ResumeAccepted, SwapRemove, Utf8Len;
  }

  lemma AuthorityNext(hash: Hasher, owner: AccountId, run: seq<Event>, n: nat)
    requires n < |run|
    ensures ContractAt(hash, owner, run, n + 1) == Step(hash, At(hash, owner, run, n), run[n]).contract
    ensures ContractAt(hash, owner, run, 0) == InitialState(owner)
  {
    hide Step;
  }

  /** The owner is whoever the deployment and the transfers made it. */
  lemma {:induction false} OwnerFollowsTransfers(hash: Hasher, owner: AccountId, run: seq<Event>, n: nat)
    requires n <= |run|
    ensures ContractAt(hash, owner, run, n).owner == OwnerOf(owner, run, n)
  {
    if n > 0 {
      hide Step;
      OwnerFollowsTransfers(hash, owner, run, n - 1);
      AuthorityNext(hash, owner, run, n - 1);
      AuthorityStep(hash, At(hash, owner, run, n - 1), run[n - 1]);
    }
  }

  // ---------------------------------------------------------------- histories

  /** A codehash is approved exactly if the owner's last decision about it was an approval. */
  lemma {:induction false} ApprovedByLastDecision(hash: Hasher, owner: AccountId, run: seq<Event>, n: nat, h: string)
    requires n <= |run|
    ensures h in ContractAt(hash, owner, run, n).approved <==> HashApproved(owner, run, n, h)
  {
    hide At, Step, OwnerOf;
    if n == 0 {
      NothingYet(hash, owner, run);
    } else {
      ApprovedByLastDecision(hash, owner, run, n - 1, h);
      OwnerFollowsTransfers(hash, owner, run, n - 1);
      AuthorityNext(hash, owner, run, n - 1);
      AuthorityStep(hash, At(hash, owner, run, n - 1), run[n - 1]);
      DecisionStep(owner, run, n - 1, h);
      hide HashApproved;
    }
  }

  lemma NothingYet(hash: Hasher, owner: AccountId, run: seq<Event>)
    ensures ContractAt(hash, owner, run, 0) == State(owner, {}, map[], 0, [], map[], None)
  {
  }

  lemma DecisionStep(owner: AccountId, run: seq<Event>, n: nat, h: string)
    requires n < |run|
    ensures HashApproved(owner, run, n + 1, h) <==>
            if Decides(owner, run, n, h) then run[n].Approves? else HashApproved(owner, run, n, h)
  {
    hide OwnerOf, Decides;
    if HashApproved(owner, run, n + 1, h) {
      var k: nat :| k < n + 1 && Decides(owner, run, k, h) && run[k].Approves?
        && forall m: nat :: k < m < n + 1 ==> !Decides(owner, run, m, h);
      if k < n { assert HashApproved(owner, run, n, h); }
    }
  }

  /** A coordinator is registered exactly by its last registration, with what that gave. */
  lemma {:induction false} RegisteredByLast(hash: Hasher, owner: AccountId, run: seq<Event>, n: nat, caller: AccountId)
    requires n <= |run|
    ensures var c := ContractAt(hash, owner, run, n);
            && (caller in c.coordinators <==> exists k: nat :: LastRegistration(owner, run, n, caller, k))
            && (forall k: nat :: LastRegistration(owner, run, n, caller, k) ==>
                 caller in c.coordinators && c.coordinators[caller] == Worker(run[k].checksum, run[k].codehash))
  {
    hide At, Step, OwnerOf, HashApproved;
    if n == 0 {
      NothingYet(hash, owner, run);
    } else {
      var e := run[n - 1];
      RegisteredByLast(hash, owner, run, n - 1, caller);
      OwnerFollowsTransfers(hash, owner, run, n - 1);
      if e.Registers? { ApprovedByLastDecision(hash, owner, run, n - 1, e.codehash); }
      AuthorityNext(hash, owner, run, n - 1);
      AuthorityStep(hash, At(hash, owner, run, n - 1), e);
      RegistrationStep(owner, run, n - 1, caller);
      hide LastRegistration;
    }
  }

  lemma RegistrationStep(owner: AccountId, run: seq<Event>, n: nat, caller: AccountId)
    requires n < |run|
    ensures forall k: nat :: LastRegistration(owner, run, n + 1, caller, k) <==>
              if RegistersAt(owner, run, n, caller) then k == n else LastRegistration(owner, run, n, caller, k)
  {
    hide *;
    forall k: nat
      ensures LastRegistration(owner, run, n + 1, caller, k) <==>
              if RegistersAt(owner, run, n, caller) then k == n else LastRegistration(owner, run, n, caller, k)
    {
      OneRegistration(owner, run, n, caller, k);
    }
  }

  lemma OneRegistration(owner: AccountId, run: seq<Event>, n: nat, caller: AccountId, k: nat)
    requires n < |run|
    ensures LastRegistration(owner, run, n + 1, caller, k) <==>
            if RegistersAt(owner, run, n, caller) then k == n else LastRegistration(owner, run, n, caller, k)
  {
    hide RegistersAt;
  }

  /**
   * An account may record and resume at a moment exactly if its last registration
   * named a codehash about which the owner's last decision was an approval.
   */
  lemma ApprovedExactly(hash: Hasher, owner: AccountId, run: seq<Event>, n: nat, caller: AccountId)
    requires n <= |run|
    ensures ApprovedCoordinator(ContractAt(hash, owner, run, n), caller) <==>
            exists k: nat :: LastRegistration(owner, run, n, caller, k) && HashApproved(owner, run, n, run[k].codehash)
  {
    hide At, HashApproved, OwnerOf;
    RegisteredByLast(hash, owner, run, n, caller);
    if k: nat :| LastRegistration(owner, run, n, caller, k) {
      ApprovedByLastDecision(hash, owner, run, n, run[k].codehash);
      forall m: nat | LastRegistration(owner, run, n, caller, m)
        ensures m == k
      {
        assert !(m < k < n) && !(k < m < n);
      }
    }
  }

  /** The manifesto is the text the owner set last. */
  lemma {:induction false} ManifestoIsLastSet(hash: Hasher, owner: AccountId, run: seq<Event>, n: nat)
    requires n <= |run|
    ensures var c := ContractAt(hash, owner, run, n);
            && (c.manifesto.Some? <==> exists k: nat :: LastSet(owner, run, n, k))
            && (forall k: nat :: LastSet(owner, run, n, k) ==> c.manifesto == Some(run[k].text))
  {
    hide At, Step, OwnerOf, Utf8Len;
    if n == 0 {
      NothingYet(hash, owner, run);
    } else {
      ManifestoIsLastSet(hash, owner, run, n - 1);
      OwnerFollowsTransfers(hash, owner, run, n - 1);
      AuthorityNext(hash, owner, run, n - 1);
      AuthorityStep(hash, At(hash, owner, run, n - 1), run[n - 1]);
      assert ContractAt(hash, owner, run, n).manifesto
             == if SetsAt(owner, run, n - 1) then Some(run[n - 1].text)
                else ContractAt(hash, owner, run, n - 1).manifesto;
      var m := n - 1;
      SetStep(owner, run, m);
      hide LastSet, SetsAt;
      assert LastSet(owner, run, n, m) <==> SetsAt(owner, run, m);
      if k: nat :| LastSet(owner, run, m, k) { assert LastSet(owner, run, n, k) || SetsAt(owner, run, m); }
    }
  }

  lemma SetStep(owner: AccountId, run: seq<Event>, n: nat)
    requires n < |run|
    ensures forall k: nat :: LastSet(owner, run, n + 1, k) <==>
              if SetsAt(owner, run, n) then k == n else LastSet(owner, run, n, k)
  {
    hide SetsAt;
    forall k: nat
      ensures LastSet(owner, run, n + 1, k) <==> if SetsAt(owner, run, n) then k == n else LastSet(owner, run, n, k)
    {
      assert k < n ==> (LastSet(owner, run, n + 1, k) <==> LastSet(owner, run, n, k) && !SetsAt(owner, run, n));
    }
  }

  // ---------------------------------------------------------------- starting and resuming

  /**
   * A start is accepted exactly once a manifesto is set, with a config within the
   * limit, an id left and a yield the runtime has not used; it stores the proposal
   * under the next id with what the call said, its yield pending.
   */
  lemma StartedExactly(hash: Hasher, owner: AccountId, run: seq<Event>, n: nat)
    requires n < |run| && run[n].Starts?
    ensures var (e, id) := (run[n], ContractAt(hash, owner, run, n).currentId + 1);
            && (ContractAt(hash, owner, run, n + 1).currentId == id <==>
                 && (exists k: nat :: k < n && SetsAt(owner, run, k)) && Utf8Len(e.taskConfig) <= 10000
                 && id <= 0xFFFF_FFFF_FFFF_FFFF && e.yieldId !in At(hash, owner, run, n).promises)
            && (ContractAt(hash, owner, run, n + 1).currentId == id ==>
                 SlotAt(hash, owner, run, n + 1, id)
                 == Held(Proposal(e.yieldId, e.taskConfig, hash(e.taskConfig), e.now, e.caller, Created,
                                  e.expected, e.quorum, [], None), Pending))
            && (ContractAt(hash, owner, run, n + 1).currentId != id ==>
                  At(hash, owner, run, n + 1) == At(hash, owner, run, n))
  {
    ManifestoIsLastSet(hash, owner, run, n);
    SomeSetIsLast(owner, run, n);
    var (w, e) := (At(hash, owner, run, n), run[n]);
    assert At(hash, owner, run, n + 1) == Begin(hash, w, e);
    RunIsConsistent(hash, owner, run, n, w.contract.currentId + 1);
    RunIsConsistent(hash, owner, run, n + 1, w.contract.currentId + 1);
    hide At, LastSet, SetsAt, Utf8Len, GoodStep, SlotOk;
    BegunSlot(hash, w, e);
  }

  lemma BegunSlot(hash: Hasher, w: World, e: Event)
    requires Wired(w) && e.Starts? && Wired(Begin(hash, w, e))
    ensures var (v, id) := (Begin(hash, w, e), w.contract.currentId + 1);
            && (v.contract.currentId == id <==>
                 && w.contract.manifesto.Some? && Utf8Len(e.taskConfig) <= 10000
                 && id <= 0xFFFF_FFFF_FFFF_FFFF && e.yieldId !in w.promises)
            && (v.contract.currentId == id ==>
                 SlotOf(v, id) == Held(Proposal(e.yieldId, e.taskConfig, hash(e.taskConfig), e.now, e.caller, Created,
                                                e.expected, e.quorum, [], None), Pending))
            && (v.contract.currentId != id ==> v == w)
  {
    hide Utf8Len;
  }

  lemma {:induction false} SomeSetIsLast(owner: AccountId, run: seq<Event>, n: nat)
    requires n <= |run|
    ensures (exists k: nat :: k < n && SetsAt(owner, run, k)) <==> exists k: nat :: LastSet(owner, run, n, k)
  {
    hide SetsAt;
    if n > 0 {
      var m := n - 1;
      SomeSetIsLast(owner, run, m);
      SetStep(owner, run, m);
      if SetsAt(owner, run, m) {
        assert LastSet(owner, run, n, m);
      } else if k: nat :| LastSet(owner, run, m, k) {
        assert LastSet(owner, run, n, k);
      }
    }
  }

  /**
   * A resume is accepted exactly from an approved coordinator, for a proposal with
   * its submissions recorded, giving the hash of the stored config and the hash of
   * the result; accepted or not, it changes no more than a pending yield.
   */
  lemma ResumedExactly(hash: Hasher, owner: AccountId, run: seq<Event>, n: nat, id: nat)
    requires n < |run| && run[n].Resumes? && run[n].id == id
    ensures var (e, s, t) := (run[n], SlotAt(hash, owner, run, n, id), SlotAt(hash, owner, run, n + 1, id));
            && (ResumesAt(hash, owner, run, n, id) <==>
                 && ApprovedCoordinator(ContractAt(hash, owner, run, n), e.caller)
                 && s.Held? && s.p.state == WorkersCompleted
                 && e.configHash == hash(s.p.taskConfig) && e.resultHash == hash(e.result))
            && t == (if ResumesAt(hash, owner, run, n, id) && s.status == Pending
                     then s.(status := ResumedWith(e.result))
                     else s)
            && ContractAt(hash, owner, run, n + 1) == ContractAt(hash, owner, run, n)
  {
    hide GoodStep, Resume, Wired, SlotOk, SlotOf, ApprovedCoordinator, AcceptsResume;
    RunIsConsistent(hash, owner, run, n, id);
    RunIsConsistent(hash, owner, run, n + 1, id);
    var (w, e) := (At(hash, owner, run, n), run[n]);
    assert At(hash, owner, run, n + 1) == Resume(hash, w, e);
    hide At;
    ResumedSlot(hash, w, e, id);
  }

  lemma ResumedSlot(hash: Hasher, w: World, e: Event, id: nat)
    requires Wired(w) && e.Resumes? && e.id == id && Wired(Resume(hash, w, e)) && SlotOk(hash, SlotOf(w, id))
    ensures var (s, t) := (SlotOf(w, id), SlotOf(Resume(hash, w, e), id));
            && (AcceptsResume(hash, w.contract, e, id) <==>
                 && ApprovedCoordinator(w.contract, e.caller) && s.Held? && s.p.state == WorkersCompleted
                 && e.configHash == hash(s.p.taskConfig) && e.resultHash == hash(e.result))
            && t == (if AcceptsResume(hash, w.contract, e, id) && s.status == Pending
                     then s.(status := ResumedWith(e.result)) else s)
            && Resume(hash, w, e).contract == w.contract
  {
    if AcceptsResume(hash, w.contract, e, id) { ResumeMovesItsSlot(hash, w, e, id); }
    hide Wired, ApprovedCoordinator, RecordAccepted;
  }

  // ---------------------------------------------------------------- text lengths

  /** The limit counts bytes: those of the characters added up, so at most four for each. */
  lemma {:induction false} BytesAddUp(a: string, b: string)
    ensures Utf8Len(a + b) == Utf8Len(a) + Utf8Len(b) && |a| <= Utf8Len(a) <= 4 * |a|
    ensures |a| == 1 ==>
              var c := a[0] as int;
              Utf8Len(a) == if c <= 0x7F then 1 else if c <= 0x7FF then 2 else if c <= 0xFFFF then 3 else 4
    ensures Utf8Len(a) == |a| <==> forall k :: 0 <= k < |a| ==> a[k] as int <= 0x7F
  {
    if a == [] {
      assert a + b == b;
    } else {
      assert (a + b)[1..] == a[1..] + b;
      BytesAddUp(a[1..], b);
    }
  }
}
