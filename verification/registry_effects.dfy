/** What the records of the registry hold, told from the calls that were accepted. */
module RegistryEffects {
  import opened Wrappers
  import opened RegistrySpec
  import opened RegistryHistory

  /** A deployment with its uninterpreted functions. */
  datatype Deployment = Deployment(digest: Digest, verify: Verifier, admin: AccountId)

  ghost function StateAt(d: Deployment, run: seq<Call>, n: nat): State
    requires n <= |run|
  {
    At(d.digest, d.verify, d.admin, run, n)
  }

  /** The account of the stored record, or the admin. */
  ghost predicate MayChange(d: Deployment, run: seq<Call>, k: nat, did: string, caller: AccountId)
    requires k <= |run|
  {
    did in StateAt(d, run, k).workers && caller in {StateAt(d, run, k).workers[did].accountId, d.admin}
  }

  ghost predicate MayChangeCoordinator(d: Deployment, run: seq<Call>, k: nat, did: string, caller: AccountId)
    requires k <= |run|
  {
    did in StateAt(d, run, k).coordinators && caller in {StateAt(d, run, k).coordinators[did].accountId, d.admin}
  }

  /** Call `k` is an accepted registration of worker `did`: paid, and of a new DID or by one who may change it. */
  ghost predicate RegisteredAt(d: Deployment, run: seq<Call>, k: nat, did: string)
    requires k < |run|
  {
    var (s, c) := (StateAt(d, run, k), run[k]);
    && c.Registers? && c.did == did && c.deposit >= s.minDeposit && "did:" <= did
    && (did in s.workers ==> MayChange(d, run, k, did, c.caller))
  }

  /** Call `k` is an accepted signed deactivation of worker `did`. */
  ghost predicate SignedOffAt(d: Deployment, run: seq<Call>, k: nat, did: string)
    requires k < |run|
  {
    var (s, c) := (StateAt(d, run, k), run[k]);
    && c.ControllerDeactivates? && c.did == did && c.nonce != ""
    && did in s.workers && s.workers[did].controllerPubkey.Some?
    && d.digest(did + "\0" + c.nonce) !in s.usedNonces
    && d.verify(c.signature, "delibera.deactivate-worker.v1\0" + did + "\0" + c.nonce,
                s.workers[did].controllerPubkey.value)
  }

  ghost predicate SwitchedOffAt(d: Deployment, run: seq<Call>, k: nat, did: string)
    requires k < |run|
  {
    || SignedOffAt(d, run, k, did)
    || (run[k].Deactivates? && run[k].did == did && MayChange(d, run, k, did, run[k].caller))
  }

  ghost predicate MovedAt(d: Deployment, run: seq<Call>, k: nat, did: string)
    requires k < |run|
  {
    run[k].UpdatesEndpoint? && run[k].did == did && MayChange(d, run, k, did, run[k].caller)
  }

  ghost predicate CoordinatorRegisteredAt(d: Deployment, run: seq<Call>, k: nat, did: string)
    requires k < |run|
  {
    var (s, c) := (StateAt(d, run, k), run[k]);
    && c.RegistersCoordinator? && c.did == did && c.deposit >= s.minDeposit && "did:" <= did
    && c.minWorkers <= c.maxWorkers && c.maxWorkers > 0
    && (did in s.coordinators ==> MayChangeCoordinator(d, run, k, did, c.caller))
  }

  ghost predicate CoordinatorSwitchedOffAt(d: Deployment, run: seq<Call>, k: nat, did: string)
    requires k < |run|
  {
    run[k].DeactivatesCoordinator? && run[k].did == did && MayChangeCoordinator(d, run, k, did, run[k].caller)
  }

  // ---------------------------------------------------------------- one call

  lemma NextState(d: Deployment, run: seq<Call>, n: nat)
    requires n < |run|
    ensures StateAt(d, run, n + 1) == Apply(d.digest, d.verify, StateAt(d, run, n), run[n])
  {
    hide Apply;
  }

  lemma {:induction false} AdminStays(d: Deployment, run: seq<Call>, n: nat)
    requires n <= |run|
    ensures StateAt(d, run, n).admin == d.admin
  {
    RecordsPersist(d.digest, d.verify, d.admin, run, 0, n);
    hide Apply;
  }

  /** What one call makes of one worker's record: replaced, moved, switched off, or left alone. */
  lemma WorkerStep(d: Deployment, run: seq<Call>, n: nat, did: string)
    requires n < |run|
    ensures var (s, t, c) := (StateAt(d, run, n), StateAt(d, run, n + 1), run[n]);
            if RegisteredAt(d, run, n, did) then
              && did in t.workers
              && t.workers[did] == WorkerRecord(c.caller, did, c.endpointUrl, c.cvmId, c.now, true, c.pubkey)
            else
              && (did in t.workers <==> did in s.workers)
              && (did in s.workers ==>
                   t.workers[did] == if MovedAt(d, run, n, did) then s.workers[did].(endpointUrl := c.endpointUrl)
                                     else if SwitchedOffAt(d, run, n, did) then s.workers[did].(isActive := false)
                                     else s.workers[did])
  {
    NextState(d, run, n);
    AdminStays(d, run, n);
    hide At;
    var c := run[n];
    if c.ControllerDeactivates? {
      assert Pair(c.did, c.nonce) == c.did + "\0" + c.nonce;
      assert Message(c.did, c.nonce) == "delibera.deactivate-worker.v1\0" + c.did + "\0" + c.nonce;
      hide Pair, Message;
    }
  }

  lemma CoordinatorStep(d: Deployment, run: seq<Call>, n: nat, did: string)
    requires n < |run|
    ensures var (s, t, c) := (StateAt(d, run, n), StateAt(d, run, n + 1), run[n]);
            if CoordinatorRegisteredAt(d, run, n, did) then
              && did in t.coordinators
              && t.coordinators[did]
                 == CoordinatorRecord(c.caller, did, c.endpointUrl, c.cvmId, c.minWorkers, c.maxWorkers, c.now, true)
            else
              && (did in t.coordinators <==> did in s.coordinators)
              && (did in s.coordinators ==>
                   t.coordinators[did] == if CoordinatorSwitchedOffAt(d, run, n, did)
                                          then s.coordinators[did].(isActive := false)
                                          else s.coordinators[did])
  {
    NextState(d, run, n);
    AdminStays(d, run, n);
    hide At, ControllerAccepted;
  }

  /** A key stored for the first time goes to the end; the order of the others never changes. */
  lemma NewKeysGoLast(d: Deployment, run: seq<Call>, n: nat)
    requires n < |run|
    ensures var (s, t, c) := (StateAt(d, run, n), StateAt(d, run, n + 1), run[n]);
            && t.workerOrder == s.workerOrder
                                + (if c.Registers? && c.did in t.workers && c.did !in s.workers then [c.did] else [])
            && t.coordinatorOrder == s.coordinatorOrder
                                     + (if c.RegistersCoordinator? && c.did in t.coordinators
                                           && c.did !in s.coordinators then [c.did] else [])
  {
    NextState(d, run, n);
    hide At, ControllerAccepted;
  }

  /** The active lists follow the order of the keys, and hold of each key its record if that is active. */
  lemma {:induction false} ListedInOrder<R>(records: map<string, R>, a: seq<string>, b: seq<string>,
                                            active: R -> bool)
    ensures Listed(records, a + b, active) == Listed(records, a, active) + Listed(records, b, active)
  {
    if a == [] {
      assert a + b == b;
    } else {
      assert (a + b)[1..] == a[1..] + b;
      ListedInOrder(records, a[1..], b, active);
    }
  }

  lemma ListedAlone<R>(records: map<string, R>, key: string, active: R -> bool)
    ensures Listed(records, [key], active)
            == if key in records && active(records[key]) then [records[key]] else []
  {
    assert [key][1..] == [];
  }

  // ---------------------------------------------------------------- histories

  /** Call `k` is the last accepted registration of `did`. */
  ghost predicate LastRegistered(d: Deployment, run: seq<Call>, n: nat, did: string, k: nat)
    requires n <= |run|
  {
    k < n && RegisteredAt(d, run, k, did) && forall m: nat :: k < m < n ==> !RegisteredAt(d, run, m, did)
  }

  /** The endpoint after the calls from `k` on: the last accepted update's, else `url`. */
  ghost function EndpointSince(d: Deployment, run: seq<Call>, k: nat, n: nat, did: string, url: string): string
    requires k <= n <= |run|
  {
    if k == n then url
    else if MovedAt(d, run, n - 1, did) then run[n - 1].endpointUrl
    else EndpointSince(d, run, k, n - 1, did, url)
  }

  /**
   * A worker is stored exactly if it was registered; its record is what its last
   * accepted registration gave, but for accepted changes of the endpoint since; and
   * it is active exactly if it has not been switched off since, by its account,
   * the admin or a controller's signature.
   */
  lemma {:induction false} WorkerFollowsCalls(d: Deployment, run: seq<Call>, n: nat, did: string)
    requires n <= |run|
    ensures did in StateAt(d, run, n).workers <==> exists k: nat :: LastRegistered(d, run, n, did, k)
    ensures forall k: nat :: LastRegistered(d, run, n, did, k) ==>
              && did in StateAt(d, run, n).workers
              && StateAt(d, run, n).workers[did]
                 == WorkerRecord(run[k].caller, did, EndpointSince(d, run, k + 1, n, did, run[k].endpointUrl),
                                 run[k].cvmId, run[k].now,
                                 forall m: nat :: k < m < n ==> !SwitchedOffAt(d, run, m, did), run[k].pubkey)
  {
    hide At, RegisteredAt, SwitchedOffAt, MovedAt;
    if n == 0 {
      NothingStored(d, run);
    } else {
      var p := n - 1;
      WorkerFollowsCalls(d, run, p, did);
      WorkerStep(d, run, p, did);
      if RegisteredAt(d, run, p, did) {
        assert LastRegistered(d, run, n, did, p);
      } else if did in StateAt(d, run, p).workers {
        var k: nat :| LastRegistered(d, run, p, did, k);
        assert LastRegistered(d, run, n, did, k);
        OffOrMoved(d, run, p, did);
      }
      forall k: nat | LastRegistered(d, run, n, did, k)
        ensures if RegisteredAt(d, run, p, did) then k == p else LastRegistered(d, run, p, did, k)
      {
      }
    }
  }

  lemma NothingStored(d: Deployment, run: seq<Call>)
    ensures StateAt(d, run, 0).workers == map[] && StateAt(d, run, 0).coordinators == map[]
    ensures StateAt(d, run, 0).usedNonces == {} && StateAt(d, run, 0).minDeposit == 100_000_000_000_000_000_000_000
  {
  }

  /** No call does both. */
  lemma OffOrMoved(d: Deployment, run: seq<Call>, k: nat, did: string)
    requires k < |run|
    ensures !(SwitchedOffAt(d, run, k, did) && MovedAt(d, run, k, did))
  {
    hide At;
  }

  ghost predicate LastCoordinatorRegistered(d: Deployment, run: seq<Call>, n: nat, did: string, k: nat)
    requires n <= |run|
  {
    && k < n && CoordinatorRegisteredAt(d, run, k, did)
    && forall m: nat :: k < m < n ==> !CoordinatorRegisteredAt(d, run, m, did)
  }

  /** The same for coordinators, whose endpoints change by registration only. */
  lemma {:induction false} CoordinatorFollowsCalls(d: Deployment, run: seq<Call>, n: nat, did: string)
    requires n <= |run|
    ensures did in StateAt(d, run, n).coordinators <==> exists k: nat :: LastCoordinatorRegistered(d, run, n, did, k)
    ensures forall k: nat :: LastCoordinatorRegistered(d, run, n, did, k) ==>
              && did in StateAt(d, run, n).coordinators
              && StateAt(d, run, n).coordinators[did]
                 == CoordinatorRecord(run[k].caller, did, run[k].endpointUrl, run[k].cvmId, run[k].minWorkers,
                                      run[k].maxWorkers, run[k].now,
                                      forall m: nat :: k < m < n ==> !CoordinatorSwitchedOffAt(d, run, m, did))
  {
    hide At, CoordinatorRegisteredAt, CoordinatorSwitchedOffAt;
    if n == 0 {
      NothingStored(d, run);
    } else {
      var p := n - 1;
      CoordinatorFollowsCalls(d, run, p, did);
      CoordinatorStep(d, run, p, did);
      if CoordinatorRegisteredAt(d, run, p, did) {
        assert LastCoordinatorRegistered(d, run, n, did, p);
      } else if did in StateAt(d, run, p).coordinators {
        var k: nat :| LastCoordinatorRegistered(d, run, p, did, k);
        assert LastCoordinatorRegistered(d, run, n, did, k);
      }
      forall k: nat | LastCoordinatorRegistered(d, run, n, did, k)
        ensures if CoordinatorRegisteredAt(d, run, p, did) then k == p else LastCoordinatorRegistered(d, run, p, did, k)
      {
      }
    }
  }

  /** A nonce key is spent exactly by the accepted signed deactivations. */
  lemma {:induction false} SpentExactly(d: Deployment, run: seq<Call>, n: nat, key: string)
    requires n <= |run|
    ensures key in StateAt(d, run, n).usedNonces <==>
            exists k: nat :: k < n && run[k].ControllerDeactivates? && SignedOffAt(d, run, k, run[k].did)
              && d.digest(run[k].did + "\0" + run[k].nonce) == key
  {
    hide At, SignedOffAt;
    if n == 0 {
      NothingStored(d, run);
    } else {
      SpentExactly(d, run, n - 1, key);
      SpentStep(d, run, n - 1);
    }
  }

  lemma SpentStep(d: Deployment, run: seq<Call>, n: nat)
    requires n < |run|
    ensures var c := run[n];
            StateAt(d, run, n + 1).usedNonces
            == if c.ControllerDeactivates? && SignedOffAt(d, run, n, c.did)
               then StateAt(d, run, n).usedNonces + {d.digest(c.did + "\0" + c.nonce)}
               else StateAt(d, run, n).usedNonces
  {
    NextState(d, run, n);
    hide At;
    var c := run[n];
    if c.ControllerDeactivates? {
      assert Pair(c.did, c.nonce) == c.did + "\0" + c.nonce;
      assert Message(c.did, c.nonce) == "delibera.deactivate-worker.v1\0" + c.did + "\0" + c.nonce;
      hide Pair, Message;
    }
  }

  /** The deposit asked for is the admin's last, or the default. */
  lemma DepositStep(d: Deployment, run: seq<Call>, n: nat)
    requires n < |run|
    ensures StateAt(d, run, n + 1).minDeposit
            == if run[n].SetsMinDeposit? && run[n].caller == d.admin then run[n].amount
               else StateAt(d, run, n).minDeposit
  {
    NextState(d, run, n);
    AdminStays(d, run, n);
    hide At, ControllerAccepted;
  }

  // ---------------------------------------------------------------- signed deactivation

  /** What the histories of nonces call an accepted deactivation is this one. */
  lemma AcceptedIsSignedOff(d: Deployment, run: seq<Call>, n: nat, did: string, nonce: string)
    requires n < |run|
    ensures DeactivatedAt(d.digest, d.verify, d.admin, run, n, did, nonce) <==>
            SignedOffAt(d, run, n, did) && run[n].nonce == nonce
  {
    hide At;
    assert Pair(did, nonce) == did + "\0" + nonce;
    assert Message(did, nonce) == "delibera.deactivate-worker.v1\0" + did + "\0" + nonce;
    hide Pair, Message;
  }

  /**
   * An accepted signed deactivation makes that worker's record inactive, changes
   * nothing else in it and no other record; and it stays inactive until the worker
   * is registered anew.
   */
  lemma DeactivationTakesEffect(d: Deployment, run: seq<Call>, i: nat, j: nat, did: string, nonce: string)
    requires i < j <= |run| && DeactivatedAt(d.digest, d.verify, d.admin, run, i, did, nonce)
    ensures var (s, t) := (StateAt(d, run, i), StateAt(d, run, i + 1));
            && did in s.workers && t.workers == s.workers[did := s.workers[did].(isActive := false)]
            && t.coordinators == s.coordinators
    ensures (forall m: nat :: i < m < j ==> !RegisteredAt(d, run, m, did)) ==>
              did in StateAt(d, run, j).workers && !StateAt(d, run, j).workers[did].isActive
  {
    AcceptedIsSignedOff(d, run, i, did, nonce);
    hide At;
    forall other
      ensures other in StateAt(d, run, i + 1).workers <==> other in StateAt(d, run, i).workers
      ensures other in StateAt(d, run, i).workers ==>
                StateAt(d, run, i + 1).workers[other]
                == if other == did then StateAt(d, run, i).workers[did].(isActive := false)
                   else StateAt(d, run, i).workers[other]
    {
      WorkerStep(d, run, i, other);
    }
    forall other
      ensures other in StateAt(d, run, i + 1).coordinators <==> other in StateAt(d, run, i).coordinators
      ensures other in StateAt(d, run, i).coordinators ==>
                StateAt(d, run, i + 1).coordinators[other] == StateAt(d, run, i).coordinators[other]
    {
      CoordinatorStep(d, run, i, other);
    }
    if forall m: nat :: i < m < j ==> !RegisteredAt(d, run, m, did) { StaysOff(d, run, i, j, did); }
  }

  lemma {:induction false} StaysOff(d: Deployment, run: seq<Call>, i: nat, j: nat, did: string)
    requires i < j <= |run| && SwitchedOffAt(d, run, i, did)
    requires forall m: nat :: i < m < j ==> !RegisteredAt(d, run, m, did)
    ensures did in StateAt(d, run, j).workers && !StateAt(d, run, j).workers[did].isActive
  {
    hide At;
    WorkerStep(d, run, j - 1, did);
    if i < j - 1 { StaysOff(d, run, i, j - 1, did); }
  }
}
