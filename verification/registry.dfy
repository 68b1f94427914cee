/** The registry contract: worker and coordinator records, ownership, controller nonces. */
module RegistrySpec {
  import opened Wrappers

  type AccountId = string
  /** SHA-256 followed by base58, and Ed25519 verification (section 5.1.7 of RFC 8032), both uninterpreted. */
  type Digest = string -> string
  type Verifier = (string, string, string) -> bool  // signature, message, public key

  datatype WorkerRecord = WorkerRecord(
    accountId: AccountId, workerDid: string, endpointUrl: string, cvmId: string,
    registeredAt: nat, isActive: bool, controllerPubkey: Option<string>)

  datatype CoordinatorRecord = CoordinatorRecord(
    accountId: AccountId, coordinatorDid: string, endpointUrl: string, cvmId: string,
    minWorkers: u8, maxWorkers: u8, registeredAt: nat, isActive: bool)

  /** The `order` fields are the key vectors of the iterable maps; nothing is ever removed. */
  datatype State = State(
    admin: AccountId, minDeposit: nat,
    workerOrder: seq<string>, workers: map<string, WorkerRecord>,
    coordinatorOrder: seq<string>, coordinators: map<string, CoordinatorRecord>,
    usedNonces: set<string>)

  const DEFAULT_MIN_DEPOSIT: nat := 100_000_000_000_000_000_000_000
  const NUL: char := '\0'
  const DEACTIVATE_DOMAIN: string := "delibera.deactivate-worker.v1\0"

  function InitialState(admin: AccountId): State {
    State(admin, DEFAULT_MIN_DEPOSIT, [], map[], [], map[], {})
  }

  function Pair(did: string, nonce: string): string { did + [NUL] + nonce }
  function NonceKey(digest: Digest, did: string, nonce: string): string { digest(Pair(did, nonce)) }
  function Message(did: string, nonce: string): string { DEACTIVATE_DOMAIN + Pair(did, nonce) }

  function Appended(order: seq<string>, key: string, known: bool): seq<string> {
    if known then order else order + [key]
  }

  function RegisterWorker(s: State, caller: AccountId, deposit: nat, did: string, endpointUrl: string,
                          cvmId: string, pubkey: Option<string>, now: nat): Option<State>
  {
    if deposit < s.minDeposit || !("did:" <= did) then None
    else if did in s.workers && caller != s.workers[did].accountId && caller != s.admin then None
    else
      Some(s.(workerOrder := Appended(s.workerOrder, did, did in s.workers),
              workers := s.workers[did := WorkerRecord(caller, did, endpointUrl, cvmId, now, true, pubkey)]))
  }

  function RegisterCoordinator(s: State, caller: AccountId, deposit: nat, did: string, endpointUrl: string,
                               cvmId: string, minWorkers: u8, maxWorkers: u8, now: nat): Option<State>
  {
    if deposit < s.minDeposit || !("did:" <= did) || minWorkers > maxWorkers || maxWorkers == 0 then None
    else if did in s.coordinators && caller != s.coordinators[did].accountId && caller != s.admin then None
    else
      Some(s.(coordinatorOrder := Appended(s.coordinatorOrder, did, did in s.coordinators),
              coordinators := s.coordinators[did := CoordinatorRecord(caller, did, endpointUrl, cvmId,
                                                                       minWorkers, maxWorkers, now, true)]))
  }

  function UpdateWorkerEndpoint(s: State, caller: AccountId, did: string, endpointUrl: string): Option<State> {
    if did !in s.workers || (caller != s.workers[did].accountId && caller != s.admin) then None
    else Some(s.(workers := s.workers[did := s.workers[did].(endpointUrl := endpointUrl)]))
  }

  function DeactivateWorker(s: State, caller: AccountId, did: string): Option<State> {
    if did !in s.workers || (caller != s.workers[did].accountId && caller != s.admin) then None
    else Some(s.(workers := s.workers[did := s.workers[did].(isActive := false)]))
  }

  function DeactivateCoordinator(s: State, caller: AccountId, did: string): Option<State> {
    if did !in s.coordinators || (caller != s.coordinators[did].accountId && caller != s.admin) then None
    else Some(s.(coordinators := s.coordinators[did := s.coordinators[did].(isActive := false)]))
  }

  /** Any caller may submit; the signature alone authorizes. */
  predicate ControllerAccepted(digest: Digest, verify: Verifier, s: State, did: string, nonce: string,
                               signature: string) {
    && nonce != "" && did in s.workers && s.workers[did].controllerPubkey.Some?
    && NonceKey(digest, did, nonce) !in s.usedNonces
    && verify(signature, Message(did, nonce), s.workers[did].controllerPubkey.value)
  }

  function DeactivateByController(digest: Digest, verify: Verifier, s: State,
                                  did: string, nonce: string, signature: string): Option<State>
  {
    if !ControllerAccepted(digest, verify, s, did, nonce, signature) then None
    else Some(s.(usedNonces := s.usedNonces + {NonceKey(digest, did, nonce)},
                 workers := s.workers[did := s.workers[did].(isActive := false)]))
  }

  function SetMinDeposit(s: State, caller: AccountId, amount: nat): Option<State> {
    if caller == s.admin then Some(s.(minDeposit := amount)) else None
  }

  predicate WorkerIsActive(w: WorkerRecord) { w.isActive }
  predicate CoordinatorIsActive(c: CoordinatorRecord) { c.isActive }

  /** The active records in storage order. */
  function Listed<R>(records: map<string, R>, order: seq<string>, active: R -> bool): seq<R> {
    if order == [] then []
    else (if order[0] in records && active(records[order[0]]) then [records[order[0]]] else [])
         + Listed(records, order[1..], active)
  }

  /** The separate counting pass of `get_stats`. */
  function Counted<R>(records: map<string, R>, order: seq<string>, active: R -> bool): nat {
    if order == [] then 0
    else (if order[0] in records && active(records[order[0]]) then 1 else 0) + Counted(records, order[1..], active)
  }
}

/** The registry as an object updated in place. */
module RegistryContract {
  import opened Wrappers
  import opened RegistrySpec

  class Registry {
    const admin: AccountId
    var minDeposit: nat
    var workerOrder: seq<string>
    var workersByDid: map<string, WorkerRecord>
    var coordinatorOrder: seq<string>
    var coordinatorsByDid: map<string, CoordinatorRecord>
    var usedControllerNonces: set<string>

    ghost function View(): State
      reads this
    {
      State(admin, minDeposit, workerOrder, workersByDid, coordinatorOrder, coordinatorsByDid, usedControllerNonces)
    }

    constructor (admin: AccountId)
      ensures View() == InitialState(admin)
    {
      this.admin := admin;
      minDeposit := DEFAULT_MIN_DEPOSIT;
      workerOrder, workersByDid, coordinatorOrder, coordinatorsByDid := [], map[], [], map[];
      usedControllerNonces := {};
    }

    method RegisterWorkerInner(caller: AccountId, deposit: nat, did: string, endpointUrl: string, cvmId: string,
                               pubkey: Option<string>, now: nat)
      returns (record: Option<WorkerRecord>)
      modifies this
      ensures var r := RegisterWorker(old(View()), caller, deposit, did, endpointUrl, cvmId, pubkey, now);
              record.Some? == r.Some? && View() == if r.Some? then r.value else old(View())
      ensures record.Some? <==> && deposit >= old(minDeposit) && "did:" <= did
                                && (did in old(workersByDid) ==> caller in {old(workersByDid)[did].accountId, admin})
      ensures record.Some? ==>
                && record.value == WorkerRecord(caller, did, endpointUrl, cvmId, now, true, pubkey)
                && workersByDid == old(workersByDid)[did := record.value]
    {
      if deposit < minDeposit { return None; }
      if !("did:" <= did) { return None; }
      if did in workersByDid {
        if caller != workersByDid[did].accountId && caller != admin { return None; }
      } else {
        workerOrder := workerOrder + [did];
      }
      var fresh' := WorkerRecord(caller, did, endpointUrl, cvmId, now, true, pubkey);
      workersByDid := workersByDid[did := fresh'];
      return Some(fresh');
    }

    method RegisterCoordinator(caller: AccountId, deposit: nat, did: string, endpointUrl: string, cvmId: string,
                               minWorkers: u8, maxWorkers: u8, now: nat)
      returns (record: Option<CoordinatorRecord>)
      modifies this
      ensures var r := RegistrySpec.RegisterCoordinator(old(View()), caller, deposit, did, endpointUrl, cvmId,
                                                        minWorkers, maxWorkers, now);
              record.Some? == r.Some? && View() == if r.Some? then r.value else old(View())
      ensures record.Some? <==> && deposit >= old(minDeposit) && "did:" <= did
                                && minWorkers <= maxWorkers && maxWorkers > 0
                                && (did in old(coordinatorsByDid) ==>
                                      caller in {old(coordinatorsByDid)[did].accountId, admin})
      ensures record.Some? ==>
                && record.value == CoordinatorRecord(caller, did, endpointUrl, cvmId, minWorkers, maxWorkers, now, true)
                && coordinatorsByDid == old(coordinatorsByDid)[did := record.value]
    {
      if deposit < minDeposit { return None; }
      if !("did:" <= did) { return None; }
      if minWorkers > maxWorkers || maxWorkers == 0 { return None; }
      if did in coordinatorsByDid {
        if caller != coordinatorsByDid[did].accountId && caller != admin { return None; }
      } else {
        coordinatorOrder := coordinatorOrder + [did];
      }
      var fresh' := CoordinatorRecord(caller, did, endpointUrl, cvmId, minWorkers, maxWorkers, now, true);
      coordinatorsByDid := coordinatorsByDid[did := fresh'];
      return Some(fresh');
    }

    method UpdateWorkerEndpoint(caller: AccountId, did: string, endpointUrl: string) returns (ok: bool)
      modifies this
      ensures var r := RegistrySpec.UpdateWorkerEndpoint(old(View()), caller, did, endpointUrl);
              ok == r.Some? && View() == if ok then r.value else old(View())
      ensures workersByDid.Keys == old(workersByDid.Keys)
      ensures ok <==> did in old(workersByDid) && caller in {old(workersByDid)[did].accountId, admin}
      ensures ok ==> workersByDid[did] == old(workersByDid)[did].(endpointUrl := endpointUrl)
      ensures forall d :: d in workersByDid && d != did ==> workersByDid[d] == old(workersByDid)[d]
    {
      if did !in workersByDid { return false; }
      if caller != workersByDid[did].accountId && caller != admin { return false; }
      workersByDid := workersByDid[did := workersByDid[did].(endpointUrl := endpointUrl)];
      return true;
    }

    method DeactivateWorker(caller: AccountId, did: string) returns (ok: bool)
      modifies this
      ensures var r := RegistrySpec.DeactivateWorker(old(View()), caller, did);
              ok == r.Some? && View() == if ok then r.value else old(View())
      ensures ok <==> did in old(workersByDid) && caller in {old(workersByDid)[did].accountId, admin}
      ensures ok ==> workersByDid == old(workersByDid)[did := old(workersByDid)[did].(isActive := false)]
    {
      if did !in workersByDid { return false; }
      if caller != workersByDid[did].accountId && caller != admin { return false; }
      workersByDid := workersByDid[did := workersByDid[did].(isActive := false)];
      return true;
    }

    method DeactivateCoordinator(caller: AccountId, did: string) returns (ok: bool)
      modifies this
      ensures var r := RegistrySpec.DeactivateCoordinator(old(View()), caller, did);
              ok == r.Some? && View() == if ok then r.value else old(View())
      ensures ok <==> did in old(coordinatorsByDid) && caller in {old(coordinatorsByDid)[did].accountId, admin}
      ensures ok ==> coordinatorsByDid == old(coordinatorsByDid)[did := old(coordinatorsByDid)[did].(isActive := false)]
    {
      if did !in coordinatorsByDid { return false; }
      if caller != coordinatorsByDid[did].accountId && caller != admin { return false; }
      coordinatorsByDid := coordinatorsByDid[did := coordinatorsByDid[did].(isActive := false)];
      return true;
    }

    method DeactivateWorkerByController(digest: Digest, verify: Verifier, did: string, nonce: string, signature: string)
      returns (ok: bool)
      modifies this
      ensures var r := DeactivateByController(digest, verify, old(View()), did, nonce, signature);
              ok == r.Some? && View() == if ok then r.value else old(View())
      ensures ok <==> && nonce != "" && did in old(workersByDid) && old(workersByDid)[did].controllerPubkey.Some?
                      && digest(did + "\0" + nonce) !in old(usedControllerNonces)
                      && verify(signature, "delibera.deactivate-worker.v1\0" + did + "\0" + nonce,
                                old(workersByDid)[did].controllerPubkey.value)
      ensures ok ==> workersByDid == old(workersByDid)[did := old(workersByDid)[did].(isActive := false)]
      ensures ok ==> usedControllerNonces == old(usedControllerNonces) + {digest(did + "\0" + nonce)}
    {
      if nonce == "" { return false; }
      if did !in workersByDid || workersByDid[did].controllerPubkey.None? { return false; }
      var pubkey := workersByDid[did].controllerPubkey.value;
      var key := NonceKey(digest, did, nonce);
      if key in usedControllerNonces { return false; }
      var message := DEACTIVATE_DOMAIN + (did + [NUL] + nonce);
      assert key == digest(did + "\0" + nonce);
      assert message == "delibera.deactivate-worker.v1\0" + did + "\0" + nonce;
      if !verify(signature, message, pubkey) { return false; }
      usedControllerNonces := usedControllerNonces + {key};
      workersByDid := workersByDid[did := workersByDid[did].(isActive := false)];
      return true;
    }

    method SetMinDeposit(caller: AccountId, amount: nat) returns (ok: bool)
      modifies this
      ensures var r := RegistrySpec.SetMinDeposit(old(View()), caller, amount);
              ok == r.Some? && View() == if ok then r.value else old(View())
      ensures ok <==> caller == admin
      ensures minDeposit == if ok then amount else old(minDeposit)
    {
      if caller != admin { return false; }
      minDeposit := amount;
      return true;
    }
  }
}

/** Properties of whole registry histories. */
module RegistryHistory {
  import opened Wrappers
  import opened RegistrySpec

  datatype Call =
    | Registers(caller: AccountId, deposit: nat, did: string, endpointUrl: string, cvmId: string,
                pubkey: Option<string>, now: nat)
    | RegistersCoordinator(caller: AccountId, deposit: nat, did: string, endpointUrl: string, cvmId: string,
                           minWorkers: u8, maxWorkers: u8, now: nat)
    | UpdatesEndpoint(caller: AccountId, did: string, endpointUrl: string)
    | Deactivates(caller: AccountId, did: string)
    | DeactivatesCoordinator(caller: AccountId, did: string)
    | ControllerDeactivates(did: string, nonce: string, signature: string)
    | SetsMinDeposit(caller: AccountId, amount: nat)

  /** A rejected call is rolled back. */
  function Apply(digest: Digest, verify: Verifier, s: State, c: Call): State {
    var r := match c
      case Registers(caller, deposit, did, url, cvm, pubkey, now) =>
        RegisterWorker(s, caller, deposit, did, url, cvm, pubkey, now)
      case RegistersCoordinator(caller, deposit, did, url, cvm, lo, hi, now) =>
        RegisterCoordinator(s, caller, deposit, did, url, cvm, lo, hi, now)
      case UpdatesEndpoint(caller, did, url) => UpdateWorkerEndpoint(s, caller, did, url)
      case Deactivates(caller, did) => DeactivateWorker(s, caller, did)
      case DeactivatesCoordinator(caller, did) => DeactivateCoordinator(s, caller, did)
      case ControllerDeactivates(did, nonce, signature) =>
        DeactivateByController(digest, verify, s, did, nonce, signature)
      case SetsMinDeposit(caller, amount) => SetMinDeposit(s, caller, amount);
    if r.Some? then r.value else s
  }

  ghost function At(digest: Digest, verify: Verifier, admin: AccountId, run: seq<Call>, n: nat): State
    requires n <= |run|
  {
    if n == 0 then InitialState(admin) else Apply(digest, verify, At(digest, verify, admin, run, n - 1), run[n - 1])
  }

  // ---------------------------------------------------------------- one call

  /** What no call takes back: the admin, stored keys in their order, an admin's ownership, spent nonces. */
  ghost predicate Grows(s: State, t: State) {
    && t.admin == s.admin && s.usedNonces <= t.usedNonces
    && s.workerOrder <= t.workerOrder && s.coordinatorOrder <= t.coordinatorOrder
    && (forall did :: did in s.workers ==>
         did in t.workers && (s.workers[did].accountId == s.admin ==> t.workers[did].accountId == s.admin))
    && (forall did :: did in s.coordinators ==>
         && did in t.coordinators
         && (s.coordinators[did].accountId == s.admin ==> t.coordinators[did].accountId == s.admin))
  }

  lemma CallGrows(digest: Digest, verify: Verifier, s: State, c: Call)
    ensures Grows(s, Apply(digest, verify, s, c))
  {
  }

  /** The order vectors list the stored keys once each, and every record carries its own key. */
  ghost predicate Keyed(s: State) {
    && Distinct(s.workerOrder) && Distinct(s.coordinatorOrder)
    && (forall did :: did in s.workerOrder <==> did in s.workers)
    && (forall did :: did in s.coordinatorOrder <==> did in s.coordinators)
    && (forall did :: did in s.workers ==> s.workers[did].workerDid == did)
    && (forall did :: did in s.coordinators ==> s.coordinators[did].coordinatorDid == did)
  }

  lemma CallKeepsKeys(digest: Digest, verify: Verifier, s: State, c: Call)
    requires Keyed(s)
    ensures Keyed(Apply(digest, verify, s, c))
  {
  }

  /** A stored owner changes only to the admin, who made the call; a new record belongs to its registrant. */
  lemma CallMovesOwner(digest: Digest, verify: Verifier, s: State, c: Call, did: string)
    ensures var t := Apply(digest, verify, s, c);
            && (did in t.workers && did !in s.workers ==>
                 c.Registers? && c.did == did && t.workers[did].accountId == c.caller)
            && (did in t.workers && did in s.workers ==>
                 t.workers[did].accountId == s.workers[did].accountId || t.workers[did].accountId == s.admin)
            && (did in t.coordinators && did !in s.coordinators ==>
                 c.RegistersCoordinator? && c.did == did && t.coordinators[did].accountId == c.caller)
            && (did in t.coordinators && did in s.coordinators ==>
                 || t.coordinators[did].accountId == s.coordinators[did].accountId
                 || t.coordinators[did].accountId == s.admin)
  {
  }

  /** An inactive record becomes active again only by a paid registration from its account or the admin. */
  lemma ReactivationIsPaid(digest: Digest, verify: Verifier, s: State, c: Call, did: string)
    ensures did in s.workers && !s.workers[did].isActive ==>
              && did in Apply(digest, verify, s, c).workers
              && (Apply(digest, verify, s, c).workers[did].isActive ==>
                   && c.Registers? && c.did == did && c.deposit >= s.minDeposit
                   && (c.caller == s.workers[did].accountId || c.caller == s.admin))
    ensures did in s.coordinators && !s.coordinators[did].isActive ==>
              && did in Apply(digest, verify, s, c).coordinators
              && (Apply(digest, verify, s, c).coordinators[did].isActive ==>
                   && c.RegistersCoordinator? && c.did == did && c.deposit >= s.minDeposit
                   && (c.caller == s.coordinators[did].accountId || c.caller == s.admin))
  {
  }

  // ---------------------------------------------------------------- ownership

  lemma {:induction false} RecordsPersist(digest: Digest, verify: Verifier, admin: AccountId, run: seq<Call>, i: nat,
                                          j: nat)
    requires i <= j <= |run|
    ensures Grows(At(digest, verify, admin, run, i), At(digest, verify, admin, run, j))
  {
    hide Apply;
    if i < j {
      RecordsPersist(digest, verify, admin, run, i, j - 1);
      CallGrows(digest, verify, At(digest, verify, admin, run, j - 1), run[j - 1]);
    }
  }

  lemma {:induction false} KeysHold(digest: Digest, verify: Verifier, admin: AccountId, run: seq<Call>, n: nat)
    requires n <= |run|
    ensures Keyed(At(digest, verify, admin, run, n))
  {
    hide Apply;
    if n > 0 {
      KeysHold(digest, verify, admin, run, n - 1);
      CallKeepsKeys(digest, verify, At(digest, verify, admin, run, n - 1), run[n - 1]);
    }
  }

  /** Call `k` is the registration that first stored worker `did`. */
  ghost predicate FirstRegisters(digest: Digest, verify: Verifier, admin: AccountId, run: seq<Call>, k: nat,
                                 did: string)
    requires k < |run|
  {
    && run[k].Registers? && run[k].did == did
    && did !in At(digest, verify, admin, run, k).workers && did in At(digest, verify, admin, run, k + 1).workers
  }

  ghost predicate FirstRegistersCoordinator(digest: Digest, verify: Verifier, admin: AccountId, run: seq<Call>, k: nat,
                                            did: string)
    requires k < |run|
  {
    && run[k].RegistersCoordinator? && run[k].did == did
    && did !in At(digest, verify, admin, run, k).coordinators
    && did in At(digest, verify, admin, run, k + 1).coordinators
  }

  /**
   * Every stored worker sits under its own key, was stored by one first
   * registration, and belongs to that registrant or to the admin.
   */
  lemma {:induction false} OwnedByFirstOrAdmin(digest: Digest, verify: Verifier, admin: AccountId, run: seq<Call>,
                                               n: nat, did: string)
    requires n <= |run| && did in At(digest, verify, admin, run, n).workers
    ensures var w := At(digest, verify, admin, run, n).workers[did];
            && w.workerDid == did
            && exists k: nat :: k < n && FirstRegisters(digest, verify, admin, run, k, did)
                 && (w.accountId == run[k].caller || w.accountId == admin)
  {
    hide Apply;
    KeysHold(digest, verify, admin, run, n);
    RecordsPersist(digest, verify, admin, run, 0, n - 1);
    var s := At(digest, verify, admin, run, n - 1);
    CallMovesOwner(digest, verify, s, run[n - 1], did);
    if did in s.workers {
      OwnedByFirstOrAdmin(digest, verify, admin, run, n - 1, did);
    } else {
      assert FirstRegisters(digest, verify, admin, run, n - 1, did);
    }
  }

  /** The same for coordinators. */
  lemma {:induction false} CoordinatorOwnedByFirstOrAdmin(digest: Digest, verify: Verifier, admin: AccountId,
                                                          run: seq<Call>, n: nat, did: string)
    requires n <= |run| && did in At(digest, verify, admin, run, n).coordinators
    ensures var c := At(digest, verify, admin, run, n).coordinators[did];
            && c.coordinatorDid == did
            && exists k: nat :: k < n && FirstRegistersCoordinator(digest, verify, admin, run, k, did)
                 && (c.accountId == run[k].caller || c.accountId == admin)
  {
    hide Apply;
    KeysHold(digest, verify, admin, run, n);
    RecordsPersist(digest, verify, admin, run, 0, n - 1);
    var s := At(digest, verify, admin, run, n - 1);
    CallMovesOwner(digest, verify, s, run[n - 1], did);
    if did in s.coordinators {
      CoordinatorOwnedByFirstOrAdmin(digest, verify, admin, run, n - 1, did);
    } else {
      assert FirstRegistersCoordinator(digest, verify, admin, run, n - 1, did);
    }
  }

  // ---------------------------------------------------------------- views

  /**
   * After any history the active lists hold exactly the active stored records, no
   * record twice, and the statistics count them.
   */
  lemma StatsMatchLists(digest: Digest, verify: Verifier, admin: AccountId, run: seq<Call>, n: nat)
    requires n <= |run|
    ensures var s := At(digest, verify, admin, run, n);
            var workers := Listed(s.workers, s.workerOrder, WorkerIsActive);
            && Counted(s.workers, s.workerOrder, WorkerIsActive) == |workers| && Distinct(workers)
            && forall w :: w in workers <==> w.workerDid in s.workers && s.workers[w.workerDid] == w && w.isActive
    ensures var s := At(digest, verify, admin, run, n);
            var coordinators := Listed(s.coordinators, s.coordinatorOrder, CoordinatorIsActive);
            && Counted(s.coordinators, s.coordinatorOrder, CoordinatorIsActive) == |coordinators|
            && Distinct(coordinators)
            && forall c :: c in coordinators <==>
                 c.coordinatorDid in s.coordinators && s.coordinators[c.coordinatorDid] == c && c.isActive
  {
    hide At;
    KeysHold(digest, verify, admin, run, n);
    var s := At(digest, verify, admin, run, n);
    ListIsExact(s.workers, s.workerOrder, WorkerIsActive, WorkerKey);
    ListIsExact(s.coordinators, s.coordinatorOrder, CoordinatorIsActive, CoordinatorKey);
  }

  function WorkerKey(w: WorkerRecord): string { w.workerDid }
  function CoordinatorKey(c: CoordinatorRecord): string { c.coordinatorDid }

  lemma {:induction false} ListIsExact<R>(records: map<string, R>, order: seq<string>, active: R -> bool,
                                          key: R -> string)
    requires Distinct(order) && (forall k :: k in order ==> k in records)
    requires forall k :: k in records ==> key(records[k]) == k
    ensures Counted(records, order, active) == |Listed(records, order, active)|
    ensures Distinct(Listed(records, order, active))
    ensures forall r :: r in Listed(records, order, active) <==>
              key(r) in order && records[key(r)] == r && active(r)
  {
    if order != [] { ListIsExact(records, order[1..], active, key); }
  }

  // ---------------------------------------------------------------- nonces

  ghost predicate DeactivatedAt(digest: Digest, verify: Verifier, admin: AccountId, run: seq<Call>, n: nat,
                                did: string, nonce: string)
    requires n < |run|
  {
    && run[n].ControllerDeactivates? && run[n].did == did && run[n].nonce == nonce
    && ControllerAccepted(digest, verify, At(digest, verify, admin, run, n), did, nonce, run[n].signature)
  }

  lemma AcceptedSpends(digest: Digest, verify: Verifier, s: State, c: Call)
    requires c.ControllerDeactivates? && ControllerAccepted(digest, verify, s, c.did, c.nonce, c.signature)
    ensures NonceKey(digest, c.did, c.nonce) in Apply(digest, verify, s, c).usedNonces
  {
  }

  lemma SpentAfterwards(digest: Digest, verify: Verifier, admin: AccountId, run: seq<Call>, i: nat, j: nat,
                        did: string, nonce: string)
    requires i < j <= |run| && DeactivatedAt(digest, verify, admin, run, i, did, nonce)
    ensures NonceKey(digest, did, nonce) in At(digest, verify, admin, run, j).usedNonces
  {
    hide Apply, ControllerAccepted;
    AcceptedSpends(digest, verify, At(digest, verify, admin, run, i), run[i]);
    RecordsPersist(digest, verify, admin, run, i + 1, j);
  }

  /** A (worker, nonce) pair deactivates by controller signature at most once, re-registrations included. */
  lemma NonceSpentOnce(digest: Digest, verify: Verifier, admin: AccountId, run: seq<Call>, i: nat, j: nat, did: string,
                       nonce: string)
    requires i < |run| && j < |run|
    requires DeactivatedAt(digest, verify, admin, run, i, did, nonce)
    requires DeactivatedAt(digest, verify, admin, run, j, did, nonce)
    ensures i == j
  {
    hide At;
    if i < j { SpentAfterwards(digest, verify, admin, run, i, j, did, nonce); }
    if j < i { SpentAfterwards(digest, verify, admin, run, j, i, did, nonce); }
  }

  /**
   * Two pairs share their bytes exactly when one DID continues the other past a
   * NUL byte and its nonce is what is left over.
   */
  ghost predicate Overlaps(did: string, nonce: string, longer: string, rest: string) {
    exists x :: longer == did + [NUL] + x && nonce == x + [NUL] + rest
  }

  lemma PairsCollide(d1: string, n1: string, d2: string, n2: string)
    ensures Pair(d1, n1) == Pair(d2, n2) <==>
            (d1 == d2 && n1 == n2) || Overlaps(d1, n1, d2, n2) || Overlaps(d2, n2, d1, n1)
  {
    var p, q := Pair(d1, n1), Pair(d2, n2);
    if p == q {
      if |d1| < |d2| {
        LongerContinues(d1, n1, d2, n2);
      } else if |d2| < |d1| {
        LongerContinues(d2, n2, d1, n1);
      } else {
        assert d1 == p[..|d1|] && d2 == q[..|d2|] && n1 == p[|d1| + 1..] && n2 == q[|d2| + 1..];
      }
    }
    if Overlaps(d1, n1, d2, n2) { OverlapCollides(d1, n1, d2, n2); }
    if Overlaps(d2, n2, d1, n1) { OverlapCollides(d2, n2, d1, n1); }
  }

  lemma OverlapCollides(d1: string, n1: string, d2: string, n2: string)
    requires Overlaps(d1, n1, d2, n2)
    ensures Pair(d1, n1) == Pair(d2, n2)
  {
    var x :| d2 == d1 + [NUL] + x && n1 == x + [NUL] + n2;
    assert Pair(d1, n1) == d1 + [NUL] + x + [NUL] + n2;
  }

  lemma LongerContinues(d1: string, n1: string, d2: string, n2: string)
    requires Pair(d1, n1) == Pair(d2, n2) && |d1| < |d2|
    ensures Overlaps(d1, n1, d2, n2)
  {
    var p, q := Pair(d1, n1), Pair(d2, n2);
    assert d1 == p[..|d1|] && n1 == p[|d1| + 1..] && d2 == q[..|d2|] && n2 == q[|d2| + 1..];
    var x := d2[|d1| + 1..];
    assert d2[..|d1|] == d1 && d2[|d1|] == q[|d1|] == NUL;
    assert d2 == d1 + [NUL] + x;
    assert n1 == q[|d1| + 1..|d2|] + [NUL] + q[|d2| + 1..];
  }

  lemma OverlapHasNul(did: string, nonce: string, longer: string, rest: string)
    requires Overlaps(did, nonce, longer, rest)
    ensures NUL in longer && NUL in nonce
  {
    var x :| longer == did + [NUL] + x && nonce == x + [NUL] + rest;
    assert longer[|did|] == NUL && nonce[|x|] == NUL;
  }

  /** So for DIDs without NUL bytes both the nonce key and the signed message name one pair only. */
  lemma NulFreePairsAreSeparate(digest: Digest, d1: string, n1: string, d2: string, n2: string)
    requires NUL !in d1 && NUL !in d2
    requires digest(Pair(d1, n1)) == digest(Pair(d2, n2)) ==> Pair(d1, n1) == Pair(d2, n2)  // no collision
    ensures NonceKey(digest, d1, n1) == NonceKey(digest, d2, n2) <==> d1 == d2 && n1 == n2
    ensures Message(d1, n1) == Message(d2, n2) <==> d1 == d2 && n1 == n2
  {
    PairsCollide(d1, n1, d2, n2);
    if Overlaps(d1, n1, d2, n2) { OverlapHasNul(d1, n1, d2, n2); }
    if Overlaps(d2, n2, d1, n1) { OverlapHasNul(d2, n2, d1, n1); }
    assert Message(d1, n1)[|DEACTIVATE_DOMAIN|..] == Pair(d1, n1);
    assert Message(d2, n2)[|DEACTIVATE_DOMAIN|..] == Pair(d2, n2);
  }

  /** Spent keys come from accepted deactivations only. */
  lemma {:induction false} SpentBySomeone(digest: Digest, verify: Verifier, admin: AccountId, run: seq<Call>, n: nat,
                                          key: string)
    requires n <= |run| && key in At(digest, verify, admin, run, n).usedNonces
    ensures exists k: nat :: k < n && run[k].ControllerDeactivates?
              && DeactivatedAt(digest, verify, admin, run, k, run[k].did, run[k].nonce)
              && NonceKey(digest, run[k].did, run[k].nonce) == key
  {
    if key in At(digest, verify, admin, run, n - 1).usedNonces {
      SpentBySomeone(digest, verify, admin, run, n - 1, key);
    } else {
      assert DeactivatedAt(digest, verify, admin, run, n - 1, run[n - 1].did, run[n - 1].nonce);
    }
  }

  /** Two deactivation calls present different texts with the same digest. */
  predicate Collide(digest: Digest, c: Call, d: Call) {
    && c.ControllerDeactivates? && d.ControllerDeactivates?
    && Pair(c.did, c.nonce) != Pair(d.did, d.nonce) && digest(Pair(c.did, c.nonce)) == digest(Pair(d.did, d.nonce))
  }

  ghost predicate NoCollision(digest: Digest, run: seq<Call>) {
    forall i, j :: 0 <= i < |run| && 0 <= j < |run| ==> !Collide(digest, run[i], run[j])
  }

  /** Call `n` brings everything a controller deactivation needs but perhaps a fresh nonce. */
  ghost predicate SignedAt(digest: Digest, verify: Verifier, admin: AccountId, run: seq<Call>, n: nat)
    requires n < |run|
  {
    var s := At(digest, verify, admin, run, n);
    && run[n].ControllerDeactivates? && run[n].nonce != "" && run[n].did in s.workers
    && s.workers[run[n].did].controllerPubkey.Some?
    && verify(run[n].signature, Message(run[n].did, run[n].nonce), s.workers[run[n].did].controllerPubkey.value)
  }

  /** Call `k` was accepted and spent the bytes of this pair, under this pair or one that overlaps it. */
  ghost predicate SpentAt(digest: Digest, verify: Verifier, admin: AccountId, run: seq<Call>, k: nat, did: string,
                          nonce: string)
    requires k < |run|
  {
    && run[k].ControllerDeactivates? && DeactivatedAt(digest, verify, admin, run, k, run[k].did, run[k].nonce)
    && ((run[k].did == did && run[k].nonce == nonce)
        || Overlaps(run[k].did, run[k].nonce, did, nonce) || Overlaps(did, nonce, run[k].did, run[k].nonce))
  }

  /**
   * Replay protection, exactly, whatever bytes the DIDs hold: without a digest
   * collision in the run, a validly signed pair is turned away if and only if an
   * earlier accepted deactivation used that pair or one that overlaps it.
   */
  lemma ReplayProtectionIsExact(digest: Digest, verify: Verifier, admin: AccountId, run: seq<Call>, n: nat)
    requires n < |run| && SignedAt(digest, verify, admin, run, n) && NoCollision(digest, run)
    ensures !DeactivatedAt(digest, verify, admin, run, n, run[n].did, run[n].nonce) <==>
            exists k: nat :: k < n && SpentAt(digest, verify, admin, run, k, run[n].did, run[n].nonce)
  {
    hide At, Overlaps;
    var (did, nonce) := (run[n].did, run[n].nonce);
    var key := NonceKey(digest, did, nonce);
    if key in At(digest, verify, admin, run, n).usedNonces {
      SpentBySomeone(digest, verify, admin, run, n, key);
      var k: nat :| k < n && run[k].ControllerDeactivates?
        && DeactivatedAt(digest, verify, admin, run, k, run[k].did, run[k].nonce)
        && NonceKey(digest, run[k].did, run[k].nonce) == key;
      assert !Collide(digest, run[k], run[n]);
      PairsCollide(run[k].did, run[k].nonce, did, nonce);
      assert SpentAt(digest, verify, admin, run, k, did, nonce);
    }
    if k: nat :| k < n && SpentAt(digest, verify, admin, run, k, did, nonce) {
      PairsCollide(run[k].did, run[k].nonce, did, nonce);
      SpentAfterwards(digest, verify, admin, run, k, n, run[k].did, run[k].nonce);
    }
  }

  /** With no NUL byte in any DID presented, only the very same pair stands in the way. */
  lemma NulFreeReplayProtection(digest: Digest, verify: Verifier, admin: AccountId, run: seq<Call>, n: nat)
    requires n < |run| && SignedAt(digest, verify, admin, run, n) && NoCollision(digest, run)
    requires forall k :: 0 <= k < |run| && run[k].ControllerDeactivates? ==> NUL !in run[k].did
    ensures !DeactivatedAt(digest, verify, admin, run, n, run[n].did, run[n].nonce) <==>
            exists k: nat :: k < n && DeactivatedAt(digest, verify, admin, run, k, run[n].did, run[n].nonce)
  {
    ReplayProtectionIsExact(digest, verify, admin, run, n);
    hide At, Overlaps;
    var (did, nonce) := (run[n].did, run[n].nonce);
    if k: nat :| k < n && SpentAt(digest, verify, admin, run, k, did, nonce) {
      if Overlaps(run[k].did, run[k].nonce, did, nonce) { OverlapHasNul(run[k].did, run[k].nonce, did, nonce); }
      if Overlaps(did, nonce, run[k].did, run[k].nonce) { OverlapHasNul(did, nonce, run[k].did, run[k].nonce); }
    }
    if k: nat :| k < n && DeactivatedAt(digest, verify, admin, run, k, did, nonce) {
      assert SpentAt(digest, verify, admin, run, k, did, nonce);
    }
  }

  /** Two workers, one DID continuing the other past a NUL byte; the second deactivation overlaps the first. */
  function OverlappingRun(): seq<Call> {
    [Registers("a", DEFAULT_MIN_DEPOSIT, "did:x", "", "", Some("k"), 0),
     Registers("a", DEFAULT_MIN_DEPOSIT, "did:x\0y", "", "", Some("k"), 0),
     ControllerDeactivates("did:x", "y\0z", "s"), ControllerDeactivates("did:x\0y", "z", "s")]
  }

  lemma NewWorkerRegisters(digest: Digest, verify: Verifier, s: State, did: string)
    requires s.minDeposit == DEFAULT_MIN_DEPOSIT && "did:" <= did && did !in s.workers
    ensures var c := Registers("a", DEFAULT_MIN_DEPOSIT, did, "", "", Some("k"), 0);
            Apply(digest, verify, s, c)
            == s.(workerOrder := s.workerOrder + [did],
                  workers := s.workers[did := WorkerRecord("a", did, "", "", 0, true, Some("k"))])
  {
  }

  lemma BothRegistered(digest: Digest, verify: Verifier, admin: AccountId)
    ensures var s := At(digest, verify, admin, OverlappingRun(), 2);
            && s.usedNonces == {} && "did:x" in s.workers && "did:x\0y" in s.workers
            && s.workers["did:x"].controllerPubkey == s.workers["did:x\0y"].controllerPubkey == Some("k")
  {
    var run := OverlappingRun();
    var (near, far) := ("did:x", "did:x\0y");
    assert |near| != |far| && "did:" <= near && "did:" <= far;
    var (r, s, t) := (At(digest, verify, admin, run, 0), At(digest, verify, admin, run, 1),
                      At(digest, verify, admin, run, 2));
    assert s == Apply(digest, verify, r, run[0]) && t == Apply(digest, verify, s, run[1]) && r == InitialState(admin);
    hide At, Apply;
    NewWorkerRegisters(digest, verify, r, near);
    NewWorkerRegisters(digest, verify, s, far);
  }

  /** In this run a validly signed pair that was never used is refused. */
  lemma UnusedPairRefused(digest: Digest, verify: Verifier, admin: AccountId)
    requires forall message :: verify("s", message, "k")
    ensures var run := OverlappingRun();
            && DeactivatedAt(digest, verify, admin, run, 2, "did:x", "y\0z")
            && SignedAt(digest, verify, admin, run, 3)
            && !DeactivatedAt(digest, verify, admin, run, 3, "did:x\0y", "z")
  {
    var run := OverlappingRun();
    BothRegistered(digest, verify, admin);
    assert "did:x" + [NUL] + "y\0z" == "did:x\0y" + [NUL] + "z";
    var s := At(digest, verify, admin, run, 2);
    assert At(digest, verify, admin, run, 3) == Apply(digest, verify, s, run[2]);
    hide At;
  }
}
