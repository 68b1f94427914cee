/**
 * The on-chain coordinator contract: what each public entry point accepts and
 * how it changes the contract. A panicking call is `None`: the transaction is
 * rolled back and nothing changes.
 */
module CoordinatorSpec {
  import opened Wrappers

  type AccountId = string
  /** SHA-256 followed by hex encoding, left uninterpreted. */
  type Hasher = string -> string

  datatype ProposalState = Created | WorkersCompleted | Finalized | TimedOut

  datatype SubmissionInput = SubmissionInput(workerId: string, resultHash: string)
  datatype Submission = Submission(workerId: string, resultHash: string, timestamp: nat)

  datatype Proposal = Proposal(
    yieldId: nat,
    taskConfig: string,
    configHash: string,
    timestamp: nat,
    requester: AccountId,
    state: ProposalState,
    expectedWorkerCount: u8,
    quorum: u8,
    submissions: seq<Submission>,
    finalizedResult: Option<string>)

  datatype Worker = Worker(checksum: string, codehash: string)

  /** `order` is the key vector behind the iterable proposal map. */
  datatype State = State(
    owner: AccountId,
    approved: set<string>,
    coordinators: map<AccountId, Worker>,
    currentId: nat,
    order: seq<nat>,
    proposals: map<nat, Proposal>,
    manifesto: Option<string>)

  const TEXT_LIMIT: nat := 10000

  /** `String::len` counts UTF-8 bytes. */
  function Utf8Len(s: string): nat {
    if s == [] then 0
    else
      var c := s[0] as int;
      (if c < 0x80 then 1 else if c < 0x800 then 2 else if c < 0x1_0000 then 3 else 4) + Utf8Len(s[1..])
  }

  function InitialState(owner: AccountId): State {
    State(owner, {}, map[], 0, [], map[], None)
  }

  /** The caller is a registered coordinator whose codehash is approved at this moment. */
  predicate ApprovedCoordinator(s: State, caller: AccountId) {
    caller in s.coordinators && s.coordinators[caller].codehash in s.approved
  }

  /** No incoming worker id repeats a stored one or another incoming one. */
  ghost predicate NoRepeats(stored: seq<Submission>, incoming: seq<SubmissionInput>) {
    && (forall i, j :: 0 <= i < |stored| && 0 <= j < |incoming| ==> stored[i].workerId != incoming[j].workerId)
    && (forall i, j :: 0 <= i < j < |incoming| ==> incoming[i].workerId != incoming[j].workerId)
  }

  function Stamp(subs: seq<SubmissionInput>, now: nat): (r: seq<Submission>)
    ensures |r| == |subs|
    ensures forall i :: 0 <= i < |r| ==> r[i] == Submission(subs[i].workerId, subs[i].resultHash, now)
  {
    seq(|subs|, i requires 0 <= i < |subs| => Submission(subs[i].workerId, subs[i].resultHash, now))
  }

  function SetManifesto(s: State, caller: AccountId, text: string): Option<State> {
    if caller == s.owner && Utf8Len(text) <= TEXT_LIMIT then Some(s.(manifesto := Some(text))) else None
  }

  /** `yieldId` is the identifier the runtime hands out for the yielded promise. */
  function Start(hash: Hasher, s: State, caller: AccountId, taskConfig: string,
                 expected: u8, quorum: u8, yieldId: nat, now: nat): Option<State>
  {
    if s.manifesto.Some? && Utf8Len(taskConfig) <= TEXT_LIMIT && s.currentId < U64_MAX then
      var id := s.currentId + 1;
      var p := Proposal(yieldId, taskConfig, hash(taskConfig), now, caller, Created, expected, quorum, [], None);
      Some(s.(currentId := id,
              order := if id in s.proposals then s.order else s.order + [id],
              proposals := s.proposals[id := p]))
    else None
  }

  /** The count is compared after truncation to eight bits. */
  ghost predicate RecordAccepted(s: State, caller: AccountId, id: nat, subs: seq<SubmissionInput>) {
    && ApprovedCoordinator(s, caller)
    && id in s.proposals
    && s.proposals[id].state == Created
    && |subs| % 0x100 == s.proposals[id].expectedWorkerCount
    && NoRepeats(s.proposals[id].submissions, subs)
  }

  ghost function Record(s: State, caller: AccountId, id: nat, subs: seq<SubmissionInput>, now: nat): Option<State> {
    if RecordAccepted(s, caller, id, subs) then
      var p := s.proposals[id];
      Some(s.(proposals := s.proposals[id := p.(submissions := p.submissions + Stamp(subs, now),
                                                 state := WorkersCompleted)]))
    else None
  }

  /** Resuming reads the contract only; its effect is on the yielded promise. */
  predicate ResumeAccepted(hash: Hasher, s: State, caller: AccountId, id: nat,
                           result: string, configHash: string, resultHash: string)
  {
    && ApprovedCoordinator(s, caller)
    && id in s.proposals
    && s.proposals[id].state == WorkersCompleted
    && s.proposals[id].configHash == configHash
    && hash(result) == resultHash
  }

  /** The private callback of a yield: it checks no state of its own. */
  function Callback(s: State, id: nat, response: Option<string>): State {
    if id !in s.proposals then s
    else
      var p := s.proposals[id];
      s.(proposals := s.proposals[id :=
        match response
        case Some(result) => p.(state := Finalized, finalizedResult := Some(result))
        case None => p.(state := TimedOut)])
  }

  function ApproveCodehash(s: State, caller: AccountId, codehash: string): Option<State> {
    if caller == s.owner then Some(s.(approved := s.approved + {codehash})) else None
  }

  function RemoveCodehash(s: State, caller: AccountId, codehash: string): Option<State> {
    if caller == s.owner then Some(s.(approved := s.approved - {codehash})) else None
  }

  function RegisterCoordinator(s: State, caller: AccountId, checksum: string, codehash: string): Option<State> {
    if caller == s.owner && codehash in s.approved
    then Some(s.(coordinators := s.coordinators[caller := Worker(checksum, codehash)]))
    else None
  }

  /** Removal from the key vector moves the last key into the gap. */
  function SwapRemove(order: seq<nat>, id: nat): seq<nat> {
    if id in order then
      var k := IndexOf(order, id);
      var last := |order| - 1;
      order[k := order[last]][..last]
    else order
  }

  function IndexOf(order: seq<nat>, id: nat): (k: nat)
    requires id in order
    ensures k < |order| && order[k] == id
  {
    if order[0] == id then 0 else 1 + IndexOf(order[1..], id)
  }

  function ClearProposal(s: State, caller: AccountId, id: nat): Option<State> {
    if caller == s.owner
    then Some(s.(order := SwapRemove(s.order, id), proposals := s.proposals - {id}))
    else None
  }

  function TransferOwnership(s: State, caller: AccountId, newOwner: AccountId): Option<State> {
    if caller == s.owner then Some(s.(owner := newOwner)) else None
  }
}

/** The nullifier loop one input at a time. */
module Nullifier {
  import opened Wrappers
  import opened CoordinatorSpec

  lemma NoInputs(stored: seq<Submission>)
    ensures NoRepeats(stored, [])
  {
  }

  /** The loop's search hits exactly if input `n` is a repetition, and then the whole batch holds one. */
  lemma OneMoreInput(stored: seq<Submission>, subs: seq<SubmissionInput>, n: nat, now: nat)
    requires n < |subs| && NoRepeats(stored, subs[..n])
    ensures var seen := stored + Stamp(subs, now)[..n];
            NoRepeats(stored, subs[..n + 1]) <==> !exists k :: 0 <= k < |seen| && seen[k].workerId == subs[n].workerId
    ensures Stamp(subs, now)[..n + 1] == Stamp(subs, now)[..n] + [Submission(subs[n].workerId, subs[n].resultHash, now)]
    ensures !NoRepeats(stored, subs[..n + 1]) ==> !NoRepeats(stored, subs)
  {
    SearchFindsRepeat(stored, subs, n, now);
    hide NoRepeats;
    if NoRepeats(stored, subs) { PrefixOfBatch(stored, subs, n + 1); }
  }

  lemma SearchFindsRepeat(stored: seq<Submission>, subs: seq<SubmissionInput>, n: nat, now: nat)
    requires n < |subs| && NoRepeats(stored, subs[..n])
    ensures var seen := stored + Stamp(subs, now)[..n];
            NoRepeats(stored, subs[..n + 1]) <==> !exists k :: 0 <= k < |seen| && seen[k].workerId == subs[n].workerId
  {
    var seen := stored + Stamp(subs, now)[..n];
    assert forall k :: 0 <= k < |stored| ==> seen[k] == stored[k];
    assert forall k :: 0 <= k < n ==> seen[|stored| + k].workerId == subs[k].workerId;
  }

  lemma PrefixOfBatch(stored: seq<Submission>, subs: seq<SubmissionInput>, n: nat)
    requires n <= |subs| && NoRepeats(stored, subs)
    ensures NoRepeats(stored, subs[..n])
  {
  }
}

/** The contract as an object whose entry points update its fields in place. */
module CoordinatorContract {
  import opened Wrappers
  import opened CoordinatorSpec
  import opened Nullifier

  class Contract {
    var owner: AccountId
    var approvedCodehashes: set<string>
    var coordinatorByAccountId: map<AccountId, Worker>
    var currentProposalId: nat
    var proposalOrder: seq<nat>
    var proposals: map<nat, Proposal>
    var manifesto: Option<string>

    ghost function View(): State
      reads this
    {
      State(owner, approvedCodehashes, coordinatorByAccountId, currentProposalId, proposalOrder, proposals, manifesto)
    }

    constructor (owner: AccountId)
      ensures View() == InitialState(owner)
    {
      this.owner := owner;
      approvedCodehashes, coordinatorByAccountId := {}, map[];
      currentProposalId, proposalOrder, proposals := 0, [], map[];
      manifesto := None;
    }

    method SetManifesto(caller: AccountId, text: string) returns (ok: bool)
      modifies this
      ensures var r := CoordinatorSpec.SetManifesto(old(View()), caller, text);
              ok == r.Some? && View() == if ok then r.value else old(View())
    {
      if caller != owner || Utf8Len(text) > TEXT_LIMIT { return false; }
      manifesto := Some(text);
      return true;
    }

    method StartCoordination(hash: Hasher, caller: AccountId, taskConfig: string, expectedWorkerCount: u8, quorum: u8,
                             yieldId: nat, now: nat)
      returns (r: Option<nat>)
      modifies this
      ensures var s := Start(hash, old(View()), caller, taskConfig, expectedWorkerCount, quorum, yieldId, now);
              r.Some? == s.Some? && View() == if r.Some? then s.value else old(View())
      ensures r.Some? ==> r.value == old(currentProposalId) + 1
    {
      if manifesto.None? || Utf8Len(taskConfig) > TEXT_LIMIT { return None; }
      if currentProposalId >= U64_MAX { return None; }
      currentProposalId := currentProposalId + 1;
      var id := currentProposalId;
      var p := Proposal(yieldId, taskConfig, hash(taskConfig), now, caller, Created, expectedWorkerCount, quorum, [],
                        None);
      if id !in proposals { proposalOrder := proposalOrder + [id]; }
      proposals := proposals[id := p];
      return Some(id);
    }

    /** The nullifier loop; a repeated worker id anywhere rolls the whole call back. */
    method RecordWorkerSubmissions(caller: AccountId, id: nat, subs: seq<SubmissionInput>, now: nat) returns (ok: bool)
      modifies this
      ensures var r := Record(old(View()), caller, id, subs, now);
              ok == r.Some? && View() == if ok then r.value else old(View())
    {
      if caller !in coordinatorByAccountId || coordinatorByAccountId[caller].codehash !in approvedCodehashes {
        return false;
      }
      if id !in proposals || proposals[id].state != Created { return false; }
      var proposal := proposals[id];
      if |subs| % 0x100 != proposal.expectedWorkerCount { return false; }

      hide NoRepeats;
      ghost var stored := proposal.submissions;
      NoInputs(stored);
      for n := 0 to |subs|
        invariant View() == old(View()) && id in proposals
        invariant proposal == proposals[id].(submissions := stored + Stamp(subs, now)[..n])
        invariant NoRepeats(stored, subs[..n])
      {
        var sub := subs[n];
        OneMoreInput(stored, subs, n, now);
        if exists k :: 0 <= k < |proposal.submissions| && proposal.submissions[k].workerId == sub.workerId {
          return false;
        }
        proposal := proposal.(submissions := proposal.submissions + [Submission(sub.workerId, sub.resultHash, now)]);
      }
      assert subs[..|subs|] == subs && Stamp(subs, now)[..|subs|] == Stamp(subs, now);
      proposal := proposal.(state := WorkersCompleted);
      proposals := proposals[id := proposal];
      return true;
    }

    /** Checks only: the data goes to the runtime, the contract state stays as it is. */
    method CoordinatorResume(hash: Hasher, caller: AccountId, id: nat, result: string,
                             configHash: string, resultHash: string)
      returns (resumed: Option<(nat, string)>)
      ensures resumed.Some? == ResumeAccepted(hash, View(), caller, id, result, configHash, resultHash)
      ensures resumed.Some? ==> resumed.value == (proposals[id].yieldId, result)
    {
      if caller !in coordinatorByAccountId || coordinatorByAccountId[caller].codehash !in approvedCodehashes {
        return None;
      }
      if id !in proposals || proposals[id].state != WorkersCompleted { return None; }
      if proposals[id].configHash != configHash { return None; }
      if hash(result) != resultHash { return None; }
      return Some((proposals[id].yieldId, result));
    }

    method ReturnCoordinationResult(id: nat, response: Option<string>)
      modifies this
      ensures View() == Callback(old(View()), id, response)
      ensures proposals.Keys == old(proposals.Keys) && proposalOrder == old(proposalOrder)
      ensures forall x :: x in proposals && x != id ==> proposals[x] == old(proposals)[x]
      ensures id in proposals ==>
                && proposals[id].state == (if response.Some? then Finalized else TimedOut)
                && proposals[id].finalizedResult
                   == (if response.Some? then response else old(proposals)[id].finalizedResult)
                && proposals[id].submissions == old(proposals)[id].submissions
    {
      match response {
        case Some(result) =>
          if id in proposals {
            proposals := proposals[id := proposals[id].(state := Finalized, finalizedResult := Some(result))];
          }
        case None =>
          if id in proposals {
            proposals := proposals[id := proposals[id].(state := TimedOut)];
          }
      }
    }

    method ApproveCodehash(caller: AccountId, codehash: string) returns (ok: bool)
      modifies this
      ensures var r := CoordinatorSpec.ApproveCodehash(old(View()), caller, codehash);
              ok == r.Some? && View() == if ok then r.value else old(View())
    {
      if caller != owner { return false; }
      approvedCodehashes := approvedCodehashes + {codehash};
      return true;
    }

    method RemoveCodehash(caller: AccountId, codehash: string) returns (ok: bool)
      modifies this
      ensures var r := CoordinatorSpec.RemoveCodehash(old(View()), caller, codehash);
              ok == r.Some? && View() == if ok then r.value else old(View())
    {
      if caller != owner { return false; }
      approvedCodehashes := approvedCodehashes - {codehash};
      return true;
    }

    method RegisterCoordinator(caller: AccountId, checksum: string, codehash: string) returns (ok: bool)
      modifies this
      ensures var r := CoordinatorSpec.RegisterCoordinator(old(View()), caller, checksum, codehash);
              ok == r.Some? && View() == if ok then r.value else old(View())
    {
      if caller != owner || codehash !in approvedCodehashes { return false; }
      coordinatorByAccountId := coordinatorByAccountId[caller := Worker(checksum, codehash)];
      return true;
    }

    method ClearProposal(caller: AccountId, id: nat) returns (ok: bool)
      modifies this
      ensures var r := CoordinatorSpec.ClearProposal(old(View()), caller, id);
              ok == r.Some? && View() == if ok then r.value else old(View())
      ensures ok <==> caller == old(owner)
      ensures ok ==> proposals.Keys == old(proposals.Keys) - {id}
      ensures ok ==> forall x :: x in proposals ==> proposals[x] == old(proposals)[x]
      ensures currentProposalId == old(currentProposalId) && owner == old(owner)
    {
      if caller != owner { return false; }
      proposalOrder := SwapRemove(proposalOrder, id);
      proposals := proposals - {id};
      return true;
    }

    method TransferOwnership(caller: AccountId, newOwner: AccountId) returns (ok: bool)
      modifies this
      ensures var r := CoordinatorSpec.TransferOwnership(old(View()), caller, newOwner);
              ok == r.Some? && View() == if ok then r.value else old(View())
    {
      if caller != owner { return false; }
      owner := newOwner;
      return true;
    }
  }
}
