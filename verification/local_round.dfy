/**
 * One coordinator round from discovery to settlement: who is dispatched, who is
 * awaited, what is recorded on chain and what is tallied.
 */
module LocalRound {
  import opened Wrappers
  import opened SharedKeys
  import opened Tally
  import opened CoordinatorSpec

  datatype WorkerRecord = WorkerRecord(did: string, endpointUrl: string, cvmId: Option<string>)

  // ---------------------------------------------------------------- dispatch

  function LowerAscii(c: char): char { if 'A' <= c <= 'Z' then c - 'A' + 'a' else c }

  predicate HasPrefixIgnoringCase(s: string, prefix: string) {
    |prefix| <= |s| && forall k :: 0 <= k < |prefix| ==> LowerAscii(s[k]) == prefix[k]
  }

  /** Workers without an HTTP endpoint pull their task themselves. */
  predicate Polling(w: WorkerRecord) {
    !HasPrefixIgnoringCase(w.endpointUrl, "http://") && !HasPrefixIgnoringCase(w.endpointUrl, "https://")
  }

  predicate Ironclaw(w: WorkerRecord) { w.cvmId.Some? && "ironclaw-" <= w.cvmId.value }

  predicate Dispatched(w: WorkerRecord, localMode: bool) { !Polling(w) && (Ironclaw(w) || localMode) }

  predicate HasIronclaw(items: seq<WorkerRecord>) {
    exists k :: 0 <= k < |items| && Ironclaw(items[k]) && !Polling(items[k])
  }

  /** The DIDs whose dispatch failed; `replies[k]` says whether the request to worker `k` succeeded. */
  ghost function Lost(items: seq<WorkerRecord>, localMode: bool, replies: seq<bool>): set<string>
    requires |replies| >= |items|
  {
    set k | 0 <= k < |items| && Dispatched(items[k], localMode) && !replies[k] :: items[k].did
  }

  function Without(items: seq<WorkerRecord>, lost: set<string>): seq<WorkerRecord> {
    if items == [] then []
    else (if items[0].did in lost then [] else [items[0]]) + Without(items[1..], lost)
  }

  /** The worker array that dispatching edits in place. */
  class WorkerList {
    var items: seq<WorkerRecord>

    constructor (items: seq<WorkerRecord>)
      ensures this.items == items
    {
      this.items := items;
    }

    /** Local workers first, IronClaw workers next, then every unreachable DID leaves the list. */
    method TriggerWorkers(localMode: bool, webhookSecret: string, replies: seq<bool>) returns (threw: bool)
      requires |replies| >= |items|
      modifies this
      ensures threw <==> webhookSecret == "" && HasIronclaw(old(items))
      ensures items == if threw then old(items) else Without(old(items), Lost(old(items), localMode, replies))
    {
      var unreachable: set<string> := {};
      var n := |items|;
      if localMode {
        for k := 0 to n
          invariant items == old(items)
          invariant unreachable
            == set i | 0 <= i < k && !Ironclaw(items[i]) && !Polling(items[i]) && !replies[i] :: items[i].did
        {
          if !Ironclaw(items[k]) && !Polling(items[k]) && !replies[k] { unreachable := unreachable + {items[k].did}; }
        }
      }
      ghost var local := unreachable;
      if HasIronclaw(items) && webhookSecret == "" { return true; }
      for k := 0 to n
        invariant items == old(items)
        invariant unreachable
          == local + set i | 0 <= i < k && Ironclaw(items[i]) && !Polling(items[i]) && !replies[i] :: items[i].did
      {
        if Ironclaw(items[k]) && !Polling(items[k]) && !replies[k] { unreachable := unreachable + {items[k].did}; }
      }
      assert unreachable == Lost(items, localMode, replies);
      if unreachable != {} {
        var reachable := Without(items, unreachable);
        items := [];
        items := items + reachable;
      } else {
        WithoutNothing(items);
      }
      return false;
    }
  }

  lemma {:induction false} WithoutNothing(items: seq<WorkerRecord>)
    ensures Without(items, {}) == items
  {
    if items != [] { WithoutNothing(items[1..]); }
  }

  lemma {:induction false} WithoutSplit(a: seq<WorkerRecord>, b: seq<WorkerRecord>, lost: set<string>)
    ensures Without(a + b, lost) == Without(a, lost) + Without(b, lost)
  {
    if a == [] {
      assert a + b == b;
    } else {
      assert (a + b)[1..] == a[1..] + b;
      WithoutSplit(a[1..], b, lost);
    }
  }

  lemma {:induction false} WithoutKeeps(items: seq<WorkerRecord>, lost: set<string>)
    ensures forall w :: w in Without(items, lost) <==> w in items && w.did !in lost
  {
    if items != [] { WithoutKeeps(items[1..], lost); }
  }

  /**
   * Removal keeps exactly the workers whose own dispatch, and that of every
   * namesake, did not fail; order and multiplicity of those are untouched.
   */
  lemma WithoutIsOrderly(a: seq<WorkerRecord>, b: seq<WorkerRecord>, lost: set<string>)
    ensures Without(a + b, lost) == Without(a, lost) + Without(b, lost)
    ensures forall w :: w in Without(a, lost) <==> w in a && w.did !in lost
  {
    WithoutSplit(a, b, lost);
    WithoutKeeps(a, lost);
  }

  // ---------------------------------------------------------------- waiting and reading

  predicate Done(statuses: Snapshot, did: string) {
    StatusKey(did) in statuses && statuses[StatusKey(did)] in {"completed", "failed"}
  }

  /** The status stored for `did` says that its task ended, well or not. */
  ghost predicate Ended(statuses: Snapshot, did: string) {
    var key := "coordination/tasks/" + did + "/status";
    key in statuses && (statuses[key] == "completed" || statuses[key] == "failed")
  }

  ghost predicate AllEnded(statuses: Snapshot, dids: seq<string>) {
    forall k :: 0 <= k < |dids| ==> Ended(statuses, dids[k])
  }

  ghost predicate AllDone(statuses: Snapshot, dids: seq<string>) {
    forall k :: 0 <= k < |dids| ==> Done(statuses, dids[k])
  }

  /**
   * Polls until one read shows everybody done; a failed worker counts as done.
   * `polls` are the reads the timeout allows.
   */
  method WaitForWorkers(dids: seq<string>, polls: seq<Snapshot>) returns (allCompleted: bool)
    ensures allCompleted <==> dids != [] && SomePollSawAllDone(dids, polls)
    ensures allCompleted <==>
            dids != [] && exists p :: 0 <= p < |polls| && AllEnded(polls[p], dids)
  {
    SeenDone(dids, polls);
    hide Ended, AllEnded;
    if dids == [] { return false; }
    for p := 0 to |polls|
      invariant forall q :: 0 <= q < p ==> !AllDone(polls[q], dids)
    {
      var allDone := true;
      for k := 0 to |dids|
        invariant allDone <==> forall i :: 0 <= i < k ==> Done(polls[p], dids[i])
      {
        if !Done(polls[p], dids[k]) { allDone := false; }
      }
      assert allDone <==> AllDone(polls[p], dids);
      if allDone { return true; }
    }
    return false;
  }

  lemma DoneIsEnded(statuses: Snapshot, did: string)
    ensures Done(statuses, did) <==> Ended(statuses, did)
  {
    assert StatusKey(did) == "coordination/tasks/" + did + "/status";
  }

  lemma AllDoneAllEnded(statuses: Snapshot, dids: seq<string>)
    ensures AllDone(statuses, dids) <==> AllEnded(statuses, dids)
  {
    hide Done, Ended;
    forall k | 0 <= k < |dids|
      ensures Done(statuses, dids[k]) <==> Ended(statuses, dids[k])
    {
      DoneIsEnded(statuses, dids[k]);
    }
  }

  lemma SeenDone(dids: seq<string>, polls: seq<Snapshot>)
    ensures SomePollSawAllDone(dids, polls) <==>
            exists p :: 0 <= p < |polls| && AllEnded(polls[p], dids)
  {
    hide AllDone, AllEnded;
    forall p | 0 <= p < |polls|
      ensures AllDone(polls[p], dids) <==> AllEnded(polls[p], dids)
    {
      AllDoneAllEnded(polls[p], dids);
    }
  }

  predicate AllThere(keys: seq<string>, read: Snapshot) {
    forall k :: 0 <= k < |keys| ==> keys[k] in read
  }

  /** The first of three reads that misses no key, else the last. */
  function ChosenRead(keys: seq<string>, tries: seq<Snapshot>): Snapshot
    requires |tries| == 3
  {
    if AllThere(keys, tries[0]) then tries[0] else if AllThere(keys, tries[1]) then tries[1] else tries[2]
  }

  method ReadResultsWithRetry(keys: seq<string>, tries: seq<Snapshot>) returns (results: Snapshot)
    requires |tries| == 3
    ensures results == ChosenRead(keys, tries)
    ensures exists t :: 0 <= t < 3 && results == tries[t]
              && (t < 2 ==> forall k :: 0 <= k < |keys| ==> keys[k] in tries[t])
              && forall r :: 0 <= r < t ==> exists k :: 0 <= k < |keys| && keys[k] !in tries[r]
  {
    results := tries[0];
    for attempt := 0 to 2
      invariant results == tries[attempt]
      invariant forall r :: 0 <= r < attempt ==>
                  !AllThere(keys, tries[r]) && exists k :: 0 <= k < |keys| && keys[k] !in tries[r]
    {
      if AllThere(keys, results) { return; }
      assert exists k :: 0 <= k < |keys| && keys[k] !in tries[attempt];
      results := tries[attempt + 1];
    }
  }

  // ---------------------------------------------------------------- submissions

  /** A worker's nullifier: its id, preferably from the result, and the hash of the result text. */
  function SubmissionOf(hash: Hasher, parse: Parser, results: Snapshot, did: string): Option<SubmissionInput> {
    var key := ResultKey(did);
    if key !in results || results[key] == "" then None
    else
      match parse(results[key])
      case Value(r) =>
        var id := if r.workerId != "" then r.workerId else ExtractWorkerId(key);
        if id == "" then None else Some(SubmissionInput(id, hash(results[key])))
      case _ => None
  }

  function Submissions(hash: Hasher, parse: Parser, results: Snapshot, dids: seq<string>): seq<SubmissionInput> {
    if dids == [] then []
    else
      var first := SubmissionOf(hash, parse, results, dids[0]);
      (if first.Some? then [first.value] else []) + Submissions(hash, parse, results, dids[1..])
  }

  lemma {:induction false} NobodyDropped(hash: Hasher, parse: Parser, results: Snapshot, dids: seq<string>)
    ensures |Submissions(hash, parse, results, dids)| <= |dids|
    ensures |Submissions(hash, parse, results, dids)| == |dids| ==>
              forall k :: 0 <= k < |dids| ==>
                SubmissionOf(hash, parse, results, dids[k]) == Some(Submissions(hash, parse, results, dids)[k])
  {
    if dids != [] { NobodyDropped(hash, parse, results, dids[1..]); }
  }

  /**
   * What an accepted record says about the round that sent it. The proposal
   * expects as many workers as the list has, an eight-bit number; so every
   * listed worker contributed exactly one readable result, in list order, under
   * the hash of that result, and no worker is listed twice.
   */
  lemma RecordMeansEveryWorker(hash: Hasher, parse: Parser, results: Snapshot, dids: seq<string>,
                               s: State, caller: AccountId, id: nat)
    requires id in s.proposals && s.proposals[id].expectedWorkerCount as int == |dids|
    requires RecordAccepted(s, caller, id, Submissions(hash, parse, results, dids))
    ensures |Submissions(hash, parse, results, dids)| == |dids|
    ensures forall k :: 0 <= k < |dids| ==>
              && ResultKey(dids[k]) in results
              && parse(results[ResultKey(dids[k])]).Value?
              && Submissions(hash, parse, results, dids)[k].resultHash == hash(results[ResultKey(dids[k])])
    ensures Distinct(dids)
  {
    NobodyDropped(hash, parse, results, dids);
    var subs := Submissions(hash, parse, results, dids);
    forall i, j | 0 <= i < j < |dids|
      ensures dids[i] != dids[j]
    {
      assert subs[i].workerId != subs[j].workerId;
      assert SubmissionOf(hash, parse, results, dids[i]) == Some(subs[i]);
      assert SubmissionOf(hash, parse, results, dids[j]) == Some(subs[j]);
    }
  }

  /** The result cells of the listed workers read the same both times. */
  ghost predicate SameResults(a: Snapshot, b: Snapshot, dids: seq<string>) {
    forall k :: 0 <= k < |dids| ==>
      (ResultKey(dids[k]) in a <==> ResultKey(dids[k]) in b)
      && (ResultKey(dids[k]) in a ==> a[ResultKey(dids[k])] == b[ResultKey(dids[k])])
  }

  lemma {:induction false} EveryonePresent(bs: seq<Ballot>)
    requires forall k :: 0 <= k < |bs| ==> bs[k] != Missing
    ensures Count(bs, IsPresent) == |bs|
  {
    if bs != [] { EveryonePresent(bs[..|bs| - 1]); }
  }

  /**
   * If the results do not change before they are read again, the tally counts
   * exactly the number of workers the recorded proposal expects.
   */
  lemma FinalCountIsExpected(hash: Hasher, parse: Parser, first: Snapshot, second: Snapshot, dids: seq<string>,
                             s: State, caller: AccountId, id: nat, quorum: Option<int>)
    requires id in s.proposals && s.proposals[id].expectedWorkerCount as int == |dids|
    requires RecordAccepted(s, caller, id, Submissions(hash, parse, first, dids))
    requires SameResults(first, second, dids)
    ensures TallyOf(BallotsOf(parse, second, dids), quorum).Some?
    ensures TallyOf(BallotsOf(parse, second, dids), quorum).value.workerCount
            == s.proposals[id].expectedWorkerCount as int
  {
    RecordMeansEveryWorker(hash, parse, first, dids, s, caller, id);
    NobodyDropped(hash, parse, first, dids);
    var bs := BallotsOf(parse, second, dids);
    forall k | 0 <= k < |dids|
      ensures bs[k] != Missing && bs[k] != Broken
    {
      assert SubmissionOf(hash, parse, first, dids[k]).Some?;
    }
    EveryonePresent(bs);
  }

  // ---------------------------------------------------------------- the whole round

  function Dids(items: seq<WorkerRecord>): (dids: seq<string>)
    ensures |dids| == |items| && forall k :: 0 <= k < |items| ==> dids[k] == items[k].did
  {
    seq(|items|, k requires 0 <= k < |items| => items[k].did)
  }

  function ResultKeys(dids: seq<string>): (keys: seq<string>)
    ensures |keys| == |dids|
    ensures forall k :: 0 <= k < |dids| ==> keys[k] == "coordination/tasks/" + dids[k] + "/result"
  {
    seq(|dids|, k requires 0 <= k < |dids| => ResultKey(dids[k]))
  }

  /** What the round meets outside: replies, reads and limits. */
  datatype Surroundings = Surroundings(
    localMode: bool, webhookSecret: string, replies: seq<bool>,
    minWorkers: int, maxWorkers: nat, votingMinWorkers: Option<int>,
    started: Option<nat>,                       // proposal id, if the start call was seen to succeed
    snapshotReadsBack: bool,                    // both the snapshot's write and its later read succeed
    polls: seq<Snapshot>, submissionReads: seq<Snapshot>, tallyReads: seq<Snapshot>,
    quorum: Option<int>, fallbackDids: seq<string>)

  /** `expected` is the count announced on chain; `snapshot` and `subs` exist when a proposal does. */
  datatype Report =
    | Stopped
    | Finished(awaited: seq<string>, expected: nat, snapshot: Option<seq<string>>,
               subs: Option<seq<SubmissionInput>>, tally: TallyResult)

  function EffectiveMin(e: Surroundings): int {
    if e.votingMinWorkers.Some? then e.votingMinWorkers.value else e.minWorkers
  }

  function Considered(discovered: seq<WorkerRecord>, e: Surroundings): seq<WorkerRecord> {
    if e.maxWorkers <= |discovered| then discovered[..e.maxWorkers] else discovered
  }

  /** The reachable part, in discovery order, of the first `maxWorkers` workers. */
  ghost function Listed(discovered: seq<WorkerRecord>, e: Surroundings): seq<string>
    requires |e.replies| >= |discovered|
  {
    var active := Considered(discovered, e);
    Dids(Without(active, Lost(active, e.localMode, e.replies)))
  }

  /** Enough workers at every check, dispatch did not throw, and one poll saw all of them done. */
  ghost predicate Proceeds(discovered: seq<WorkerRecord>, e: Surroundings)
    requires |e.replies| >= |discovered|
  {
    && |discovered| >= e.minWorkers && |Considered(discovered, e)| >= EffectiveMin(e)
    && !(e.webhookSecret == "" && HasIronclaw(Considered(discovered, e)))
    && |Listed(discovered, e)| >= EffectiveMin(e) && Listed(discovered, e) != []
    && SomePollSawAllDone(Listed(discovered, e), e.polls)
  }

  ghost predicate SomePollSawAllDone(dids: seq<string>, polls: seq<Snapshot>) {
    exists p :: 0 <= p < |polls| && AllDone(polls[p], dids)
  }

  /** The tally over `dids` from the read the retry loop settles on. */
  ghost function TallyRead(parse: Parser, dids: seq<string>, e: Surroundings): Option<TallyResult>
    requires |e.tallyReads| == 3
  {
    TallyOf(BallotsOf(parse, ChosenRead(ResultKeys(dids), e.tallyReads), dids), e.quorum)
  }

  /** The list the tally runs over: the snapshot, or a fresh discovery when there is none to read. */
  ghost function Tallied(discovered: seq<WorkerRecord>, e: Surroundings): seq<string>
    requires |e.replies| >= |discovered|
  {
    if e.started.Some? && e.snapshotReadsBack then Listed(discovered, e) else e.fallbackDids
  }

  /**
   * The list awaited, announced, snapshotted and recorded is one and the same,
   * and the tally runs over it too when the snapshot reads back.
   */
  method TriggerLocalCoordination(hash: Hasher, parse: Parser, discovered: seq<WorkerRecord>, e: Surroundings)
    returns (report: Report)
    requires |e.replies| >= |discovered| && |e.submissionReads| == 3 && |e.tallyReads| == 3
    ensures var (dids, tallied) := (Listed(discovered, e), Tallied(discovered, e));
            && (report.Finished? <==> Proceeds(discovered, e) && TallyRead(parse, tallied, e).Some?)
            && (report.Finished? ==>
                  && report.awaited == dids && report.expected == |dids|
                  && report.snapshot == (if e.started.Some? then Some(dids) else None)
                  && report.subs == (if e.started.Some?
                                     then Some(Submissions(hash, parse,
                                                           ChosenRead(ResultKeys(dids), e.submissionReads), dids))
                                     else None)
                  && TallyRead(parse, tallied, e) == Some(report.tally))
  {
    if |discovered| < e.minWorkers { return Stopped; }
    var active := new WorkerList(Considered(discovered, e));
    var effectiveMinWorkers := EffectiveMin(e);
    if |active.items| < effectiveMinWorkers { return Stopped; }
    var threw := active.TriggerWorkers(e.localMode, e.webhookSecret, e.replies);
    if threw { return Stopped; }
    if |active.items| < effectiveMinWorkers { return Stopped; }

    var dids := Dids(active.items);
    var snapshot := if e.started.Some? then Some(dids) else None;
    var allCompleted := WaitForWorkers(dids, e.polls);
    if !allCompleted { return Stopped; }

    var subs: Option<seq<SubmissionInput>> := None;
    if e.started.Some? {
      var read := ReadResultsWithRetry(ResultKeys(dids), e.submissionReads);
      subs := Some(Submissions(hash, parse, read, dids));
    }
    var snapshotRead := if e.snapshotReadsBack then snapshot else None;
    var tallied := if snapshotRead.Some? && snapshotRead.value != [] then snapshotRead.value else e.fallbackDids;
    var results := ReadResultsWithRetry(ResultKeys(tallied), e.tallyReads);
    var tally := AggregateResults(parse, tallied, results, e.quorum);
    if tally.None? { return Stopped; }
    return Finished(dids, |active.items|, snapshot, subs, tally.value);
  }

  // ---------------------------------------------------------------- submissions against ballots

  /** Whatever the worker put there, an id can be found for it. */
  ghost predicate Identified(hash: Hasher, parse: Parser, results: Snapshot, did: string) {
    BallotOf(parse, results, did) != Missing ==> SubmissionOf(hash, parse, results, did).Some?
  }

  /** With a non-empty slash-free DID that is always so, unless the tally throws. */
  lemma SlashFreeIsIdentified(hash: Hasher, parse: Parser, results: Snapshot, did: string)
    requires did != "" && '/' !in did && BallotOf(parse, results, did) != Broken
    ensures Identified(hash, parse, results, did)
  {
    ExtractInverts(did);
    hide ExtractWorkerId;
  }

  /**
   * From one reading of the results a tally that does not throw counts at least as
   * many workers as are submitted, and as many exactly if all are identified.
   */
  lemma {:induction false} CountsAgree(hash: Hasher, parse: Parser, results: Snapshot, dids: seq<string>)
    requires Broken !in BallotsOf(parse, results, dids)
    ensures |Submissions(hash, parse, results, dids)| <= Count(BallotsOf(parse, results, dids), IsPresent)
    ensures |Submissions(hash, parse, results, dids)| == Count(BallotsOf(parse, results, dids), IsPresent) <==>
            forall k :: 0 <= k < |dids| ==> Identified(hash, parse, results, dids[k])
  {
    if dids != [] {
      OneBallot(parse, results, dids);
      IdentifiedOrNot(hash, parse, results, dids[0]);
      assert |Submissions(hash, parse, results, dids)|
             == |Submissions(hash, parse, results, dids[1..])|
                + if SubmissionOf(hash, parse, results, dids[0]).Some? then 1 else 0;
      hide Identified, SubmissionOf, BallotOf, BallotsOf, Count, Submissions;
      CountsAgree(hash, parse, results, dids[1..]);
      assert forall k :: 0 <= k < |dids| - 1 ==> dids[1..][k] == dids[k + 1];
    }
  }

  lemma IdentifiedOrNot(hash: Hasher, parse: Parser, results: Snapshot, did: string)
    ensures Identified(hash, parse, results, did) <==>
            BallotOf(parse, results, did) == Missing || SubmissionOf(hash, parse, results, did).Some?
    ensures BallotOf(parse, results, did) == Missing ==> SubmissionOf(hash, parse, results, did).None?
  {
  }

  lemma OneBallot(parse: Parser, results: Snapshot, dids: seq<string>)
    requires dids != []
    ensures Count(BallotsOf(parse, results, dids), IsPresent)
            == Count(BallotsOf(parse, results, dids[1..]), IsPresent)
               + if BallotOf(parse, results, dids[0]) == Missing then 0 else 1
    ensures Broken in BallotsOf(parse, results, dids[1..]) ==> Broken in BallotsOf(parse, results, dids)
  {
    var b := BallotOf(parse, results, dids[0]);
    hide BallotOf;
    var bs := BallotsOf(parse, results, dids[1..]);
    assert BallotsOf(parse, results, dids) == [b] + bs;
    CountSplit([b], bs, IsPresent);
    CountOfOne(b);
  }

  lemma CountOfOne(b: Ballot)
    ensures Count([b], IsPresent) == if b == Missing then 0 else 1
  {
    assert [b][..0] == [];
  }

  /** Readings that agree on the listed workers yield the same ballots. */
  lemma SameBallots(parse: Parser, first: Snapshot, second: Snapshot, dids: seq<string>)
    requires SameResults(first, second, dids)
    ensures BallotsOf(parse, first, dids) == BallotsOf(parse, second, dids)
  {
  }

  // ---------------------------------------------------------------- the round in the fields of its data

  /** The address begins with `scheme`, a lower-case text, in whatever case. */
  ghost predicate BeginsWith(url: string, scheme: string) {
    && |scheme| <= |url|
    && forall k :: 0 <= k < |scheme| ==>
         url[k] == scheme[k] || ('a' <= scheme[k] <= 'z' && url[k] as int + 32 == scheme[k] as int)
  }

  /**
   * Dispatch loses exactly the DIDs of workers with an HTTP address, in whatever
   * case, that are IronClaw workers or met in local mode, and did not reply.
   */
  lemma LostExactly(items: seq<WorkerRecord>, localMode: bool, replies: seq<bool>, did: string)
    requires |replies| >= |items|
    ensures did in Lost(items, localMode, replies) <==>
            exists k :: 0 <= k < |items| && items[k].did == did && !replies[k]
              && (BeginsWith(items[k].endpointUrl, "http://") || BeginsWith(items[k].endpointUrl, "https://"))
              && (localMode || (items[k].cvmId.Some? && "ironclaw-" <= items[k].cvmId.value))
  {
    forall k | 0 <= k < |items|
      ensures Dispatched(items[k], localMode) <==>
              && (BeginsWith(items[k].endpointUrl, "http://") || BeginsWith(items[k].endpointUrl, "https://"))
              && (localMode || (items[k].cvmId.Some? && "ironclaw-" <= items[k].cvmId.value))
    {
      PrefixIgnoringCase(items[k].endpointUrl, "http://");
      PrefixIgnoringCase(items[k].endpointUrl, "https://");
    }
    hide Dispatched, BeginsWith;
  }

  lemma PrefixIgnoringCase(s: string, prefix: string)
    requires forall k :: 0 <= k < |prefix| ==> !('A' <= prefix[k] <= 'Z')
    ensures HasPrefixIgnoringCase(s, prefix) <==> BeginsWith(s, prefix)
  {
    forall k | 0 <= k < |prefix| && |prefix| <= |s|
      ensures LowerAscii(s[k]) == prefix[k] <==>
              s[k] == prefix[k] || ('a' <= prefix[k] <= 'z' && s[k] as int + 32 == prefix[k] as int)
    {
    }
  }

  /** Dispatch is refused exactly if there is an IronClaw worker with an HTTP address and the secret is empty. */
  lemma IronclawExactly(items: seq<WorkerRecord>)
    ensures HasIronclaw(items) <==>
            exists k :: 0 <= k < |items| && items[k].cvmId.Some? && "ironclaw-" <= items[k].cvmId.value
              && (BeginsWith(items[k].endpointUrl, "http://") || BeginsWith(items[k].endpointUrl, "https://"))
  {
    forall k | 0 <= k < |items|
      ensures Polling(items[k]) <==>
              !BeginsWith(items[k].endpointUrl, "http://") && !BeginsWith(items[k].endpointUrl, "https://")
    {
      PrefixIgnoringCase(items[k].endpointUrl, "http://");
      PrefixIgnoringCase(items[k].endpointUrl, "https://");
    }
    hide Polling, BeginsWith;
  }

  /**
   * What a worker submits: its own id if its result gives one, else the one in its
   * key, under the hash of the whole text; nothing if the text is missing, does
   * not parse to a value, or yields no id.
   */
  lemma SubmissionInFields(hash: Hasher, parse: Parser, results: Snapshot, did: string)
    ensures var key := "coordination/tasks/" + did + "/result";
            var there := key in results && results[key] != "" && parse(results[key]).Value?;
            && (SubmissionOf(hash, parse, results, did).Some? ==> there)
            && (there && parse(results[key]).r.workerId != "" ==>
                 SubmissionOf(hash, parse, results, did)
                 == Some(SubmissionInput(parse(results[key]).r.workerId, hash(results[key]))))
            && (there && parse(results[key]).r.workerId == "" && '/' !in did ==>
                 SubmissionOf(hash, parse, results, did)
                 == if did == "" then None else Some(SubmissionInput(did, hash(results[key]))))
  {
    assert ResultKey(did) == "coordination/tasks/" + did + "/result";
    ExtractInverts(did);
    hide ExtractWorkerId, ResultKey;
  }

  /** The submissions of a list are those of its parts, in order. */
  lemma {:induction false} SubmissionsInOrder(hash: Hasher, parse: Parser, results: Snapshot, a: seq<string>,
                                              b: seq<string>)
    ensures Submissions(hash, parse, results, a + b)
            == Submissions(hash, parse, results, a) + Submissions(hash, parse, results, b)
    ensures |a| == 1 ==>
              Submissions(hash, parse, results, a)
              == if SubmissionOf(hash, parse, results, a[0]).Some?
                 then [SubmissionOf(hash, parse, results, a[0]).value] else []
  {
    hide SubmissionOf;
    if a == [] {
      assert a + b == b;
    } else {
      assert (a + b)[1..] == a[1..] + b;
      SubmissionsInOrder(hash, parse, results, a[1..], b);
    }
  }

  /**
   * The conditions of a round in its settings: who is considered, how many are
   * needed, over what the tally runs and by which quorum.
   */
  lemma RoundInFields(parse: Parser, discovered: seq<WorkerRecord>, e: Surroundings)
    requires |e.replies| >= |discovered| && |e.tallyReads| == 3
    ensures var active := if |discovered| <= e.maxWorkers then discovered else discovered[..e.maxWorkers];
            var needed := if e.votingMinWorkers.None? then e.minWorkers else e.votingMinWorkers.value;
            var listed := Dids(Without(active, Lost(active, e.localMode, e.replies)));
            && Listed(discovered, e) == listed
            && (Proceeds(discovered, e) <==>
                 && |discovered| >= e.minWorkers && |active| >= needed && |listed| >= needed && listed != []
                 && (e.webhookSecret != "" || !HasIronclaw(active)) && SomePollSawAllDone(listed, e.polls))
            && Tallied(discovered, e) == (if e.started.None? || !e.snapshotReadsBack then e.fallbackDids else listed)
            && forall dids :: TallyRead(parse, dids, e)
                 == TallyOf(BallotsOf(parse, ChosenRead(ResultKeys(dids), e.tallyReads), dids), e.quorum)
  {
    assert discovered[..|discovered|] == discovered;
    hide Without, Lost, HasIronclaw, BallotsOf, TallyOf, ChosenRead;
  }
}
