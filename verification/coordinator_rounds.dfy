/**
 * Coordinator rounds over the contract. Neither the polling timer nor a manual
 * trigger waits for a running round, so any number of rounds may work on one
 * proposal at a time. A polling round goes on to the tally only if its record
 * call returned normally; a manually triggered one goes on in any case.
 */
module CoordinatorRounds {
  import opened Wrappers
  import opened CoordinatorSpec
  import opened Settlement
  import opened SharedKeys
  import opened Tally
  import opened LocalRound

  /** JSON text of a tally with the proposal's id and a time stamp. */
  type Encoder = (TallyResult, nat, string) -> string
  datatype Setting = Setting(hash: Hasher, parse: Parser, encode: Encoder, owner: AccountId)

  datatype Kind = Polling | Manual
  datatype Phase = Working | Tallying | Over
  datatype Round = Round(kind: Kind, proposal: nat, configHash: string, dids: seq<string>, phase: Phase)

  datatype Action =
    | Elsewhere(e: Event)                                              // owner, requesters and runtime
    | Begin(r: nat, kind: Kind, proposal: nat, configHash: string, dids: seq<string>)
    | RecordCall(r: nat, caller: AccountId, read: Snapshot, now: nat, replied: bool)
    | ResumeCall(r: nat, caller: AccountId, tallied: seq<string>, read: Snapshot, quorum: Option<int>, stamp: string)
    | GiveUp(r: nat)                                                   // timeout, no workers, any exception

  predicate InPhase(rounds: map<nat, Round>, r: nat, phase: Phase) { r in rounds && rounds[r].phase == phase }

  function TallyOfRead(x: Setting, a: Action): Option<TallyResult>
    requires a.ResumeCall?
  {
    TallyOf(BallotsOf(x.parse, a.read, a.tallied), a.quorum)
  }

  /** The call an action makes on the contract; `Reads` when it makes none. */
  function CallOf(x: Setting, rounds: map<nat, Round>, a: Action): Event {
    match a
    case Elsewhere(e) => if e.Records? || e.Resumes? then Reads else e
    case RecordCall(r, caller, read, now, _) =>
      if InPhase(rounds, r, Working)
      then Records(caller, rounds[r].proposal, Submissions(x.hash, x.parse, read, rounds[r].dids), now)
      else Reads
    case ResumeCall(r, caller, _, _, _, stamp) =>
      if InPhase(rounds, r, Tallying) && TallyOfRead(x, a).Some? then
        var result := x.encode(TallyOfRead(x, a).value, rounds[r].proposal, stamp);
        Resumes(caller, rounds[r].proposal, result, rounds[r].configHash, x.hash(result))
      else Reads
    case _ => Reads
  }

  /** How a round goes on. A rejected call, or a reply that never came, ends a polling round only. */
  ghost function Next(x: Setting, c: State, rounds: map<nat, Round>, a: Action): map<nat, Round> {
    match a
    case Begin(r, kind, proposal, configHash, dids) =>
      if r in rounds then rounds else rounds[r := Round(kind, proposal, configHash, dids, Working)]
    case RecordCall(r, caller, _, _, replied) =>
      if InPhase(rounds, r, Working) then
        var went := AcceptsRecord(c, CallOf(x, rounds, a), rounds[r].proposal) && replied;
        rounds[r := rounds[r].(phase := if went || rounds[r].kind == Manual then Tallying else Over)]
      else rounds
    case ResumeCall(r, _, _, _, _, _) =>
      if InPhase(rounds, r, Tallying) then rounds[r := rounds[r].(phase := Over)] else rounds
    case GiveUp(r) => if r in rounds then rounds[r := rounds[r].(phase := Over)] else rounds
    case Elsewhere(_) => rounds
  }

  /** The contract-level run that `n` actions produce, and the rounds after them. */
  ghost function Calls(x: Setting, acts: seq<Action>, n: nat): (run: seq<Event>)
    requires n <= |acts|
    ensures |run| == n
    decreases n, 0
  {
    if n == 0 then [] else Calls(x, acts, n - 1) + [CallOf(x, RoundsAt(x, acts, n - 1), acts[n - 1])]
  }

  ghost function RoundsAt(x: Setting, acts: seq<Action>, n: nat): map<nat, Round>
    requires n <= |acts|
    decreases n, 1
  {
    if n == 0 then map[]
    else Next(x, ContractAt(x.hash, x.owner, Calls(x, acts, n - 1), n - 1), RoundsAt(x, acts, n - 1), acts[n - 1])
  }

  /** The calls of the whole run, and proposal `id` at its end. */
  ghost function Whole(x: Setting, acts: seq<Action>): (run: seq<Event>)
    ensures |run| == |acts|
  {
    Calls(x, acts, |acts|)
  }

  ghost function Final(x: Setting, acts: seq<Action>, id: nat): Slot {
    SlotAt(x.hash, x.owner, Whole(x, acts), |acts|, id)
  }

  lemma {:induction false} CallsExtend(x: Setting, acts: seq<Action>, m: nat, n: nat)
    requires m <= n <= |acts|
    ensures Calls(x, acts, m) == Calls(x, acts, n)[..m]
  {
    if m < n { CallsExtend(x, acts, m, n - 1); }
  }

  lemma {:induction false} OnlyThePastMatters(hash: Hasher, owner: AccountId, run: seq<Event>, longer: seq<Event>,
                                              n: nat)
    requires n <= |run| <= |longer| && run == longer[..|run|]
    ensures At(hash, owner, run, n) == At(hash, owner, longer, n)
  {
    hide Step;
    if n > 0 {
      OnlyThePastMatters(hash, owner, run, longer, n - 1);
      assert run[n - 1] == longer[n - 1];
    }
  }

  /** At index `m` of a run of calls: the call made and the world it met. */
  lemma CallAt(x: Setting, acts: seq<Action>, m: nat, n: nat)
    requires m < n <= |acts|
    ensures Calls(x, acts, n)[m] == CallOf(x, RoundsAt(x, acts, m), acts[m])
    ensures At(x.hash, x.owner, Calls(x, acts, m), m) == At(x.hash, x.owner, Calls(x, acts, n), m)
  {
    hide At, CallOf, Next;
    CallsExtend(x, acts, m, n);
    CallsExtend(x, acts, m + 1, n);
    OnlyThePastMatters(x.hash, x.owner, Calls(x, acts, m), Calls(x, acts, n), m);
    assert Calls(x, acts, m + 1)[m] == Calls(x, acts, n)[m];
  }

  // ---------------------------------------------------------------- a round's own record

  /** Round `r` made the accepted submission record of proposal `id` at action `i`. */
  ghost predicate RecordedAt(x: Setting, acts: seq<Action>, r: nat, id: nat, i: nat)
    requires i < |acts|
  {
    && acts[i].RecordCall? && acts[i].r == r
    && AcceptsRecord(ContractAt(x.hash, x.owner, Calls(x, acts, i), i), CallOf(x, RoundsAt(x, acts, i), acts[i]), id)
  }

  /** The record call of round `r` was accepted. */
  ghost predicate OwnRecordAccepted(x: Setting, acts: seq<Action>, r: nat, id: nat) {
    exists i: nat :: i < |acts| && RecordedAt(x, acts, r, id, i)
  }

  /** A polling round that tallies has itself recorded its proposal. */
  lemma {:induction false} PollingRoundRecorded(x: Setting, acts: seq<Action>, r: nat, n: nat)
    requires n <= |acts| && InPhase(RoundsAt(x, acts, n), r, Tallying) && RoundsAt(x, acts, n)[r].kind == Polling
    ensures exists i: nat :: i < n && RecordedAt(x, acts, r, RoundsAt(x, acts, n)[r].proposal, i) && acts[i].replied
  {
    hide At, AcceptsRecord, CallOf;
    var before := RoundsAt(x, acts, n - 1);
    if InPhase(before, r, Tallying) {
      PollingRoundRecorded(x, acts, r, n - 1);
    } else {
      assert RecordedAt(x, acts, r, before[r].proposal, n - 1);
    }
  }

  /** What a round works on and with is fixed when it begins. */
  lemma {:induction false} RoundIsFixed(x: Setting, acts: seq<Action>, r: nat, m: nat, n: nat)
    requires m <= n <= |acts| && r in RoundsAt(x, acts, m)
    ensures r in RoundsAt(x, acts, n)
    ensures RoundsAt(x, acts, n)[r] == RoundsAt(x, acts, m)[r].(phase := RoundsAt(x, acts, n)[r].phase)
  {
    hide At, AcceptsRecord, CallOf;
    if m < n { RoundIsFixed(x, acts, r, m, n - 1); }
  }

  /** A round that is over stays over, and a further action of it makes no call. */
  lemma {:induction false} OverIsOver(x: Setting, acts: seq<Action>, r: nat, m: nat, n: nat)
    requires m <= n <= |acts| && InPhase(RoundsAt(x, acts, m), r, Over)
    ensures InPhase(RoundsAt(x, acts, n), r, Over)
    ensures n < |acts| && (acts[n].RecordCall? || acts[n].ResumeCall?) && acts[n].r == r ==>
              CallOf(x, RoundsAt(x, acts, n), acts[n]) == Event.Reads
  {
    hide At, AcceptsRecord;
    if m < n { OverIsOver(x, acts, r, m, n - 1); }
  }

  lemma RoundBegins(x: Setting, acts: seq<Action>, n: nat)
    requires n < |acts| && acts[n].Begin? && acts[n].r !in RoundsAt(x, acts, n)
    ensures var a := acts[n];
            && a.r in RoundsAt(x, acts, n + 1)
            && RoundsAt(x, acts, n + 1)[a.r] == Round(a.kind, a.proposal, a.configHash, a.dids, Working)
  {
    hide At;
  }

  lemma RoundsComeByBeginning(x: Setting, acts: seq<Action>, r: nat, n: nat)
    requires n < |acts|
    ensures r in RoundsAt(x, acts, n + 1) <==> r in RoundsAt(x, acts, n) || (acts[n].Begin? && acts[n].r == r)
  {
    hide At, AcceptsRecord;
  }

  /**
   * What the actions of a round make of it: giving up ends it, and so does its
   * resume; its record call takes it on to the tally, unless it is a polling round
   * and the call was refused or its reply lost.
   */
  lemma RoundStep(x: Setting, acts: seq<Action>, r: nat, n: nat)
    requires n < |acts| && r in RoundsAt(x, acts, n)
    ensures r in RoundsAt(x, acts, n + 1)
    ensures var (was, now, a) := (RoundsAt(x, acts, n)[r], RoundsAt(x, acts, n + 1)[r], acts[n]);
            now == was.(phase :=
              if a == GiveUp(r) || (a.ResumeCall? && a.r == r && was.phase == Tallying) then Over
              else if a.RecordCall? && a.r == r && was.phase == Working then
                if was.kind == Manual || (RecordedAt(x, acts, r, was.proposal, n) && a.replied) then Tallying
                else Over
              else was.phase)
  {
    hide At, AcceptsRecord, Submissions, TallyOf;
  }

  /**
   * The calls of a round in its terms: a record of its proposal with what its list
   * submits, and a resume with the hash of the config it began with, the text of
   * its tally and the hash of that text. In another phase it calls nothing.
   */
  lemma CallsInFields(x: Setting, acts: seq<Action>, r: nat, n: nat)
    requires n < |acts| && r in RoundsAt(x, acts, n)
    ensures var (q, a, call) := (RoundsAt(x, acts, n)[r], acts[n], Whole(x, acts)[n]);
            && (a.RecordCall? && a.r == r ==>
                  call == if q.phase != Working then Event.Reads
                          else Records(a.caller, q.proposal, Submissions(x.hash, x.parse, a.read, q.dids), a.now))
            && (a.ResumeCall? && a.r == r ==>
                  var tally := TallyOf(BallotsOf(x.parse, a.read, a.tallied), a.quorum);
                  call == if q.phase != Tallying || tally.None? then Event.Reads
                          else
                            var text := x.encode(tally.value, q.proposal, a.stamp);
                            Resumes(a.caller, q.proposal, text, q.configHash, x.hash(text)))
  {
    CallAt(x, acts, n, |acts|);
    hide At, Next, Submissions, TallyOf, RoundsAt, Calls;
  }

  /** Whatever else happens to the contract happens as it says; only rounds record and resume. */
  lemma OthersCallAsTheySay(x: Setting, acts: seq<Action>, n: nat)
    requires n < |acts| && acts[n].Elsewhere? && !acts[n].e.Records? && !acts[n].e.Resumes?
    ensures Whole(x, acts)[n] == acts[n].e
  {
    CallAt(x, acts, n, |acts|);
    hide At, Next, RoundsAt, Calls;
  }

  // ---------------------------------------------------------------- who finalized

  /** Action `i` recorded proposal `id`, and action `j` was the first accepted resume of it. */
  ghost predicate SettledFrom(x: Setting, acts: seq<Action>, id: nat, i: nat, j: nat) {
    && i < j < |acts| && acts[i].RecordCall? && acts[j].ResumeCall?
    && RecordsAt(x.hash, x.owner, Whole(x, acts), i, id) && FirstResume(x.hash, x.owner, Whole(x, acts), j, id)
  }

  /** The rounds and calls at two actions that settled a proposal. */
  lemma AtTheCalls(x: Setting, acts: seq<Action>, id: nat, i: nat, j: nat)
    requires SettledFrom(x, acts, id, i, j)
    ensures RecordedAt(x, acts, acts[i].r, id, i)
    ensures InPhase(RoundsAt(x, acts, i), acts[i].r, Working) && RoundsAt(x, acts, i)[acts[i].r].proposal == id
    ensures Whole(x, acts)[i].Records?
            && Whole(x, acts)[i].subs
               == Submissions(x.hash, x.parse, acts[i].read, RoundsAt(x, acts, i)[acts[i].r].dids)
    ensures InPhase(RoundsAt(x, acts, j), acts[j].r, Tallying) && RoundsAt(x, acts, j)[acts[j].r].proposal == id
    ensures TallyOfRead(x, acts[j]).Some? && Whole(x, acts)[j].Resumes?
            && Whole(x, acts)[j].result == x.encode(TallyOfRead(x, acts[j]).value, id, acts[j].stamp)
  {
    hide At, Next, RecordAccepted, ResumeAccepted;
    CallAt(x, acts, i, |acts|);
    CallAt(x, acts, j, |acts|);
  }

  /** A finalized result was sent by a round's resume call after a round's accepted record. */
  lemma FinalizedFromRounds(x: Setting, acts: seq<Action>, id: nat)
    requires Final(x, acts, id).Held? && Final(x, acts, id).p.state == Finalized
    ensures exists i: nat, j: nat :: SettledFrom(x, acts, id, i, j)
              && Final(x, acts, id).p.finalizedResult == Some(Whole(x, acts)[j].result)
  {
    hide At, SlotOf, RecordAccepted, ResumeAccepted, Next;
    var n, run := |acts|, Whole(x, acts);
    FinalizedProvenance(x.hash, x.owner, run, n, id);
    var i: nat, j: nat, k: nat :| SettledBy(x.hash, x.owner, run, n, id, i, j, k);
    CallAt(x, acts, i, n);
    CallAt(x, acts, j, n);
    assert SettledFrom(x, acts, id, i, j);
  }

  /**
   * However rounds overlap, the round that finalized a proposal is the one whose
   * submissions stand recorded if and only if its own record call was accepted.
   * For a polling round that is always so.
   */
  lemma FinalizerIsRecorder(x: Setting, acts: seq<Action>, id: nat, i: nat, j: nat)
    requires SettledFrom(x, acts, id, i, j)
    ensures acts[i].r == acts[j].r <==> OwnRecordAccepted(x, acts, acts[j].r, id)
    ensures acts[j].r in RoundsAt(x, acts, j)
    ensures RoundsAt(x, acts, j)[acts[j].r].kind == Polling ==> acts[i].r == acts[j].r
  {
    hide At, SlotOf, RecordAccepted, ResumeAccepted, Next, CallOf;
    AtTheCalls(x, acts, id, i, j);
    var r := acts[j].r;
    if RoundsAt(x, acts, j)[r].kind == Polling {
      PollingRoundRecorded(x, acts, r, j);
      var m: nat :| m < j && RecordedAt(x, acts, r, id, m) && acts[m].replied;
      assert OwnRecordAccepted(x, acts, r, id);
    }
    if m: nat :| m < |acts| && RecordedAt(x, acts, r, id, m) {
      CallAt(x, acts, m, |acts|);
      RecordedAtMostOnce(x.hash, x.owner, Whole(x, acts), i, m, id);
    }
  }

  // ---------------------------------------------------------------- what was finalized

  /** What is stored of a settled proposal are the submissions of its record call. */
  lemma StoredAreRecorded(x: Setting, acts: seq<Action>, id: nat, i: nat, j: nat)
    requires SettledFrom(x, acts, id, i, j) && Final(x, acts, id).Held? && Final(x, acts, id).p.state == Finalized
    ensures Final(x, acts, id).p.submissions == Stamp(Whole(x, acts)[i].subs, Whole(x, acts)[i].now)
  {
    hide At, SlotOf, RecordAccepted, ResumeAccepted;
    var run := Whole(x, acts);
    RecordedBy(x.hash, x.owner, run, |acts|, id);
    var k: nat :| k < |acts| && RecordsAt(x.hash, x.owner, run, k, id)
      && Final(x, acts, id).p.submissions == Stamp(run[k].subs, run[k].now);
    RecordedAtMostOnce(x.hash, x.owner, run, i, k, id);
  }

  /**
   * In every run, if the round that finalized a proposal is its recorder, tallied
   * the list it recorded, and found the results unchanged, then the result decodes
   * to a tally that counts at least the recorded submissions; exactly them if and
   * only if every worker present could be identified, which slash-free DIDs assure.
   */
  lemma SettledCountMatches(x: Setting, decode: string -> Option<TallyResult>, acts: seq<Action>, id: nat, i: nat,
                            j: nat)
    requires forall t, n, stamp :: decode(x.encode(t, n, stamp)) == Some(t)
    requires Final(x, acts, id).Held? && Final(x, acts, id).p.state == Finalized
    requires SettledFrom(x, acts, id, i, j) && acts[i].r == acts[j].r
    requires acts[i].r in RoundsAt(x, acts, i) && acts[j].tallied == RoundsAt(x, acts, i)[acts[i].r].dids
    requires SameResults(acts[i].read, acts[j].read, acts[j].tallied)
    ensures Final(x, acts, id).p.finalizedResult.Some? && decode(Final(x, acts, id).p.finalizedResult.value).Some?
    ensures var p := Final(x, acts, id).p;
            var t := decode(p.finalizedResult.value).value;
            && Some(t) == TallyOf(BallotsOf(x.parse, acts[j].read, acts[j].tallied), acts[j].quorum)
            && t.workerCount >= |p.submissions| && |p.submissions| % 0x100 == p.expectedWorkerCount
            && (t.workerCount == |p.submissions| <==>
                 forall k :: 0 <= k < |acts[j].tallied| ==>
                   Identified(x.hash, x.parse, acts[i].read, acts[j].tallied[k]))
            && ((forall k :: 0 <= k < |acts[j].tallied| ==> acts[j].tallied[k] != "" && '/' !in acts[j].tallied[k]) ==>
                 t.workerCount == |p.submissions|)
  {
    var (p, dids, first) := (Final(x, acts, id).p, acts[j].tallied, acts[i].read);
    hide At, SlotOf, RecordAccepted, ResumeAccepted, Next, CallOf, Identified;
    FinalizedFromRounds(x, acts, id);
    FirstIsOne(x, acts, id, j);
    AtTheCalls(x, acts, id, i, j);
    RunIsConsistent(x.hash, x.owner, Whole(x, acts), |acts|, id);
    StoredAreRecorded(x, acts, id, i, j);
    SameBallots(x.parse, first, acts[j].read, dids);
    CountsAgree(x.hash, x.parse, first, dids);
    if forall k :: 0 <= k < |dids| ==> dids[k] != "" && '/' !in dids[k] {
      forall k | 0 <= k < |dids|
        ensures Identified(x.hash, x.parse, first, dids[k])
      {
        assert BallotsOf(x.parse, first, dids)[k] == BallotOf(x.parse, first, dids[k]);
        SlashFreeIsIdentified(x.hash, x.parse, first, dids[k]);
      }
    }
  }

  /**
   * And if the recorder's list has the length the proposal expects, which is below
   * 256, the finalized count is the expected one, identified or not.
   */
  lemma FinalizedCountIsExpected(x: Setting, decode: string -> Option<TallyResult>, acts: seq<Action>, id: nat, i: nat,
                                 j: nat)
    requires forall t, n, stamp :: decode(x.encode(t, n, stamp)) == Some(t)
    requires Final(x, acts, id).Held? && Final(x, acts, id).p.state == Finalized
    requires SettledFrom(x, acts, id, i, j) && acts[i].r == acts[j].r
    requires acts[i].r in RoundsAt(x, acts, i) && acts[j].tallied == RoundsAt(x, acts, i)[acts[i].r].dids
    requires SameResults(acts[i].read, acts[j].read, acts[j].tallied)
    requires |acts[j].tallied| == Final(x, acts, id).p.expectedWorkerCount as int
    ensures Final(x, acts, id).p.finalizedResult.Some? && decode(Final(x, acts, id).p.finalizedResult.value).Some?
    ensures var p := Final(x, acts, id).p;
            decode(p.finalizedResult.value).value.workerCount == |p.submissions| == p.expectedWorkerCount as int
  {
    hide At, SlotOf, RecordAccepted, ResumeAccepted, Next, CallOf, Identified;
    SettledCountMatches(x, decode, acts, id, i, j);
    FinalizedFromRounds(x, acts, id);
    FirstIsOne(x, acts, id, j);
    AtTheCalls(x, acts, id, i, j);
    StoredAreRecorded(x, acts, id, i, j);
    NobodyDropped(x.hash, x.parse, acts[i].read, acts[j].tallied);
  }

  /** There is one first resume, and its argument is what was finalized. */
  lemma FirstIsOne(x: Setting, acts: seq<Action>, id: nat, j: nat)
    requires j < |acts| && FirstResume(x.hash, x.owner, Whole(x, acts), j, id)
    requires Final(x, acts, id).Held? && Final(x, acts, id).p.state == Finalized
    ensures Final(x, acts, id).p.finalizedResult == Some(Whole(x, acts)[j].result)
  {
    hide At, SlotOf, ResumeAccepted;
    FirstResumeOutcome(x.hash, x.owner, Whole(x, acts), j, |acts|, id);
  }

  // ---------------------------------------------------------------- a manual round that overtakes

  /** The run `acts` leads to these rounds and this world. */
  ghost predicate Reaches(x: Setting, acts: seq<Action>, w: World, rounds: map<nat, Round>) {
    At(x.hash, x.owner, Whole(x, acts), |acts|) == w && RoundsAt(x, acts, |acts|) == rounds
  }

  lemma {:induction false} SamePast(x: Setting, acts: seq<Action>, longer: seq<Action>, n: nat)
    requires n <= |acts| && acts <= longer
    ensures Calls(x, acts, n) == Calls(x, longer, n) && RoundsAt(x, acts, n) == RoundsAt(x, longer, n)
  {
    hide At, Next, CallOf;
    if n > 0 { SamePast(x, acts, longer, n - 1); }
  }

  lemma OneMore(x: Setting, acts: seq<Action>, w: World, rounds: map<nat, Round>, a: Action, v: World, after: map<nat,
                Round>)
    requires Reaches(x, acts, w, rounds)
    requires v == Step(x.hash, w, CallOf(x, rounds, a)) && after == Next(x, w.contract, rounds, a)
    ensures Reaches(x, acts + [a], v, after)
  {
    hide Step, Next, CallOf;
    var longer := acts + [a];
    SamePast(x, acts, longer, |acts|);
    CallAt(x, longer, |acts|, |longer|);
  }

  const PRESENT: string := "w"
  const NO: Snapshot := map[ResultKey(PRESENT) := "no"]
  const YES: Snapshot := map[ResultKey(PRESENT) := "yes"]

  /**
   * A polling and a manual round pick up the same proposal of one worker. The
   * polling round records the rejection it read, the manual round's record of the
   * approval it read later is refused, and the manual round resumes first.
   */
  function OvertakingRun(x: Setting): seq<Action> {
    Prepared(x) + [RecordCall(0, x.owner, NO, 0, true)] + [RecordCall(1, x.owner, YES, 0, true)]
    + [ResumeCall(1, x.owner, [PRESENT], YES, None, "")] + [Elsewhere(Delivers(1))]
  }

  function Prepared(x: Setting): seq<Action> {
    [Elsewhere(SetsManifesto(x.owner, ""))] + [Elsewhere(Approves(x.owner, "code"))]
    + [Elsewhere(Registers(x.owner, "sum", "code"))] + [Elsewhere(Starts(x.owner, "", 1, 0, 1, 0))]
    + [Begin(0, Polling, 1, x.hash(""), [PRESENT])] + [Begin(1, Manual, 1, x.hash(""), [PRESENT])]
  }

  function Ready(x: Setting): State {
    InitialState(x.owner).(manifesto := Some(""), approved := {"code"},
                           coordinators := map[x.owner := Worker("sum", "code")])
  }

  function With(x: Setting, p: Proposal, status: YieldStatus): World {
    World(Ready(x).(currentId := 1, order := [1], proposals := map[1 := p]), map[1 := Yield(1, status)])
  }

  function Fresh(x: Setting): Proposal { Proposal(1, "", x.hash(""), 0, x.owner, Created, 1, 0, [], None) }

  function Recorded(x: Setting): Proposal {
    Fresh(x).(state := WorkersCompleted, submissions := [Submission(PRESENT, x.hash("no"), 0)])
  }

  function BothRounds(x: Setting, polling: Phase, manual: Phase): map<nat, Round> {
    map[0 := Round(Polling, 1, x.hash(""), [PRESENT], polling), 1 := Round(Manual, 1, x.hash(""), [PRESENT], manual)]
  }

  ghost predicate ParsesBallots(parse: Parser) {
    && parse("no") == Value(WorkerResult(PRESENT, "Rejected", None, 0))
    && parse("yes") == Value(WorkerResult(PRESENT, "Approved", None, 0))
  }

  lemma ReadsOfOne(x: Setting)
    requires ParsesBallots(x.parse)
    ensures Submissions(x.hash, x.parse, NO, [PRESENT]) == [SubmissionInput(PRESENT, x.hash("no"))]
    ensures TallyOf(BallotsOf(x.parse, YES, [PRESENT]), None) == Some(TallyResult(Approvals(1), 1, 0, Approved, 1))
  {
    var bs := BallotsOf(x.parse, YES, [PRESENT]);
    assert bs == [Approve] && bs[..0] == [];
    assert [PRESENT][1..] == [];
  }

  lemma PreparedReaches(x: Setting)
    ensures Reaches(x, Prepared(x), With(x, Fresh(x), Pending), BothRounds(x, Working, Working))
  {
    hide Reaches, RoundsAt, Calls;
    var c := InitialState(x.owner);
    Empty(x);
    var acts := [];
    OneMore(x, acts, World(c, map[]), map[], Elsewhere(SetsManifesto(x.owner, "")),
            World(c.(manifesto := Some("")), map[]), map[]);
    acts := acts + [Elsewhere(SetsManifesto(x.owner, ""))];
    OneMore(x, acts, World(c.(manifesto := Some("")), map[]), map[], Elsewhere(Approves(x.owner, "code")),
            World(c.(manifesto := Some(""), approved := {"code"}), map[]), map[]);
    acts := acts + [Elsewhere(Approves(x.owner, "code"))];
    OneMore(x, acts, World(c.(manifesto := Some(""), approved := {"code"}), map[]), map[],
            Elsewhere(Registers(x.owner, "sum", "code")), World(Ready(x), map[]), map[]);
    acts := acts + [Elsewhere(Registers(x.owner, "sum", "code"))];
    OneMore(x, acts, World(Ready(x), map[]), map[], Elsewhere(Starts(x.owner, "", 1, 0, 1, 0)),
            With(x, Fresh(x), Pending), map[]);
    acts := acts + [Elsewhere(Starts(x.owner, "", 1, 0, 1, 0))];
    BothBegin(x, acts);
    assert acts + [Begin(0, Polling, 1, x.hash(""), [PRESENT])] + [Begin(1, Manual, 1, x.hash(""), [PRESENT])]
           == Prepared(x);
  }

  lemma BothBegin(x: Setting, acts: seq<Action>)
    requires Reaches(x, acts, With(x, Fresh(x), Pending), map[])
    ensures Reaches(x,
                    acts + [Begin(0, Polling, 1, x.hash(""), [PRESENT])] + [Begin(1, Manual, 1, x.hash(""), [PRESENT])],
                    With(x, Fresh(x), Pending), BothRounds(x, Working, Working))
  {
    hide Reaches, RoundsAt, Calls;
    var first := map[0 := Round(Polling, 1, x.hash(""), [PRESENT], Working)];
    OneMore(x, acts, With(x, Fresh(x), Pending), map[], Begin(0, Polling, 1, x.hash(""), [PRESENT]),
            With(x, Fresh(x), Pending), first);
    OneMore(x, acts + [Begin(0, Polling, 1, x.hash(""), [PRESENT])], With(x, Fresh(x), Pending), first,
            Begin(1, Manual, 1, x.hash(""), [PRESENT]), With(x, Fresh(x), Pending), BothRounds(x, Working, Working));
  }

  lemma Empty(x: Setting)
    ensures Reaches(x, [], World(InitialState(x.owner), map[]), map[])
  {
  }

  /** The polling round's record is accepted, the manual round's refused. */
  lemma OneRecordAccepted(x: Setting)
    requires ParsesBallots(x.parse)
    ensures var (w, rounds, a) := (With(x, Fresh(x), Pending), BothRounds(x, Working, Working),
                                   RecordCall(0, x.owner, NO, 0, true));
            && Step(x.hash, w, CallOf(x, rounds, a)) == With(x, Recorded(x), Pending)
            && AcceptsRecord(w.contract, CallOf(x, rounds, a), 1)
    ensures var (w, rounds, a) := (With(x, Recorded(x), Pending), BothRounds(x, Tallying, Working),
                                   RecordCall(1, x.owner, YES, 0, true));
            Step(x.hash, w, CallOf(x, rounds, a)) == w
  {
    hide Submissions;
    ReadsOfOne(x);
    var subs := [SubmissionInput(PRESENT, x.hash("no"))];
    assert [] + Stamp(subs, 0) == [Submission(PRESENT, x.hash("no"), 0)];
  }

  lemma Overtaken(x: Setting)
    requires ParsesBallots(x.parse)
    ensures var result := x.encode(TallyResult(Approvals(1), 1, 0, Approved, 1), 1, "");
            Reaches(x, OvertakingRun(x),
                    With(x, Recorded(x).(state := Finalized, finalizedResult := Some(result)), Delivered),
                    BothRounds(x, Tallying, Over))
  {
    hide Reaches, RoundsAt, Calls, Submissions, BallotsOf, TallyOf, Record;
    var result := x.encode(TallyResult(Approvals(1), 1, 0, Approved, 1), 1, "");
    ReadsOfOne(x);
    OneRecordAccepted(x);
    PreparedReaches(x);
    var acts := Prepared(x);
    var (w0, w1) := (With(x, Fresh(x), Pending), With(x, Recorded(x), Pending));
    OneMore(x, acts, w0, BothRounds(x, Working, Working), RecordCall(0, x.owner, NO, 0, true), w1,
            BothRounds(x, Tallying, Working));
    acts := acts + [RecordCall(0, x.owner, NO, 0, true)];
    OneMore(x, acts, w1, BothRounds(x, Tallying, Working), RecordCall(1, x.owner, YES, 0, true), w1,
            BothRounds(x, Tallying, Tallying));
    acts := acts + [RecordCall(1, x.owner, YES, 0, true)];
    var w2 := With(x, Recorded(x), ResumedWith(result));
    OneMore(x, acts, w1, BothRounds(x, Tallying, Tallying), ResumeCall(1, x.owner, [PRESENT], YES, None, ""),
            w2, BothRounds(x, Tallying, Over));
    acts := acts + [ResumeCall(1, x.owner, [PRESENT], YES, None, "")];
    OneMore(x, acts, w2, BothRounds(x, Tallying, Over), Elsewhere(Delivers(1)),
            With(x, Recorded(x).(state := Finalized, finalizedResult := Some(result)), Delivered),
            BothRounds(x, Tallying, Over));
  }

  /**
   * So a finalized result need not come from the round whose submissions stand
   * recorded: here an approval is settled over a recorded rejection.
   */
  lemma ManualRoundOvertakes(x: Setting)
    requires ParsesBallots(x.parse)
    ensures var slot := Final(x, OvertakingRun(x), 1);
            && slot.Held? && slot.p.state == Finalized
            && slot.p.submissions == [Submission(PRESENT, x.hash("no"), 0)]
            && slot.p.finalizedResult == Some(x.encode(TallyResult(Approvals(1), 1, 0, Approved, 1), 1, ""))
    ensures exists i: nat, j: nat :: SettledFrom(x, OvertakingRun(x), 1, i, j)
              && OvertakingRun(x)[i].r == 0 && OvertakingRun(x)[j].r == 1
  {
    OvertakenSlot(x);
    var acts := OvertakingRun(x);
    RunSteps(x);
    PollingRecordGoesFirst(x);
    hide OvertakingRun, Final, RoundsAt, Calls, FirstResume;
    FinalizedFromRounds(x, acts, 1);
    var i: nat, j: nat :| SettledFrom(x, acts, 1, i, j);
    RecordedAtMostOnce(x.hash, x.owner, Whole(x, acts), i, 6, 1);
  }

  lemma RunSteps(x: Setting)
    ensures var acts := OvertakingRun(x);
            && |acts| == 10 && acts[6] == RecordCall(0, x.owner, NO, 0, true)
            && forall k :: 0 <= k < 10 && acts[k].ResumeCall? ==> acts[k].r == 1
  {
  }

  lemma OvertakenSlot(x: Setting)
    requires ParsesBallots(x.parse)
    ensures var slot := Final(x, OvertakingRun(x), 1);
            && slot.Held? && slot.p.state == Finalized
            && slot.p.submissions == [Submission(PRESENT, x.hash("no"), 0)]
            && slot.p.finalizedResult == Some(x.encode(TallyResult(Approvals(1), 1, 0, Approved, 1), 1, ""))
  {
    Overtaken(x);
    FinalOf(x, OvertakingRun(x), 1);
    hide Final, OvertakingRun, At, RoundsAt, Calls;
  }

  lemma FinalOf(x: Setting, acts: seq<Action>, id: nat)
    ensures var c := At(x.hash, x.owner, Whole(x, acts), |acts|).contract;
            id in c.proposals ==> Final(x, acts, id).Held? && Final(x, acts, id).p == c.proposals[id]
  {
    hide At;
  }

  lemma PollingRecordGoesFirst(x: Setting)
    requires ParsesBallots(x.parse)
    ensures RecordsAt(x.hash, x.owner, Whole(x, OvertakingRun(x)), 6, 1)
  {
    var acts := OvertakingRun(x);
    PreparedReaches(x);
    hide At, RoundsAt, Calls, Step, Next;
    assert acts[..6] == Prepared(x);
    SamePast(x, Prepared(x), acts, 6);
    CallAt(x, acts, 6, |acts|);
    OneRecordAccepted(x);
  }
}
