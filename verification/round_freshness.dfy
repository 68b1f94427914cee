/**
 * Coordinator rounds and their push workers over the shared memory, interleaved
 * step by step. Rounds may overlap, and a worker takes on a task whenever one
 * arrives. Each worker owns a status cell and a result cell; a result carries the
 * number of the round whose task produced it. The memory client logs a failed
 * write and goes on, so every write says whether it lands.
 */
module RoundFreshness {
  import opened Wrappers

  type Did = string

  datatype Status = Idle | Pending | Processing | Completed | Failed

  /** Where a task is: accepted, at work, result written. */
  datatype Pc = Started | Working | Wrote

  /** The tasks a worker runs, by round, and its two cells. */
  datatype Worker = Worker(tasks: map<nat, Pc>, status: Status, result: Option<nat>)

  datatype Round =
    | Resetting(all: set<Did>, todo: set<Did>)
    | Dispatching(all: set<Did>, todo: set<Did>, unreachable: set<Did>)
    | Waiting(listed: set<Did>, seen: map<Did, Status>)  // the ended workers, with the status seen
    | Reading(listed: set<Did>, seen: map<Did, Status>, tally: map<Did, Option<nat>>)
    | Over

  /** `next` numbers the round that begins next. */
  datatype World = World(next: nat, rounds: map<nat, Round>, workers: map<Did, Worker>)

  datatype Action =
    | Begin(all: set<Did>)                                 // triggerWorkers
    | Reset(r: nat, w: Did, lands: bool)                   // STATUS := pending
    | StartDispatch(r: nat)
    | Dispatch(r: nat, w: Did, delivered: bool, replied: bool, lands: bool)  // POST; STATUS := idle if it failed
    | StartWaiting(r: nat)
    | Poll(r: nat, w: Did)                                 // one status read of waitForWorkers
    | StartReading(r: nat)
    | Read(r: nat, w: Did)                                 // one result read of the tally
    | EndRound(r: nat)                                     // done, timed out or failed
    | Process(w: Did, t: nat, lands: bool)                 // STATUS := processing
    | WriteResult(w: Did, t: nat, lands: bool)             // RESULT := ...
    | Complete(w: Did, t: nat, lands: bool)                // STATUS := completed
    | Fail(w: Did, t: nat, lands: bool)                    // the work threw: STATUS := failed
    | Restart(w: Did, lands: bool)                         // tasks are gone, STATUS := idle

  predicate Ended(status: Status) { status == Completed || status == Failed }

  function W(s: World, w: Did): Worker {
    if w in s.workers then s.workers[w] else Worker(map[], Idle, None)
  }

  function R(s: World, r: nat): Round { if r in s.rounds then s.rounds[r] else Over }

  function Put(s: World, w: Did, x: Worker): World { s.(workers := s.workers[w := x]) }
  function PutRound(s: World, r: nat, c: Round): World { s.(rounds := s.rounds[r := c]) }

  function WithStatus(x: Worker, lands: bool, status: Status): Worker {
    if lands then x.(status := status) else x
  }

  predicate At(s: World, w: Did, t: nat, pc: Pc) { t in W(s, w).tasks && W(s, w).tasks[t] == pc }

  /** An action that is not enabled changes nothing. */
  function Do(s: World, a: Action): World {
    match a
    case Begin(all) => World(s.next + 1, s.rounds[s.next := Resetting(all, all)], s.workers)
    case Reset(r, w, lands) =>
      if R(s, r).Resetting? && w in R(s, r).todo
      then PutRound(Put(s, w, WithStatus(W(s, w), lands, Pending)), r, Resetting(R(s, r).all, R(s, r).todo - {w}))
      else s
    case StartDispatch(r) =>
      if R(s, r).Resetting? && R(s, r).todo == {} then PutRound(s, r, Dispatching(R(s, r).all, R(s, r).all, {})) else s
    case Dispatch(r, w, delivered, replied, lands) =>
      if R(s, r).Dispatching? && w in R(s, r).todo then
        var x := if delivered then W(s, w).(tasks := W(s, w).tasks[r := Started]) else W(s, w);
        var (all, todo, lost) := (R(s, r).all, R(s, r).todo - {w}, R(s, r).unreachable);
        if replied && delivered then PutRound(Put(s, w, x), r, Dispatching(all, todo, lost))
        else PutRound(Put(s, w, WithStatus(x, lands, Idle)), r, Dispatching(all, todo, lost + {w}))
      else s
    case StartWaiting(r) =>
      if R(s, r).Dispatching? && R(s, r).todo == {}
      then PutRound(s, r, Waiting(R(s, r).all - R(s, r).unreachable, map[])) else s
    case Poll(r, w) =>
      if R(s, r).Waiting? && w in R(s, r).listed && Ended(W(s, w).status)
      then PutRound(s, r, Waiting(R(s, r).listed, R(s, r).seen[w := W(s, w).status])) else s
    case StartReading(r) =>
      if R(s, r).Waiting? && R(s, r).listed != {} && R(s, r).seen.Keys == R(s, r).listed
      then PutRound(s, r, Reading(R(s, r).listed, R(s, r).seen, map[])) else s
    case Read(r, w) =>
      if R(s, r).Reading? && w in R(s, r).listed
      then PutRound(s, r, Reading(R(s, r).listed, R(s, r).seen, R(s, r).tally[w := W(s, w).result])) else s
    case EndRound(r) => PutRound(s, r, Over)
    case Process(w, t, lands) =>
      if At(s, w, t, Started)
      then Put(s, w, WithStatus(W(s, w), lands, Processing).(tasks := W(s, w).tasks[t := Working])) else s
    case WriteResult(w, t, lands) =>
      if At(s, w, t, Working)
      then Put(s, w, W(s, w).(tasks := W(s, w).tasks[t := Wrote], result := if lands then Some(t) else W(s, w).result))
      else s
    case Complete(w, t, lands) =>
      if At(s, w, t, Wrote)
      then Put(s, w, WithStatus(W(s, w), lands, Completed).(tasks := W(s, w).tasks - {t})) else s
    case Fail(w, t, lands) =>
      if At(s, w, t, Working)
      then Put(s, w, WithStatus(W(s, w), lands, Failed).(tasks := W(s, w).tasks - {t})) else s
    case Restart(w, lands) => Put(s, w, WithStatus(W(s, w), lands, Idle).(tasks := map[]))
  }

  ghost function After(s: World, run: seq<Action>): World {
    if run == [] then s else Do(After(s, run[..|run| - 1]), run[|run| - 1])
  }

  const START: World := World(0, map[], map[])

  // ---------------------------------------------------------------- what freshness rests on

  /**
   * What may be relied on, for worker `w` in round `r`, once the round has begun:
   * that its status reset lands, that the result of its task lands, and that no
   * other round resets or dispatches it.
   */
  datatype Conditions = Conditions(resets: bool, results: bool, alone: bool)

  predicate Respects(a: Action, r: nat, w: Did, c: Conditions) {
    && (c.resets && a.Reset? && a.r == r && a.w == w ==> a.lands)
    && (c.results && a.WriteResult? && a.w == w && a.t == r ==> a.lands)
    && (c.alone && (a.Reset? || a.Dispatch?) && a.w == w ==> a.r == r)
  }

  const ALL: Conditions := Conditions(true, true, true)

  /** Workers whose status cell round `c` has reset and still relies on. */
  function Settled(c: Round): set<Did> {
    match c
    case Resetting(all, todo) => all - todo
    case Dispatching(all, _, unreachable) => all - unreachable
    case Waiting(listed, _) => listed
    case Reading(listed, _, _) => listed
    case Over => {}
  }

  /** Workers of the round that have not been dispatched yet. */
  function Undispatched(c: Round): set<Did> {
    match c
    case Resetting(all, _) => all
    case Dispatching(_, todo, _) => todo
    case _ => {}
  }

  ghost predicate WorkerInv(s: World, r: nat, w: Did) {
    var (c, x) := (R(s, r), W(s, w));
    && (w in Undispatched(c) ==> x.tasks == map[] && x.result != Some(r))
    && (w in Settled(c) ==>
          && x.tasks.Keys <= {r}
          && (w in Undispatched(c) ==> !Ended(x.status))
          && (r in x.tasks ==> !Ended(x.status) && (x.result == Some(r) <==> x.tasks[r] == Wrote))
          && (x.status == Completed ==> x.result == Some(r))
          && (x.status == Failed ==> x.result != Some(r)))
  }

  /** What was seen of `w` as ended stands: no task is left to change its result. */
  ghost predicate SeenInv(x: Worker, r: nat, w: Did, seen: map<Did, Status>) {
    w in seen ==> x.tasks == map[] && Ended(seen[w]) && (seen[w] == Completed <==> x.result == Some(r))
  }

  ghost predicate RoundInv(s: World, r: nat, w: Did) {
    match R(s, r)
    case Resetting(all, todo) => todo <= all
    case Dispatching(all, todo, unreachable) => todo <= all && unreachable <= all && todo !! unreachable
    case Waiting(listed, seen) => seen.Keys <= listed && SeenInv(W(s, w), r, w, seen)
    case Reading(listed, seen, tally) =>
      && seen.Keys == listed && SeenInv(W(s, w), r, w, seen)
      && (w in tally ==> w in listed && tally[w] == W(s, w).result)
    case Over => true
  }

  ghost predicate Inv(s: World, r: nat, w: Did) {
    r < s.next && RoundInv(s, r, w) && WorkerInv(s, r, w)
  }

  /** The action is a step of round `r`. */
  predicate StepOf(a: Action, r: nat) {
    match a
    case Reset(q, _, _) => q == r
    case StartDispatch(q) => q == r
    case Dispatch(q, _, _, _, _) => q == r
    case StartWaiting(q) => q == r
    case Poll(q, _) => q == r
    case StartReading(q) => q == r
    case Read(q, _) => q == r
    case EndRound(q) => q == r
    case _ => false
  }

  lemma OwnStepKeepsInv(s: World, a: Action, r: nat, w: Did)
    requires Inv(s, r, w) && Respects(a, r, w, ALL) && StepOf(a, r)
    ensures Inv(Do(s, a), r, w)
  {
  }

  lemma OtherStepKeepsInv(s: World, a: Action, r: nat, w: Did)
    requires Inv(s, r, w) && Respects(a, r, w, ALL) && !StepOf(a, r)
    ensures Inv(Do(s, a), r, w)
  {
    if a.Process? || a.WriteResult? || a.Complete? || a.Fail? || a.Restart? {
      WorkKeepsInv(s, a, r, w);
    } else {
      OthersLeaveAlone(s, a, r, w);
      hide Do;
    }
  }

  lemma OthersLeaveAlone(s: World, a: Action, r: nat, w: Did)
    requires r < s.next && Respects(a, r, w, ALL) && !StepOf(a, r)
    requires !a.Process? && !a.WriteResult? && !a.Complete? && !a.Fail? && !a.Restart?
    ensures R(Do(s, a), r) == R(s, r) && W(Do(s, a), w) == W(s, w) && s.next <= Do(s, a).next
  {
  }

  lemma WorkKeepsInv(s: World, a: Action, r: nat, w: Did)
    requires Inv(s, r, w) && Respects(a, r, w, ALL)
    requires a.Process? || a.WriteResult? || a.Complete? || a.Fail? || a.Restart?
    ensures Inv(Do(s, a), r, w)
  {
  }

  /** However steps interleave, a worker for which the conditions hold stays in step with the round. */
  lemma {:induction false} RunKeepsInv(s: World, run: seq<Action>, r: nat, w: Did)
    requires Inv(s, r, w) && forall k :: 0 <= k < |run| ==> Respects(run[k], r, w, ALL)
    ensures Inv(After(s, run), r, w)
  {
    if run != [] {
      var (init, a) := (run[..|run| - 1], run[|run| - 1]);
      RunKeepsInv(s, init, r, w);
      hide Do, Inv, Respects;
      if StepOf(a, r) { OwnStepKeepsInv(After(s, init), a, r, w); } else { OtherStepKeepsInv(After(s, init), a, r, w); }
    }
  }

  /** Tasks and results carry numbers of rounds that have begun. */
  ghost predicate Numbered(s: World, w: Did) {
    (forall t :: t in W(s, w).tasks ==> t < s.next) && (W(s, w).result.Some? ==> W(s, w).result.value < s.next)
    && forall r :: r in s.rounds && R(s, r) != Over ==> r < s.next
  }

  lemma StepKeepsNumbers(s: World, a: Action, w: Did)
    requires Numbered(s, w)
    ensures Numbered(Do(s, a), w)
  {
  }

  lemma {:induction false} RunKeepsNumbers(s: World, run: seq<Action>, w: Did)
    requires Numbered(s, w)
    ensures Numbered(After(s, run), w)
  {
    if run != [] {
      RunKeepsNumbers(s, run[..|run| - 1], w);
      hide Do, Numbered;
      StepKeepsNumbers(After(s, run[..|run| - 1]), run[|run| - 1], w);
    }
  }

  lemma {:induction false} AfterSplit(s: World, past: seq<Action>, now: seq<Action>)
    ensures After(s, past + now) == After(After(s, past), now)
  {
    hide Do;
    if now == [] {
      assert past + now == past;
    } else {
      assert (past + now)[..|past + now| - 1] == past + now[..|now| - 1];
      AfterSplit(s, past, now[..|now| - 1]);
    }
  }

  /** The world after `past`, the beginning of a round on `all`, and `now`. */
  ghost function Since(past: seq<Action>, all: set<Did>, now: seq<Action>): World {
    After(After(START, past + [Begin(all)]), now)
  }

  /** The number of that round. */
  ghost function Number(past: seq<Action>): nat { After(START, past).next }

  predicate Tallied(s: World, r: nat, w: Did) { R(s, r).Reading? && w in R(s, r).tally }

  lemma BeginsInStep(past: seq<Action>, all: set<Did>, w: Did)
    requires W(After(START, past), w).tasks == map[]
    ensures Inv(After(START, past + [Begin(all)]), Number(past), w)
  {
    RunKeepsNumbers(START, past, w);
    assert (past + [Begin(all)])[..|past|] == past;
  }

  /**
   * Whatever went before and however rounds overlap: if worker `w` has no task left
   * when a round begins, its reset and its result land, and no other round touches
   * it, then the result the round tallies from it is its own exactly when the
   * status seen was completed. All other writes, of `w` or of anyone else, may be lost.
   */
  lemma TallyIsFreshExactlyWhenCompleted(past: seq<Action>, all: set<Did>, now: seq<Action>, w: Did)
    requires W(After(START, past), w).tasks == map[]
    requires forall k :: 0 <= k < |now| ==> Respects(now[k], Number(past), w, ALL)
    requires Tallied(Since(past, all, now), Number(past), w)
    ensures var c := R(Since(past, all, now), Number(past));
            && w in c.listed && w in c.seen && Ended(c.seen[w])
            && (c.tally[w] == Some(Number(past)) <==> c.seen[w] == Completed)
  {
    BeginsInStep(past, all, w);
    RunKeepsInv(After(START, past + [Begin(all)]), now, Number(past), w);
    hide After;
  }

  // ---------------------------------------------------------------- each condition is needed

  /**
   * A run that keeps to the conditions asked for, and still tallies as completed a
   * result of `w` from another round.
   */
  ghost predicate TalliesStale(past: seq<Action>, all: set<Did>, now: seq<Action>, w: Did, rests: bool, c: Conditions) {
    var (s, r) := (Since(past, all, now), Number(past));
    && (rests ==> W(After(START, past), w).tasks == map[])
    && (forall k :: 0 <= k < |now| ==> Respects(now[k], r, w, c))
    && Tallied(s, r, w) && w in R(s, r).seen && R(s, r).seen[w] == Completed
    && R(s, r).tally[w].Some? && R(s, r).tally[w].value != r
  }

  /**
   * The exact condition: some run tallies another round's result as completed if
   * and only if the worker may still be busy when the round begins, or its reset or
   * its result may be lost, or another round may reset or dispatch it meanwhile.
   */
  lemma AllFourAreNeeded(w: Did, rests: bool, c: Conditions)
    ensures (exists past, all, now :: TalliesStale(past, all, now, w, rests, c)) <==> !(rests && c == ALL)
  {
    if !rests {
      var past, now := BusyWorker(w);
      assert TalliesStale(past, {w}, now, w, rests, c);
    } else if !c.resets {
      var past, now := LostReset(w);
      assert TalliesStale(past, {w}, now, w, rests, c);
    } else if !c.results {
      var past, now := LostResult(w);
      assert TalliesStale(past, {w}, now, w, rests, c);
    } else if !c.alone {
      var past, now := OtherRound(w);
      assert TalliesStale(past, {w}, now, w, rests, c);
    } else {
      forall past, all, now
        ensures !TalliesStale(past, all, now, w, true, ALL)
      {
        NeverStale(past, all, now, w);
      }
    }
  }

  lemma NeverStale(past: seq<Action>, all: set<Did>, now: seq<Action>, w: Did)
    ensures !TalliesStale(past, all, now, w, true, ALL)
  {
    hide After, Respects;
    if TalliesStale(past, all, now, w, true, ALL) { TallyIsFreshExactlyWhenCompleted(past, all, now, w); }
  }

  lemma Then(run: seq<Action>, a: Action, t: World) returns (longer: seq<Action>)
    requires Do(After(START, run), a) == t
    ensures After(START, longer) == t && longer == run + [a]
  {
    longer := run + [a];
    assert longer[..|run|] == run;
  }

  /** Worker `w` alone, with rounds 0 and 1. */
  function First(c: Round, w: Did, x: Worker): World { World(1, map[0 := c], map[w := x]) }
  function Both(c: Round, d: Round, w: Did, x: Worker): World { World(2, map[0 := c, 1 := d], map[w := x]) }

  function AllSent(w: Did): Round { Dispatching({w}, {}, {}) }

  /** Round 0 is about to dispatch `w`. */
  lemma FirstOpens(w: Did) returns (run: seq<Action>)
    ensures After(START, run) == First(Dispatching({w}, {w}, {}), w, Worker(map[], Pending, None))
  {
    hide After;
    assert After(START, []) == START by { Nothing(); }
    assert {w} - {w} == {};
    var x := Worker(map[], Pending, None);
    run := Then([], Begin({w}), World(1, map[0 := Resetting({w}, {w})], map[]));
    run := Then(run, Reset(0, w, true), First(Resetting({w}, {}), w, x));
    run := Then(run, StartDispatch(0), First(Dispatching({w}, {w}, {}), w, x));
  }

  lemma Nothing()
    ensures After(START, []) == START
  {
  }

  /** Round 0 has dispatched `w`. */
  lemma FirstDispatches(w: Did) returns (run: seq<Action>)
    ensures After(START, run) == First(AllSent(w), w, Worker(map[0 := Started], Pending, None))
  {
    hide After;
    assert {w} - {w} == {};
    run := FirstOpens(w);
    run := Then(run, Dispatch(0, w, true, true, true), First(AllSent(w), w, Worker(map[0 := Started], Pending, None)));
  }

  /** Task `t` runs, and no round takes a step. */
  lemma Works(before: seq<Action>, w: Did, rounds: map<nat, Round>, n: nat, x: Worker, t: nat,
              lands: bool) returns (run: seq<Action>)
    requires After(START, before) == World(n, rounds, map[w := x]) && x.tasks == map[t := Started]
    ensures After(START, run)
            == World(n, rounds, map[w := Worker(map[], Completed, if lands then Some(t) else x.result)])
    ensures run == before + [Process(w, t, true)] + [WriteResult(w, t, lands)] + [Complete(w, t, true)]
  {
    hide After;
    var result := if lands then Some(t) else x.result;
    OneTask(w, rounds, n, x, t, lands);
    hide Do;
    run := Then(before, Process(w, t, true),
                World(n, rounds, map[w := Worker(map[t := Working], Processing, x.result)]));
    run := Then(run, WriteResult(w, t, lands), World(n, rounds, map[w := Worker(map[t := Wrote], Processing, result)]));
    run := Then(run, Complete(w, t, true), World(n, rounds, map[w := Worker(map[], Completed, result)]));
  }

  lemma OneTask(w: Did, rounds: map<nat, Round>, n: nat, x: Worker, t: nat, lands: bool)
    requires x.tasks == map[t := Started]
    ensures Do(World(n, rounds, map[w := x]), Process(w, t, true))
            == World(n, rounds, map[w := Worker(map[t := Working], Processing, x.result)])
    ensures var result := if lands then Some(t) else x.result;
            && Do(World(n, rounds, map[w := Worker(map[t := Working], Processing, x.result)]), WriteResult(w, t, lands))
               == World(n, rounds, map[w := Worker(map[t := Wrote], Processing, result)])
            && Do(World(n, rounds, map[w := Worker(map[t := Wrote], Processing, result)]), Complete(w, t, true))
               == World(n, rounds, map[w := Worker(map[], Completed, result)])
  {
    assert map[t := Started][t := Working] == map[t := Working] && map[t := Working][t := Wrote] == map[t := Wrote];
    assert map[t := Wrote] - {t} == map[];
    var result := if lands then Some(t) else x.result;
    var (y, z) := (Worker(map[t := Working], Processing, x.result), Worker(map[t := Wrote], Processing, result));
    OnlyWorkerMoves(rounds, n, w, x, y);
    OnlyWorkerMoves(rounds, n, w, y, z);
    OnlyWorkerMoves(rounds, n, w, z, Worker(map[], Completed, result));
    hide Put, W;
  }

  lemma OnlyWorkerMoves(rounds: map<nat, Round>, n: nat, w: Did, x: Worker, y: Worker)
    ensures var s := World(n, rounds, map[w := x]);
            W(s, w) == x && Put(s, w, y) == World(n, rounds, map[w := y])
  {
  }

  /** The task of round 0 is done. */
  lemma FirstDone(w: Did) returns (run: seq<Action>)
    ensures After(START, run) == First(AllSent(w), w, Worker(map[], Completed, Some(0)))
  {
    hide After;
    run := FirstDispatches(w);
    run := Works(run, w, map[0 := AllSent(w)], 1, Worker(map[0 := Started], Pending, None), 0, true);
  }

  /** Round 1 begins and resets `w`. */
  lemma SecondOpens(past: seq<Action>, w: Did, c: Round, x: Worker, lands: bool) returns (run: seq<Action>)
    requires After(START, past) == First(c, w, x)
    ensures After(START, run) == Both(c, Resetting({w}, {}), w, WithStatus(x, lands, Pending))
    ensures run == past + [Begin({w})] + [Reset(1, w, lands)]
  {
    hide After;
    assert {w} - {w} == {};
    run := Then(past, Begin({w}), Both(c, Resetting({w}, {w}), w, x));
    run := Then(run, Reset(1, w, lands), Both(c, Resetting({w}, {}), w, WithStatus(x, lands, Pending)));
  }

  /** Round 1 dispatches `w`. */
  lemma SecondDispatches(before: seq<Action>, w: Did, c: Round, x: Worker) returns (run: seq<Action>)
    requires After(START, before) == Both(c, Resetting({w}, {}), w, x)
    ensures After(START, run) == Both(c, AllSent(w), w, x.(tasks := x.tasks[1 := Started]))
    ensures run == before + [StartDispatch(1)] + [Dispatch(1, w, true, true, true)]
  {
    hide After;
    assert {w} - {w} == {};
    run := Then(before, StartDispatch(1), Both(c, Dispatching({w}, {w}, {}), w, x));
    run := Then(run, Dispatch(1, w, true, true, true), Both(c, AllSent(w), w, x.(tasks := x.tasks[1 := Started])));
  }

  /** One poll of round 1 sees `w` completed, and the tally reads what is there. */
  lemma ReadsOut(before: seq<Action>, w: Did, c: Round, x: Worker) returns (run: seq<Action>)
    requires After(START, before) == Both(c, AllSent(w), w, x) && x.status == Completed
    ensures After(START, run) == Both(c, Reading({w}, map[w := Completed], map[w := x.result]), w, x)
    ensures run == before + [StartWaiting(1)] + [Poll(1, w)] + [StartReading(1)] + [Read(1, w)]
  {
    hide After;
    OneReader(w, c, x);
    hide Do;
    run := Then(before, StartWaiting(1), Both(c, Waiting({w}, map[]), w, x));
    run := Then(run, Poll(1, w), Both(c, Waiting({w}, map[w := Completed]), w, x));
    run := Then(run, StartReading(1), Both(c, Reading({w}, map[w := Completed], map[]), w, x));
    run := Then(run, Read(1, w), Both(c, Reading({w}, map[w := Completed], map[w := x.result]), w, x));
  }

  lemma OneReader(w: Did, c: Round, x: Worker)
    requires x.status == Completed
    ensures Do(Both(c, AllSent(w), w, x), StartWaiting(1)) == Both(c, Waiting({w}, map[]), w, x)
    ensures Do(Both(c, Waiting({w}, map[]), w, x), Poll(1, w)) == Both(c, Waiting({w}, map[w := Completed]), w, x)
    ensures Do(Both(c, Waiting({w}, map[w := Completed]), w, x), StartReading(1))
            == Both(c, Reading({w}, map[w := Completed], map[]), w, x)
    ensures Do(Both(c, Reading({w}, map[w := Completed], map[]), w, x), Read(1, w))
            == Both(c, Reading({w}, map[w := Completed], map[w := x.result]), w, x)
  {
    assert {w} - {} == {w};
    assert map[][w := Completed] == map[w := Completed] && map[][w := x.result] == map[w := x.result];
    assert map[w := Completed].Keys == {w};
    SecondMoves(c, AllSent(w), Waiting({w}, map[]), w, x);
    SecondMoves(c, Waiting({w}, map[]), Waiting({w}, map[w := Completed]), w, x);
    SecondMoves(c, Waiting({w}, map[w := Completed]), Reading({w}, map[w := Completed], map[]), w, x);
    SecondMoves(c, Reading({w}, map[w := Completed], map[]), Reading({w}, map[w := Completed], map[w := x.result]), w,
                x);
    hide Both, PutRound, R, W;
  }

  lemma SecondMoves(c: Round, d: Round, e: Round, w: Did, x: Worker)
    ensures var s := Both(c, d, w, x);
            R(s, 1) == d && W(s, w) == x && PutRound(s, 1, e) == Both(c, e, w, x)
  {
    assert map[0 := c, 1 := d][1 := e] == map[0 := c, 1 := e];
  }

  /** A run whose second round ends by tallying the result of the first as completed. */
  ghost predicate EndsStale(past: seq<Action>, now: seq<Action>, w: Did) {
    && Number(past) == 1 && Tallied(Since(past, {w}, now), 1, w)
    && R(Since(past, {w}, now), 1).seen == map[w := Completed] && R(Since(past, {w}, now), 1).tally == map[w := Some(0)]
  }

  lemma IsStale(past: seq<Action>, now: seq<Action>, w: Did, c: Round, x: Worker)
    requires After(START, past) == First(c, w, x)
    requires R(After(START, past + [Begin({w})] + now), 1) == Reading({w}, map[w := Completed], map[w := Some(0)])
    ensures EndsStale(past, now, w)
  {
    AfterSplit(START, past + [Begin({w})], now);
    hide After;
  }

  /** The reset is lost: the earlier `completed` is taken for this round's. */
  lemma LostReset(w: Did) returns (past: seq<Action>, now: seq<Action>)
    ensures EndsStale(past, now, w) && W(After(START, past), w).tasks == map[]
    ensures forall k :: 0 <= k < |now| ==> Respects(now[k], 1, w, ALL.(resets := false))
  {
    hide After;
    past := FirstDone(w);
    var x := Worker(map[], Completed, Some(0));
    var run := SecondOpens(past, w, AllSent(w), x, false);
    run := SecondDispatches(run, w, AllSent(w), x);
    run := ReadsOut(run, w, AllSent(w), x.(tasks := map[1 := Started]));
    now := [Reset(1, w, false)] + [StartDispatch(1)] + [Dispatch(1, w, true, true, true)]
    + [StartWaiting(1)] + [Poll(1, w)] + [StartReading(1)] + [Read(1, w)];
    assert run == past + [Begin({w})] + now;
    IsStale(past, now, w, AllSent(w), x);
  }

  /** The result is lost: the earlier one is read under this round's `completed`. */
  lemma LostResult(w: Did) returns (past: seq<Action>, now: seq<Action>)
    ensures EndsStale(past, now, w) && W(After(START, past), w).tasks == map[]
    ensures forall k :: 0 <= k < |now| ==> Respects(now[k], 1, w, ALL.(results := false))
  {
    hide After;
    past := FirstDone(w);
    var x := Worker(map[], Completed, Some(0));
    var run := SecondOpens(past, w, AllSent(w), x, true);
    run := SecondDispatches(run, w, AllSent(w), x.(status := Pending));
    run := Works(run, w, map[0 := AllSent(w), 1 := AllSent(w)], 2, Worker(map[1 := Started], Pending, Some(0)), 1,
                 false);
    run := ReadsOut(run, w, AllSent(w), x);
    now := [Reset(1, w, true)] + [StartDispatch(1)] + [Dispatch(1, w, true, true, true)]
    + [Process(w, 1, true)] + [WriteResult(w, 1, false)] + [Complete(w, 1, true)]
    + [StartWaiting(1)] + [Poll(1, w)] + [StartReading(1)] + [Read(1, w)];
    assert run == past + [Begin({w})] + now;
    IsStale(past, now, w, AllSent(w), x);
  }

  /** The worker is still at the task of an earlier round, and completes it after the reset. */
  lemma BusyWorker(w: Did) returns (past: seq<Action>, now: seq<Action>)
    ensures EndsStale(past, now, w)
    ensures forall k :: 0 <= k < |now| ==> Respects(now[k], 1, w, ALL)
  {
    hide After;
    past := FirstDispatches(w);
    var x := Worker(map[0 := Started], Pending, None);
    var done := Worker(map[], Completed, Some(0));
    var run := SecondOpens(past, w, AllSent(w), x, true);
    run := Works(run, w, map[0 := AllSent(w), 1 := Resetting({w}, {})], 2, x, 0, true);
    run := SecondDispatches(run, w, AllSent(w), done);
    run := ReadsOut(run, w, AllSent(w), done.(tasks := map[1 := Started]));
    now := [Reset(1, w, true)] + [Process(w, 0, true)] + [WriteResult(w, 0, true)] + [Complete(w, 0, true)]
    + [StartDispatch(1)] + [Dispatch(1, w, true, true, true)]
    + [StartWaiting(1)] + [Poll(1, w)] + [StartReading(1)] + [Read(1, w)];
    assert run == past + [Begin({w})] + now;
    IsStale(past, now, w, AllSent(w), x);
  }

  /** Round 0 dispatches `w` after round 1 has reset it. */
  lemma FirstCutsIn(before: seq<Action>, w: Did, x: Worker) returns (run: seq<Action>)
    requires After(START, before) == Both(Dispatching({w}, {w}, {}), Resetting({w}, {}), w, x) && x.tasks == map[]
    ensures After(START, run) == Both(AllSent(w), Resetting({w}, {}), w, x.(tasks := map[0 := Started]))
    ensures run == before + [Dispatch(0, w, true, true, true)]
  {
    hide After;
    assert {w} - {w} == {};
    run := Then(before, Dispatch(0, w, true, true, true),
                Both(AllSent(w), Resetting({w}, {}), w, x.(tasks := map[0 := Started])));
  }

  /** An overlapping round dispatches the worker between this round's reset and its own dispatch. */
  lemma OtherRound(w: Did) returns (past: seq<Action>, now: seq<Action>)
    ensures EndsStale(past, now, w) && W(After(START, past), w).tasks == map[]
    ensures forall k :: 0 <= k < |now| ==> Respects(now[k], 1, w, ALL.(alone := false))
  {
    hide After;
    past := FirstOpens(w);
    var (c, x) := (Dispatching({w}, {w}, {}), Worker(map[], Pending, None));
    var done := Worker(map[], Completed, Some(0));
    hide Do;
    var run := SecondOpens(past, w, c, x, true);
    run := FirstCutsIn(run, w, x);
    run := Works(run, w, map[0 := AllSent(w), 1 := Resetting({w}, {})], 2, x.(tasks := map[0 := Started]), 0, true);
    run := SecondDispatches(run, w, AllSent(w), done);
    run := ReadsOut(run, w, AllSent(w), done.(tasks := map[1 := Started]));
    now := [Reset(1, w, true)] + [Dispatch(0, w, true, true, true)]
    + [Process(w, 0, true)] + [WriteResult(w, 0, true)] + [Complete(w, 0, true)]
    + [StartDispatch(1)] + [Dispatch(1, w, true, true, true)]
    + [StartWaiting(1)] + [Poll(1, w)] + [StartReading(1)] + [Read(1, w)];
    assert run == past + [Begin({w})] + now;
    IsStale(past, now, w, c, x);
  }

  // ---------------------------------------------------------------- what the steps do

  /** A task that fails leaves the result as it was and says so; a restarted worker has no task left. */
  lemma FailuresSay(s: World, w: Did, t: nat, lands: bool)
    ensures var (x, y) := (W(s, w), W(Do(s, Fail(w, t, lands)), w));
            t in x.tasks && x.tasks[t] == Working ==>
              y == Worker(x.tasks - {t}, if lands then Failed else x.status, x.result)
    ensures W(Do(s, Restart(w, lands)), w) == Worker(map[], if lands then Idle else W(s, w).status, W(s, w).result)
  {
  }

  /** A task goes from accepted to work, to its result, to its end; each step writes its cell if the write lands. */
  lemma TasksGoOn(s: World, w: Did, t: nat, lands: bool)
    requires t in W(s, w).tasks
    ensures var x := W(s, w);
            && (x.tasks[t] == Started ==>
                 W(Do(s, Process(w, t, lands)), w)
                 == Worker(x.tasks[t := Working], if lands then Processing else x.status, x.result))
            && (x.tasks[t] == Working ==>
                 W(Do(s, WriteResult(w, t, lands)), w)
                 == Worker(x.tasks[t := Wrote], x.status, if lands then Some(t) else x.result))
            && (x.tasks[t] == Wrote ==>
                 W(Do(s, Complete(w, t, lands)), w)
                 == Worker(x.tasks - {t}, if lands then Completed else x.status, x.result))
  {
  }

  /**
   * A round sends its task to every worker it lists, and drops those it gets no
   * reply from, whether the task arrived or not; those get the status idle.
   */
  lemma DispatchSends(s: World, r: nat, w: Did, delivered: bool, replied: bool, lands: bool)
    requires R(s, r).Dispatching? && w in R(s, r).todo
    ensures var (c, d) := (R(s, r), R(Do(s, Dispatch(r, w, delivered, replied, lands)), r));
            var (x, y) := (W(s, w), W(Do(s, Dispatch(r, w, delivered, replied, lands)), w));
            var lost := !(delivered && replied);
            && d == Dispatching(c.all, c.todo - {w}, if lost then c.unreachable + {w} else c.unreachable)
            && y == Worker(if delivered then x.tasks[r := Started] else x.tasks,
                           if lost && lands then Idle else x.status, x.result)
  {
  }

  /**
   * A round begins with everybody to reset, goes on to dispatch once all are, to
   * wait for the reachable ones once all are dispatched, and to read once there is
   * somebody and all are seen ended, well or not; it may be given up at any time.
   */
  lemma RoundsGoOn(s: World, r: nat, all: set<Did>, w: Did)
    ensures R(Do(s, Begin(all)), s.next) == Resetting(all, all) && Do(s, Begin(all)).next == s.next + 1
    ensures R(s, r).Resetting? && R(s, r).todo == {} ==>
              R(Do(s, StartDispatch(r)), r) == Dispatching(R(s, r).all, R(s, r).all, {})
    ensures R(s, r).Dispatching? && R(s, r).todo == {} ==>
              R(Do(s, StartWaiting(r)), r) == Waiting(R(s, r).all - R(s, r).unreachable, map[])
    ensures R(s, r).Waiting? && w in R(s, r).listed && (W(s, w).status == Completed || W(s, w).status == Failed) ==>
              R(Do(s, Poll(r, w)), r) == Waiting(R(s, r).listed, R(s, r).seen[w := W(s, w).status])
    ensures R(s, r).Waiting? && R(s, r).listed != {} && R(s, r).seen.Keys == R(s, r).listed ==>
              R(Do(s, StartReading(r)), r) == Reading(R(s, r).listed, R(s, r).seen, map[])
    ensures R(s, r).Reading? && w in R(s, r).listed ==>
              R(Do(s, Read(r, w)), r) == Reading(R(s, r).listed, R(s, r).seen, R(s, r).tally[w := W(s, w).result])
    ensures R(Do(s, EndRound(r)), r) == Over
  {
  }

  /** A reset sets the status of its worker and nobody else's, if it lands. */
  lemma ResetSets(s: World, r: nat, w: Did, lands: bool, v: Did)
    requires R(s, r).Resetting? && w in R(s, r).todo
    ensures var t := Do(s, Reset(r, w, lands));
            && R(t, r) == Resetting(R(s, r).all, R(s, r).todo - {w})
            && W(t, v) == if v == w && lands then Worker(W(s, w).tasks, Pending, W(s, w).result) else W(s, v)
  {
  }

  /** A round waits until it may go on: out of its turn no action of it does anything. */
  lemma RoundsWait(s: World, r: nat, w: Did, delivered: bool, replied: bool, lands: bool)
    ensures !(R(s, r).Resetting? && w in R(s, r).todo) ==> Do(s, Reset(r, w, lands)) == s
    ensures !(R(s, r).Resetting? && R(s, r).todo == {}) ==> Do(s, StartDispatch(r)) == s
    ensures !(R(s, r).Dispatching? && w in R(s, r).todo) ==> Do(s, Dispatch(r, w, delivered, replied, lands)) == s
    ensures !(R(s, r).Dispatching? && R(s, r).todo == {}) ==> Do(s, StartWaiting(r)) == s
    ensures !(R(s, r).Waiting? && w in R(s, r).listed && W(s, w).status in {Completed, Failed}) ==>
              Do(s, Poll(r, w)) == s
    ensures !(R(s, r).Waiting? && R(s, r).listed != {} && R(s, r).seen.Keys == R(s, r).listed) ==>
              Do(s, StartReading(r)) == s
    ensures !(R(s, r).Reading? && w in R(s, r).listed) ==> Do(s, Read(r, w)) == s
  {
  }

  /** A task takes its steps in their order. */
  lemma TasksWait(s: World, w: Did, t: nat, lands: bool)
    ensures !(t in W(s, w).tasks && W(s, w).tasks[t] == Started) ==> Do(s, Process(w, t, lands)) == s
    ensures !(t in W(s, w).tasks && W(s, w).tasks[t] == Working) ==>
              Do(s, WriteResult(w, t, lands)) == s && Do(s, Fail(w, t, lands)) == s
    ensures !(t in W(s, w).tasks && W(s, w).tasks[t] == Wrote) ==> Do(s, Complete(w, t, lands)) == s
  {
  }

  /** An action changes at most its own round, and a worker's cells only if it names the worker and writes. */
  lemma OthersStay(s: World, a: Action, q: nat, v: Did)
    ensures R(Do(s, a), q) != R(s, q) ==> if a.Begin? then q == s.next else StepOf(a, q)
    ensures W(Do(s, a), v) != W(s, v) ==>
              && (a.Reset? || a.Dispatch? || a.Process? || a.WriteResult? || a.Complete? || a.Fail? || a.Restart?)
              && a.w == v
  {
  }
}
