/** The worker filter of the coordinator's routes, with its cache of recent liveness checks. */
module ValidationSpec {
  import opened Wrappers

  datatype Worker = Worker(did: string, endpointUrl: string)
  datatype Check = Check(valid: bool, checkedAt: int)
  type Cache = map<string, Check>

  /** How one probe settles, and when its outcome is entered in the cache. */
  datatype Answer = Fulfilled(valid: bool, at: int) | Rejected(at: int)

  const TTL_MS: int := 300_000

  predicate Recent(c: Check, now: int) { now - c.checkedAt < TTL_MS }
  predicate KnownAt(cache: Cache, now: int, w: Worker) { w.did in cache && Recent(cache[w.did], now) }

  /** The workers a recent check lets through. */
  function CachedValid(cache: Cache, now: int, workers: seq<Worker>): seq<Worker> {
    if workers == [] then []
    else (if KnownAt(cache, now, workers[0]) && cache[workers[0].did].valid then [workers[0]] else [])
         + CachedValid(cache, now, workers[1..])
  }

  /** The workers a recent check turns away. */
  function CachedInvalid(cache: Cache, now: int, workers: seq<Worker>): seq<Worker> {
    if workers == [] then []
    else (if KnownAt(cache, now, workers[0]) && !cache[workers[0].did].valid then [workers[0]] else [])
         + CachedInvalid(cache, now, workers[1..])
  }

  /** The workers to probe. */
  function Unknown(cache: Cache, now: int, workers: seq<Worker>): seq<Worker> {
    if workers == [] then []
    else (if KnownAt(cache, now, workers[0]) then [] else [workers[0]]) + Unknown(cache, now, workers[1..])
  }

  predicate Passes(a: Answer) { a.Fulfilled? && a.valid }

  /** The probed workers whose probe passes; `answers(k)` settles the probe at place `first + k`. */
  function Passing(probed: seq<Worker>, answers: nat -> Answer, first: nat): seq<Worker> {
    if probed == [] then []
    else (if Passes(answers(first)) then [probed[0]] else []) + Passing(probed[1..], answers, first + 1)
  }

  function Result(cache: Cache, now: int, workers: seq<Worker>, answers: nat -> Answer): seq<Worker> {
    CachedValid(cache, now, workers) + Passing(Unknown(cache, now, workers), answers, 0)
  }

  /** A change of the cache: a check entered, or an entry dropped when its worker registers anew. */
  datatype Change = Write(worker: Worker, valid: bool, at: int) | Forget(did: string)

  function About(c: Change): string { if c.Write? then c.worker.did else c.did }

  function Make(cache: Cache, c: Change): Cache {
    if c.Write? then cache[c.worker.did := Check(c.valid, c.at)] else cache - {c.did}
  }

  function Replay(cache: Cache, changes: seq<Change>): Cache {
    if changes == [] then cache
    else Make(Replay(cache, changes[..|changes| - 1]), changes[|changes| - 1])
  }

  ghost predicate Within(settleOrder: seq<nat>, n: nat) {
    forall j :: 0 <= j < |settleOrder| ==> settleOrder[j] < n
  }

  /** The entries fulfilled probes make, in the order they settle. */
  ghost function SettledWrites(probed: seq<Worker>, answers: nat -> Answer, settleOrder: seq<nat>): seq<Change>
    requires Within(settleOrder, |probed|)
  {
    if settleOrder == [] then []
    else
      var k := settleOrder[|settleOrder| - 1];
      SettledWrites(probed, answers, settleOrder[..|settleOrder| - 1])
      + (if answers(k).Fulfilled? then [Write(probed[k], answers(k).valid, answers(k).at)] else [])
  }

  /** The entries made at the end for rejected probes, in list order. */
  function RejectedWrites(probed: seq<Worker>, answers: nat -> Answer): seq<Change> {
    if probed == [] then []
    else
      var k := |probed| - 1;
      RejectedWrites(probed[..k], answers)
      + (if answers(k).Rejected? then [Write(probed[k], false, answers(k).at)] else [])
  }

  ghost function Writes(probed: seq<Worker>, answers: nat -> Answer, settleOrder: seq<nat>): seq<Change>
    requires Within(settleOrder, |probed|)
  {
    SettledWrites(probed, answers, settleOrder) + RejectedWrites(probed, answers)
  }

  /** Every one of `n` probes settles once. */
  ghost predicate SettlesAll(settleOrder: seq<nat>, n: nat) {
    Within(settleOrder, n) && Distinct(settleOrder) && forall k: nat :: k < n ==> k in settleOrder
  }
}

/** The filter with the cache it updates in place. */
module ValidationCache {
  import opened Wrappers
  import opened ValidationSpec

  class WorkerFilter {
    var cache: Cache

    constructor ()
      ensures cache == map[]
    {
      cache := map[];
    }

    /**
     * `answers` and `settleOrder` are what the endpoints do: the outcome of the probe
     * at each place, and the order in which the concurrent probes settle.
     */
    method FilterValidatedWorkers(workers: seq<Worker>, now: int, answers: nat -> Answer, settleOrder: seq<nat>)
      returns (kept: seq<Worker>)
      requires SettlesAll(settleOrder, |Unknown(cache, now, workers)|)
      modifies this
      ensures kept == Result(old(cache), now, workers, answers)
      ensures var probed := Unknown(old(cache), now, workers);
              cache == Replay(old(cache), Writes(probed, answers, settleOrder))
    {
      var needsCheck, alreadyValid := [], [];
      for i := 0 to |workers|
        invariant cache == old(cache)
        invariant alreadyValid == CachedValid(cache, now, workers[..i])
        invariant needsCheck == Unknown(cache, now, workers[..i])
      {
        var w := workers[i];
        OneMore(cache, now, workers, i);
        if w.did in cache && now - cache[w.did].checkedAt < TTL_MS {
          if cache[w.did].valid { alreadyValid := alreadyValid + [w]; }
          continue;
        }
        needsCheck := needsCheck + [w];
      }
      assert workers[..|workers|] == workers;
      if |needsCheck| == 0 {
        return alreadyValid;
      }

      for i := 0 to |settleOrder|
        invariant cache == Replay(old(cache), SettledWrites(needsCheck, answers, settleOrder[..i]))
      {
        var k := settleOrder[i];
        SettleOneMore(old(cache), needsCheck, answers, settleOrder, i);
        if answers(k).Fulfilled? {
          cache := cache[needsCheck[k].did := Check(answers(k).valid, answers(k).at)];
        }
      }
      assert settleOrder[..|settleOrder|] == settleOrder;

      var freshValid := Passing(needsCheck, answers, 0);

      ghost var settled := SettledWrites(needsCheck, answers, settleOrder);
      assert settled + [] == settled;
      for i := 0 to |needsCheck|
        invariant cache == Replay(old(cache), settled + RejectedWrites(needsCheck[..i], answers))
      {
        RejectOneMore(old(cache), settled, needsCheck, answers, i);
        if answers(i).Rejected? {
          cache := cache[needsCheck[i].did := Check(false, answers(i).at)];
        }
      }
      assert needsCheck[..|needsCheck|] == needsCheck;
      return alreadyValid + freshValid;
    }

    /** A worker registered through the route is probed afresh. */
    method Registered(did: string)
      modifies this
      ensures cache == Make(old(cache), Forget(did)) && did !in cache
    {
      cache := cache - {did};
    }
  }

  lemma SettleOneMore(cache: Cache, probed: seq<Worker>, answers: nat -> Answer, settleOrder: seq<nat>, i: nat)
    requires Within(settleOrder, |probed|) && i < |settleOrder|
    ensures var k := settleOrder[i];
            var before := Replay(cache, SettledWrites(probed, answers, settleOrder[..i]));
            Replay(cache, SettledWrites(probed, answers, settleOrder[..i + 1]))
            == if answers(k).Fulfilled? then before[probed[k].did := Check(answers(k).valid, answers(k).at)] else before
  {
    assert settleOrder[..i + 1][..i] == settleOrder[..i];
    var before := SettledWrites(probed, answers, settleOrder[..i]);
    assert before + [] == before;
    if answers(settleOrder[i]).Fulfilled? {
      var k := settleOrder[i];
      ReplayOneMore(cache, before, Write(probed[k], answers(k).valid, answers(k).at));
    }
  }

  lemma RejectOneMore(cache: Cache, settled: seq<Change>, probed: seq<Worker>, answers: nat -> Answer, i: nat)
    requires i < |probed|
    ensures var before := Replay(cache, settled + RejectedWrites(probed[..i], answers));
            Replay(cache, settled + RejectedWrites(probed[..i + 1], answers))
            == if answers(i).Rejected? then before[probed[i].did := Check(false, answers(i).at)] else before
  {
    assert probed[..i + 1][..i] == probed[..i];
    var before := RejectedWrites(probed[..i], answers);
    assert before + [] == before;
    if answers(i).Rejected? {
      var w := Write(probed[i], false, answers(i).at);
      ReplayOneMore(cache, settled + before, w);
      assert settled + before + [w] == settled + (before + [w]);
    }
  }

  lemma ReplayOneMore(cache: Cache, writes: seq<Change>, w: Change)
    requires w.Write?
    ensures Replay(cache, writes + [w]) == Replay(cache, writes)[w.worker.did := Check(w.valid, w.at)]
  {
    assert (writes + [w])[..|writes + [w]| - 1] == writes;
  }

  lemma {:induction false} OneMore(cache: Cache, now: int, workers: seq<Worker>, i: nat)
    requires i < |workers|
    ensures var (known, w) := (KnownAt(cache, now, workers[i]), workers[i]);
            && CachedValid(cache, now, workers[..i + 1])
               == CachedValid(cache, now, workers[..i]) + (if known && cache[w.did].valid then [w] else [])
            && Unknown(cache, now, workers[..i + 1]) == Unknown(cache, now, workers[..i]) + (if known then [] else [w])
  {
    if i > 0 {
      assert workers[..i + 1][1..] == workers[1..][..i] && workers[..i][1..] == workers[1..][..i - 1];
      OneMore(cache, now, workers[1..], i - 1);
    } else {
      assert workers[..1][1..] == [];
    }
  }
}

/** What the filter's answer is worth. */
module ValidationTruth {
  import opened Wrappers
  import opened ValidationSpec

  /** Every listed worker is let through, turned away or probed, and only one of these. */
  lemma {:induction false} ClassifiedExactlyOnce(cache: Cache, now: int, workers: seq<Worker>)
    ensures multiset(workers)
            == multiset(CachedValid(cache, now, workers)) + multiset(CachedInvalid(cache, now, workers))
               + multiset(Unknown(cache, now, workers))
  {
    if workers != [] {
      var rest := workers[1..];
      HeadIsClassified(cache, now, workers);
      hide CachedValid, CachedInvalid, Unknown, KnownAt, Joins;
      ClassifiedExactlyOnce(cache, now, rest);
      AddOne(workers, CachedValid(cache, now, rest), CachedInvalid(cache, now, rest), Unknown(cache, now, rest),
             CachedValid(cache, now, workers), CachedInvalid(cache, now, workers), Unknown(cache, now, workers));
    }
  }

  /** `w` has joined one of three lists. */
  ghost predicate Joins(w: Worker, v: seq<Worker>, i: seq<Worker>, u: seq<Worker>, v': seq<Worker>, i': seq<Worker>,
                        u': seq<Worker>) {
    || (v' == [w] + v && i' == i && u' == u)
    || (v' == v && i' == [w] + i && u' == u)
    || (v' == v && i' == i && u' == [w] + u)
  }

  lemma HeadIsClassified(cache: Cache, now: int, workers: seq<Worker>)
    requires workers != []
    ensures var rest := workers[1..];
            Joins(workers[0], CachedValid(cache, now, rest), CachedInvalid(cache, now, rest), Unknown(cache, now, rest),
                  CachedValid(cache, now, workers), CachedInvalid(cache, now, workers), Unknown(cache, now, workers))
  {
  }

  lemma AddOne(all: seq<Worker>, v: seq<Worker>, i: seq<Worker>, u: seq<Worker>,
               v': seq<Worker>, i': seq<Worker>, u': seq<Worker>)
    requires all != [] && multiset(all[1..]) == multiset(v) + multiset(i) + multiset(u)
    requires Joins(all[0], v, i, u, v', i', u')
    ensures multiset(all) == multiset(v') + multiset(i') + multiset(u')
  {
    assert all == [all[0]] + all[1..];
  }

  lemma {:induction false} CachedValidListed(cache: Cache, now: int, workers: seq<Worker>)
    ensures forall w :: w in CachedValid(cache, now, workers) <==>
              w in workers && KnownAt(cache, now, w) && cache[w.did].valid
  {
    if workers != [] { CachedValidListed(cache, now, workers[1..]); }
  }

  lemma {:induction false} UnknownListed(cache: Cache, now: int, workers: seq<Worker>)
    ensures forall w :: w in Unknown(cache, now, workers) <==> w in workers && !KnownAt(cache, now, w)
  {
    if workers != [] { UnknownListed(cache, now, workers[1..]); }
  }

  /** Some probe of `w` among `probed`, whose first answer is number `first`, passes. */
  ghost predicate ProbePassed(probed: seq<Worker>, answers: nat -> Answer, first: nat, w: Worker) {
    exists k: nat :: first <= k < first + |probed| && probed[k - first] == w && Passes(answers(k))
  }

  lemma {:induction false} PassingPassed(probed: seq<Worker>, answers: nat -> Answer, first: nat, w: Worker)
    ensures w in Passing(probed, answers, first) <==> ProbePassed(probed, answers, first, w)
  {
    if probed != [] {
      PassingPassed(probed[1..], answers, first + 1, w);
      OneProbeFirst(probed, answers, first, w);
    }
  }

  lemma OneProbeFirst(probed: seq<Worker>, answers: nat -> Answer, first: nat, w: Worker)
    requires probed != []
    ensures ProbePassed(probed, answers, first, w) <==>
            (probed[0] == w && Passes(answers(first))) || ProbePassed(probed[1..], answers, first + 1, w)
  {
    if k: nat :| first + 1 <= k < first + 1 + |probed[1..]| && probed[1..][k - (first + 1)] == w && Passes(answers(k)) {
      assert probed[k - first] == w;
    }
    if k: nat :| first <= k < first + |probed| && probed[k - first] == w && Passes(answers(k)) {
      if k > first { assert probed[1..][k - (first + 1)] == w; }
    }
    if probed[0] == w && Passes(answers(first)) { assert probed[first - first] == w; }
  }

  /**
   * A worker is returned exactly if a check younger than the time to live, or else a
   * probe of this call, found it valid.
   */
  lemma ReturnedExactlyWhenChecked(cache: Cache, now: int, workers: seq<Worker>, answers: nat -> Answer, w: Worker)
    ensures w in Result(cache, now, workers, answers) <==>
            && w in workers
            && if KnownAt(cache, now, w) then cache[w.did].valid
               else
                 exists k: nat :: k < |Unknown(cache, now, workers)| && Unknown(cache, now, workers)[k] == w
                   && Passes(answers(k))
  {
    CachedValidListed(cache, now, workers);
    UnknownListed(cache, now, workers);
    var probed := Unknown(cache, now, workers);
    PassingPassed(probed, answers, 0, w);
    if k: nat :| k < |probed| && probed[k] == w && Passes(answers(k)) { assert probed[k - 0] == w; }
    if k: nat :| 0 <= k < 0 + |probed| && probed[k - 0] == w && Passes(answers(k)) { assert probed[k] == w; }
  }

  // ---------------------------------------------------------------- no duplicates in, none out

  ghost predicate DistinctDids(workers: seq<Worker>) {
    forall i, j :: 0 <= i < j < |workers| ==> workers[i].did != workers[j].did
  }

  lemma ConsDistinct(w: Worker, rest: seq<Worker>)
    requires DistinctDids(rest) && forall x :: x in rest ==> x.did != w.did
    ensures DistinctDids([w] + rest)
  {
    var all := [w] + rest;
    forall i, j | 0 <= i < j < |all|
      ensures all[i].did != all[j].did
    {
      assert all[j] == rest[j - 1] && all[j] in rest;
    }
  }

  lemma HeadIsNew(workers: seq<Worker>)
    requires DistinctDids(workers) && workers != []
    ensures DistinctDids(workers[1..]) && forall x :: x in workers[1..] ==> x.did != workers[0].did
  {
  }

  lemma {:induction false} PartsAreDistinct(cache: Cache, now: int, workers: seq<Worker>)
    requires DistinctDids(workers)
    ensures DistinctDids(CachedValid(cache, now, workers)) && DistinctDids(Unknown(cache, now, workers))
  {
    if workers != [] {
      HeadIsNew(workers);
      hide DistinctDids, KnownAt;
      PartsAreDistinct(cache, now, workers[1..]);
      CachedValidListed(cache, now, workers[1..]);
      UnknownListed(cache, now, workers[1..]);
      ConsDistinct(workers[0], CachedValid(cache, now, workers[1..]));
      ConsDistinct(workers[0], Unknown(cache, now, workers[1..]));
    }
  }

  lemma {:induction false} PassingIsDistinct(probed: seq<Worker>, answers: nat -> Answer, first: nat)
    requires DistinctDids(probed)
    ensures DistinctDids(Passing(probed, answers, first))
    ensures forall w :: w in Passing(probed, answers, first) ==> w in probed
  {
    if probed != [] {
      HeadIsNew(probed);
      PassingIsDistinct(probed[1..], answers, first + 1);
      ConsDistinct(probed[0], Passing(probed[1..], answers, first + 1));
    }
  }

  lemma ResultIsDistinct(cache: Cache, now: int, workers: seq<Worker>, answers: nat -> Answer)
    requires DistinctDids(workers)
    ensures DistinctDids(Result(cache, now, workers, answers))
  {
    var (a, probed) := (CachedValid(cache, now, workers), Unknown(cache, now, workers));
    CachedValidListed(cache, now, workers);
    UnknownListed(cache, now, workers);
    PartsAreDistinct(cache, now, workers);
    PassingIsDistinct(probed, answers, 0);
    var b := Passing(probed, answers, 0);
    forall i, j | 0 <= i < |a| && 0 <= j < |b|
      ensures a[i].did != b[j].did
    {
      assert a[i] in a && b[j] in b && b[j] in probed;
    }
  }

  /** Asking every worker directly. */
  function Direct(workers: seq<Worker>, healthy: Worker -> bool): seq<Worker> {
    if workers == [] then [] else (if healthy(workers[0]) then [workers[0]] else []) + Direct(workers[1..], healthy)
  }

  lemma {:induction false} DirectSelects(workers: seq<Worker>, healthy: Worker -> bool)
    ensures forall w :: w in Direct(workers, healthy) <==> w in workers && healthy(w)
    ensures DistinctDids(workers) ==> DistinctDids(Direct(workers, healthy))
  {
    if workers != [] {
      DirectSelects(workers[1..], healthy);
      if DistinctDids(workers) {
        HeadIsNew(workers);
        ConsDistinct(workers[0], Direct(workers[1..], healthy));
      }
    }
  }

  lemma {:induction false} SameMembersSameMultiset(a: seq<Worker>, b: seq<Worker>)
    requires DistinctDids(a) && DistinctDids(b)
    ensures multiset(a) == multiset(b) <==> forall w :: w in a <==> w in b
  {
    OccursOnce(a);
    OccursOnce(b);
    if multiset(a) == multiset(b) {
      forall w
        ensures w in a <==> w in b
      {
        assert w in multiset(a) <==> w in multiset(b);
      }
    }
  }

  lemma {:induction false} OccursOnce(a: seq<Worker>)
    requires DistinctDids(a)
    ensures forall w :: multiset(a)[w] == if w in a then 1 else 0
  {
    if a != [] {
      OccursOnce(a[1..]);
      assert a == [a[0]] + a[1..];
      assert a[0] !in a[1..];
    }
  }

  /** What the filter holds true of a worker: its recent check if there is one, its probe otherwise. */
  predicate Believed(cache: Cache, now: int, workers: seq<Worker>, answers: nat -> Answer, w: Worker) {
    if KnownAt(cache, now, w) then cache[w.did].valid
    else
      var probed := Unknown(cache, now, workers);
      exists k: nat | k < |probed| :: probed[k] == w && Passes(answers(k))
  }

  /**
   * With distinct DIDs the filter equals direct validation, as a multiset, exactly
   * when it believes the truth of every worker.
   */
  lemma DirectExactlyWhenBeliefsAreTrue(cache: Cache, now: int, workers: seq<Worker>, answers: nat -> Answer,
                                        healthy: Worker -> bool)
    requires DistinctDids(workers)
    ensures multiset(Result(cache, now, workers, answers)) == multiset(Direct(workers, healthy)) <==>
            forall w :: w in workers ==> (Believed(cache, now, workers, answers, w) <==> healthy(w))
  {
    ResultIsDistinct(cache, now, workers, answers);
    DirectSelects(workers, healthy);
    SameMembersSameMultiset(Result(cache, now, workers, answers), Direct(workers, healthy));
    forall w
      ensures w in Result(cache, now, workers, answers) <==> w in workers && Believed(cache, now, workers, answers, w)
    {
      ReturnedExactlyWhenChecked(cache, now, workers, answers, w);
    }
  }

  // ---------------------------------------------------------------- histories

  /** Change `k` is the last one about `did`. */
  ghost predicate LastFor(history: seq<Change>, k: nat, did: string) {
    k < |history| && About(history[k]) == did && forall m :: k < m < |history| ==> About(history[m]) != did
  }

  /** The cache holds a DID exactly if the last change about it is a check entered, and then holds that check. */
  lemma {:induction false} CacheHoldsLastWrite(history: seq<Change>, did: string)
    ensures did in Replay(map[], history) <==> exists k: nat :: LastFor(history, k, did) && history[k].Write?
    ensures did in Replay(map[], history) ==>
              exists k: nat :: LastFor(history, k, did) && history[k].Write?
                && Replay(map[], history)[did] == Check(history[k].valid, history[k].at)
  {
    if history != [] {
      var (init, last) := (history[..|history| - 1], |history| - 1);
      CacheHoldsLastWrite(init, did);
      if About(history[last]) == did {
        assert LastFor(history, last, did);
      } else {
        forall k: nat
          ensures LastFor(history, k, did) <==> LastFor(init, k, did)
        {
        }
      }
    }
  }

  type Health = (Worker, int) -> bool

  /** Every entry records what a probe of that worker found at that time. */
  ghost predicate Honest(history: seq<Change>, health: Health) {
    forall k :: 0 <= k < |history| && history[k].Write? ==> history[k].valid == health(history[k].worker, history[k].at)
  }

  /** The probes of a call find what is there; a rejected probe is an unhealthy worker. */
  ghost predicate HonestAnswers(probed: seq<Worker>, answers: nat -> Answer, health: Health) {
    forall k: nat :: k < |probed| ==> (Passes(answers(k)) <==> health(probed[k], answers(k).at))
  }

  /**
   * From the last check of the DID of `w` on, if it falls within the time to live
   * and was not forgotten, and up to the end of the call, `w` has not changed health.
   */
  ghost predicate Steady(history: seq<Change>, now: int, probed: seq<Worker>, answers: nat -> Answer, health: Health,
                         w: Worker) {
    && (forall k: nat :: LastFor(history, k, w.did) && history[k].Write? && now - history[k].at < TTL_MS ==>
         health(history[k].worker, history[k].at) == health(w, now))
    && forall k: nat :: k < |probed| && probed[k] == w ==> health(w, answers(k).at) == health(w, now)
  }

  predicate HealthyAt(health: Health, now: int, w: Worker) { health(w, now) }

  /**
   * However many earlier or overlapping calls and registrations have changed the
   * cache, a call on distinct DIDs returns what validating every worker directly
   * would, provided no worker's health, or address, changed since a check that is
   * still in use.
   */
  lemma CacheIsInvisible(history: seq<Change>, workers: seq<Worker>, now: int, answers: nat -> Answer, health: Health)
    requires DistinctDids(workers) && Honest(history, health)
    requires HonestAnswers(Unknown(Replay(map[], history), now, workers), answers, health)
    requires forall w :: w in workers ==>
               Steady(history, now, Unknown(Replay(map[], history), now, workers), answers, health, w)
    ensures multiset(Result(Replay(map[], history), now, workers, answers))
            == multiset(Direct(workers, w => HealthyAt(health, now, w)))
  {
    var cache := Replay(map[], history);
    var healthy := w => HealthyAt(health, now, w);
    DirectExactlyWhenBeliefsAreTrue(cache, now, workers, answers, healthy);
    forall w | w in workers
      ensures Believed(cache, now, workers, answers, w) <==> health(w, now)
    {
      BeliefIsTrue(history, workers, now, answers, health, w);
    }
  }

  lemma BeliefIsTrue(history: seq<Change>, workers: seq<Worker>, now: int, answers: nat -> Answer, health: Health,
                     w: Worker)
    requires w in workers && Honest(history, health)
    requires HonestAnswers(Unknown(Replay(map[], history), now, workers), answers, health)
    requires Steady(history, now, Unknown(Replay(map[], history), now, workers), answers, health, w)
    ensures Believed(Replay(map[], history), now, workers, answers, w) <==> health(w, now)
  {
    var cache := Replay(map[], history);
    if KnownAt(cache, now, w) {
      CacheHoldsLastWrite(history, w.did);
    } else {
      UnknownListed(cache, now, workers);
      var probed := Unknown(cache, now, workers);
      var k :| 0 <= k < |probed| && probed[k] == w;
      assert health(w, answers(k).at) == health(w, now);
    }
  }

  /** A call adds honest entries only, so the assumption on the history keeps holding. */
  lemma WritesAreHonest(probed: seq<Worker>, answers: nat -> Answer, settleOrder: seq<nat>, health: Health)
    requires HonestAnswers(probed, answers, health) && Within(settleOrder, |probed|)
    ensures Honest(Writes(probed, answers, settleOrder), health)
  {
    SettledAreHonest(probed, answers, settleOrder, health);
    RejectedAreHonest(probed, answers, health);
  }

  lemma {:induction false} SettledAreHonest(probed: seq<Worker>, answers: nat -> Answer, settleOrder: seq<nat>,
                                            health: Health)
    requires HonestAnswers(probed, answers, health) && Within(settleOrder, |probed|)
    ensures Honest(SettledWrites(probed, answers, settleOrder), health)
  {
    if settleOrder != [] {
      var init := settleOrder[..|settleOrder| - 1];
      var k := settleOrder[|settleOrder| - 1];
      SettledAreHonest(probed, answers, init, health);
    }
  }

  lemma {:induction false} RejectedAreHonest(probed: seq<Worker>, answers: nat -> Answer, health: Health)
    requires HonestAnswers(probed, answers, health)
    ensures Honest(RejectedWrites(probed, answers), health)
  {
    if probed != [] { RejectedAreHonest(probed[..|probed| - 1], answers, health); }
  }

  // ---------------------------------------------------------------- no second probe

  /**
   * A probed worker, healthy or not, is not probed again while its answer and every
   * check entered since are younger than the time to live, exactly unless it
   * has registered anew and not been checked since.
   */
  lemma NotProbedAgain(cache: Cache, now: int, workers: seq<Worker>, answers: nat -> Answer, settleOrder: seq<nat>,
                       since: seq<Change>, later: int, w: Worker)
    requires SettlesAll(settleOrder, |Unknown(cache, now, workers)|) && w in workers && !KnownAt(cache, now, w)
    requires forall k: nat :: k < |Unknown(cache, now, workers)| ==> later - answers(k).at < TTL_MS
    requires forall j :: 0 <= j < |since| && since[j].Write? ==> later - since[j].at < TTL_MS
    ensures var after := Replay(cache, Writes(Unknown(cache, now, workers), answers, settleOrder));
            KnownAt(Replay(after, since), later, w) <==>
            !exists k: nat :: LastFor(since, k, w.did) && since[k].Forget?
  {
    KnownAfterTheCall(cache, now, workers, answers, settleOrder, later, w);
    KnownUnlessForgotten(Replay(cache, Writes(Unknown(cache, now, workers), answers, settleOrder)), since, later, w);
  }

  lemma {:induction false} KnownUnlessForgotten(cache: Cache, since: seq<Change>, later: int, w: Worker)
    requires KnownAt(cache, later, w)
    requires forall j :: 0 <= j < |since| && since[j].Write? ==> later - since[j].at < TTL_MS
    ensures KnownAt(Replay(cache, since), later, w) <==> !exists k: nat :: LastFor(since, k, w.did) && since[k].Forget?
  {
    if since != [] {
      var (init, last) := (since[..|since| - 1], |since| - 1);
      KnownUnlessForgotten(cache, init, later, w);
      if About(since[last]) == w.did {
        assert LastFor(since, last, w.did);
      } else {
        forall k: nat
          ensures LastFor(since, k, w.did) <==> LastFor(init, k, w.did)
        {
        }
      }
    }
  }

  lemma KnownAfterTheCall(cache: Cache, now: int, workers: seq<Worker>, answers: nat -> Answer, settleOrder: seq<nat>,
                          later: int, w: Worker)
    requires SettlesAll(settleOrder, |Unknown(cache, now, workers)|) && w in workers && !KnownAt(cache, now, w)
    requires forall k: nat :: k < |Unknown(cache, now, workers)| ==> later - answers(k).at < TTL_MS
    ensures KnownAt(Replay(cache, Writes(Unknown(cache, now, workers), answers, settleOrder)), later, w)
  {
    UnknownListed(cache, now, workers);
    var probed := Unknown(cache, now, workers);
    var k: nat :| k < |probed| && probed[k] == w;
    assert k in settleOrder;
    SettledAreYoung(probed, answers, settleOrder, later);
    RejectedAreYoung(probed, answers, later);
    var (settled, rejected) := (SettledWrites(probed, answers, settleOrder), RejectedWrites(probed, answers));
    if answers(k).Fulfilled? {
      var j :| 0 <= j < |settleOrder| && settleOrder[j] == k;
      SettledWritten(probed, answers, settleOrder, j);
      var m :| 0 <= m < |settled| && settled[m].Write? && settled[m].worker == w;
      assert (settled + rejected)[m].worker == w;
    } else {
      RejectedWritten(probed, answers, k);
      var m :| 0 <= m < |rejected| && rejected[m].Write? && rejected[m].worker == w;
      assert (settled + rejected)[|settled| + m].worker == w;
    }
    YoungWriteIsKnown(cache, settled + rejected, later, w);
  }

  ghost predicate Young(writes: seq<Change>, later: int) {
    forall j :: 0 <= j < |writes| ==> writes[j].Write? && later - writes[j].at < TTL_MS
  }

  ghost predicate Writing(writes: seq<Change>, w: Worker) {
    exists j :: 0 <= j < |writes| && writes[j].Write? && writes[j].worker == w
  }

  lemma {:induction false} YoungWriteIsKnown(cache: Cache, writes: seq<Change>, later: int, w: Worker)
    requires Young(writes, later) && Writing(writes, w)
    ensures KnownAt(Replay(cache, writes), later, w)
  {
    var init := writes[..|writes| - 1];
    if writes[|writes| - 1].worker.did != w.did {
      var j :| 0 <= j < |writes| && writes[j].Write? && writes[j].worker == w;
      assert init[j].worker == w;
      YoungWriteIsKnown(cache, init, later, w);
    }
  }

  lemma {:induction false} SettledAreYoung(probed: seq<Worker>, answers: nat -> Answer, settleOrder: seq<nat>,
                                           later: int)
    requires Within(settleOrder, |probed|) && forall k: nat :: k < |probed| ==> later - answers(k).at < TTL_MS
    ensures Young(SettledWrites(probed, answers, settleOrder), later)
  {
    if settleOrder != [] { SettledAreYoung(probed, answers, settleOrder[..|settleOrder| - 1], later); }
  }

  lemma {:induction false} RejectedAreYoung(probed: seq<Worker>, answers: nat -> Answer, later: int)
    requires forall k: nat :: k < |probed| ==> later - answers(k).at < TTL_MS
    ensures Young(RejectedWrites(probed, answers), later)
  {
    if probed != [] { RejectedAreYoung(probed[..|probed| - 1], answers, later); }
  }

  lemma {:induction false} SettledWritten(probed: seq<Worker>, answers: nat -> Answer, settleOrder: seq<nat>, j: nat)
    requires Within(settleOrder, |probed|) && j < |settleOrder| && answers(settleOrder[j]).Fulfilled?
    ensures Writing(SettledWrites(probed, answers, settleOrder), probed[settleOrder[j]])
  {
    var init := settleOrder[..|settleOrder| - 1];
    var before := SettledWrites(probed, answers, init);
    var all := SettledWrites(probed, answers, settleOrder);
    if j < |init| {
      SettledWritten(probed, answers, init, j);
      var m :| 0 <= m < |before| && before[m].Write? && before[m].worker == probed[init[j]];
      assert all[m] == before[m];
    } else {
      assert all[|before|].worker == probed[settleOrder[j]];
    }
  }

  lemma {:induction false} RejectedWritten(probed: seq<Worker>, answers: nat -> Answer, k: nat)
    requires k < |probed| && answers(k).Rejected?
    ensures Writing(RejectedWrites(probed, answers), probed[k])
  {
    var init := probed[..|probed| - 1];
    var before := RejectedWrites(init, answers);
    var all := RejectedWrites(probed, answers);
    if k < |init| {
      RejectedWritten(init, answers, k);
      var m :| 0 <= m < |before| && before[m].Write? && before[m].worker == init[k];
      assert all[m] == before[m];
    } else {
      assert all[|before|].worker == probed[k];
    }
  }

  // ---------------------------------------------------------------- the order of the answer

  /** Workers known to be valid are taken in the order of the list. */
  lemma {:induction false} KnownInOrder(cache: Cache, now: int, a: seq<Worker>, b: seq<Worker>)
    ensures CachedValid(cache, now, a + b) == CachedValid(cache, now, a) + CachedValid(cache, now, b)
  {
    if a == [] {
      assert a + b == b;
    } else {
      assert (a + b)[1..] == a[1..] + b;
      KnownInOrder(cache, now, a[1..], b);
    }
  }

  /** Workers to probe are taken in the order of the list. */
  lemma {:induction false} UnknownInOrder(cache: Cache, now: int, a: seq<Worker>, b: seq<Worker>)
    ensures Unknown(cache, now, a + b) == Unknown(cache, now, a) + Unknown(cache, now, b)
  {
    if a == [] {
      assert a + b == b;
    } else {
      assert (a + b)[1..] == a[1..] + b;
      UnknownInOrder(cache, now, a[1..], b);
    }
  }

  /** One worker is known for five minutes after its check, and probed otherwise. */
  lemma OneWorker(cache: Cache, now: int, w: Worker)
    ensures var known := w.did in cache && now - cache[w.did].checkedAt < 5 * 60 * 1000;
            && CachedValid(cache, now, [w]) == (if known && cache[w.did].valid then [w] else [])
            && Unknown(cache, now, [w]) == if known then [] else [w]
  {
    assert [w][1..] == [];
  }

  /** The answer is the known valid workers and then, in their order, the probed ones whose answer is a valid one. */
  lemma AnswerInOrder(cache: Cache, now: int, workers: seq<Worker>, answers: nat -> Answer)
    ensures Result(cache, now, workers, answers)
            == CachedValid(cache, now, workers) + Passing(Unknown(cache, now, workers), answers, 0)
  {
  }

  /** Probed workers are taken in their order, each with the answer of its own place. */
  lemma {:induction false} PassingInOrder(a: seq<Worker>, b: seq<Worker>, answers: nat -> Answer, first: nat)
    ensures Passing(a + b, answers, first) == Passing(a, answers, first) + Passing(b, answers, first + |a|)
  {
    if a == [] {
      assert a + b == b;
    } else {
      var one := if Passes(answers(first)) then [a[0]] else [];
      assert (a + b)[1..] == a[1..] + b;
      assert Passing(a + b, answers, first) == one + Passing(a[1..] + b, answers, first + 1);
      assert Passing(a, answers, first) == one + Passing(a[1..], answers, first + 1);
      hide Passing;
      PassingInOrder(a[1..], b, answers, first + 1);
    }
  }

  /** One probed worker passes when its probe is answered, and answered as valid. */
  lemma OneProbe(w: Worker, answers: nat -> Answer, first: nat)
    ensures Passing([w], answers, first) == if answers(first).Fulfilled? && answers(first).valid then [w] else []
  {
    assert [w][1..] == [];
  }

  /** Probes that settle with an answer are entered as they settle, those that are rejected
    * afterwards as invalid, in the order of the list.
    */
  lemma {:induction false} EntriesInOrder(probed: seq<Worker>, answers: nat -> Answer, order: seq<nat>, k: nat)
    requires Within(order, |probed|) && k < |probed|
    ensures SettledWrites(probed, answers, order + [k])
            == SettledWrites(probed, answers, order)
               + if answers(k).Fulfilled? then [Write(probed[k], answers(k).valid, answers(k).at)] else []
    ensures RejectedWrites(probed[..k + 1], answers)
            == RejectedWrites(probed[..k], answers)
               + if answers(k).Rejected? then [Write(probed[k], false, answers(k).at)] else []
    ensures SettledWrites(probed, answers, []) == [] && RejectedWrites([], answers) == []
    ensures Writes(probed, answers, order) == SettledWrites(probed, answers, order) + RejectedWrites(probed, answers)
  {
    assert (order + [k])[..|order|] == order && probed[..k + 1][..k] == probed[..k];
  }
}
