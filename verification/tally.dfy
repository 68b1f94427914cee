/** Aggregating worker results into a decision. */
module Tally {
  import opened Wrappers
  import opened SharedKeys
  import Lcg

  /**
   * The parts of a parsed result the coordinator looks at; `vote` is `output.vote`,
   * a truthy one of another type standing for some other text. Values are finite
   * doubles, counted in a power of two of which all of them are multiples.
   */
  datatype WorkerResult = WorkerResult(workerId: string, vote: string, option: Option<string>, value: int)

  /** `JSON.parse`: a syntax error, the value `null`, or anything whose properties can be read. */
  datatype Parsed = Malformed | Null | Value(r: WorkerResult)
  type Parser = string -> Parsed

  /** The shared memory as one multi-key read returned it; an absent or empty value counts as missing. */
  type Snapshot = map<string, string>

  datatype Decision = Approved | Rejected

  /** With votes the number of approvals, without any the sum of the values. */
  datatype Aggregate = Approvals(count: nat) | ValueSum(units: int)

  datatype TallyResult = TallyResult(
    aggregatedValue: Aggregate, approved: nat, rejected: nat, decision: Decision, workerCount: nat)

  /** `output.vote` if it is a non-empty string, else `option`. */
  function ExtractVote(r: WorkerResult): string {
    if r.vote != "" then r.vote else if r.option.Some? then r.option.value else ""
  }

  /** What one listed worker contributes. */
  datatype Ballot = Missing | Broken | Approve | Reject | OtherVote | NoVote(value: int)

  function Classify(parsed: Parsed): Ballot {
    match parsed
    case Malformed => Missing
    case Null => Broken
    case Value(r) =>
      var vote := ExtractVote(r);
      if vote == "Approved" then Approve
      else if vote == "Rejected" then Reject
      else if vote != "" then OtherVote
      else NoVote(r.value)
  }

  function BallotOf(parse: Parser, results: Snapshot, did: string): Ballot {
    var key := ResultKey(did);
    if key !in results || results[key] == "" then Missing else Classify(parse(results[key]))
  }

  function BallotsOf(parse: Parser, results: Snapshot, dids: seq<string>): (bs: seq<Ballot>)
    ensures |bs| == |dids| && forall k :: 0 <= k < |dids| ==> bs[k] == BallotOf(parse, results, dids[k])
  {
    seq(|dids|, k requires 0 <= k < |dids| => BallotOf(parse, results, dids[k]))
  }

  function Count(bs: seq<Ballot>, p: Ballot -> bool): (n: nat)
    ensures n <= |bs|
  {
    if bs == [] then 0 else Count(bs[..|bs| - 1], p) + if p(bs[|bs| - 1]) then 1 else 0
  }

  /** The running sum of the values, each addition rounded to a double. */
  function SumValues(bs: seq<Ballot>): int {
    if bs == [] then 0
    else
      var sum := SumValues(bs[..|bs| - 1]);
      match bs[|bs| - 1] case NoVote(v) => Lcg.Fl(sum + v) case _ => sum
  }

  /** The sum without rounding, and the sum of the magnitudes. */
  function ExactSum(bs: seq<Ballot>): int {
    if bs == [] then 0 else ExactSum(bs[..|bs| - 1]) + match bs[|bs| - 1] case NoVote(v) => v case _ => 0
  }

  function Magnitude(bs: seq<Ballot>): nat {
    if bs == [] then 0 else Magnitude(bs[..|bs| - 1]) + match bs[|bs| - 1] case NoVote(v) => Lcg.Abs(v) case _ => 0
  }

  predicate IsApprove(b: Ballot) { b == Approve }
  predicate IsReject(b: Ballot) { b == Reject }
  predicate IsOther(b: Ballot) { b == OtherVote || b.NoVote? }
  predicate IsVote(b: Ballot) { b == Approve || b == Reject || b == OtherVote }
  predicate IsPresent(b: Ballot) { b != Missing }

  /** `votingConfig.quorum`, or a strict majority of all listed workers. */
  function MinPositives(listed: nat, quorum: Option<int>): int {
    match quorum case Some(q) => q case None => listed / 2 + 1
  }

  /** `None` is the exception thrown on a result that is the JSON value `null`. */
  function TallyOf(bs: seq<Ballot>, quorum: Option<int>): Option<TallyResult> {
    if Broken in bs then None
    else
      var approved := Count(bs, IsApprove);
      var hasVotes := Count(bs, IsVote) > 0;
      Some(TallyResult(
        if hasVotes then Approvals(approved) else ValueSum(SumValues(bs)),
        approved,
        Count(bs, IsReject),
        if hasVotes && approved < MinPositives(|bs|, quorum) then Rejected else Approved,
        Count(bs, IsPresent)))
  }

  // ---------------------------------------------------------------- the aggregation loops

  function Kinds(results: seq<Parsed>): (bs: seq<Ballot>)
    ensures |bs| == |results| && forall k :: 0 <= k < |bs| ==> bs[k] == Classify(results[k])
  {
    seq(|results|, k requires 0 <= k < |results| => Classify(results[k]))
  }

  function Present(bs: seq<Ballot>): seq<Ballot> {
    if bs == [] then []
    else Present(bs[..|bs| - 1]) + if bs[|bs| - 1] == Missing then [] else [bs[|bs| - 1]]
  }

  lemma CountSnoc(bs: seq<Ballot>, b: Ballot, p: Ballot -> bool)
    ensures Count(bs + [b], p) == Count(bs, p) + if p(b) then 1 else 0
  {
    assert (bs + [b])[..|bs|] == bs;
  }

  lemma {:induction false} CountPresent(bs: seq<Ballot>, p: Ballot -> bool)
    requires !p(Missing)
    ensures Count(Present(bs), p) == Count(bs, p)
  {
    if bs != [] {
      var front, last := bs[..|bs| - 1], bs[|bs| - 1];
      CountPresent(front, p);
      if last == Missing { assert Present(bs) == Present(front); } else { CountSnoc(Present(front), last, p); }
    }
  }

  lemma {:induction false} PresentCounts(bs: seq<Ballot>)
    ensures |Present(bs)| == Count(bs, IsPresent)
    ensures Broken in Present(bs) <==> Broken in bs
  {
    if bs != [] {
      PresentCounts(bs[..|bs| - 1]);
      assert bs == bs[..|bs| - 1] + [bs[|bs| - 1]];
    }
  }

  lemma {:induction false} PresentSums(bs: seq<Ballot>)
    ensures SumValues(Present(bs)) == SumValues(bs)
  {
    hide Lcg.Fl;
    if bs != [] {
      var front, last := bs[..|bs| - 1], bs[|bs| - 1];
      PresentSums(front);
      if last == Missing {
        assert Present(bs) == Present(front);
      } else {
        assert Present(bs)[..|Present(front)|] == Present(front);
      }
    }
  }

  /** First loop: what is there and parses, in list order. */
  method CollectResults(parse: Parser, dids: seq<string>, results: Snapshot) returns (workerResults: seq<Parsed>)
    ensures Kinds(workerResults) == Present(BallotsOf(parse, results, dids))
  {
    ghost var bs := BallotsOf(parse, results, dids);
    workerResults := [];
    for i := 0 to |dids|
      invariant Kinds(workerResults) == Present(bs[..i])
    {
      assert bs[..i + 1][..i] == bs[..i];
      var key := ResultKey(dids[i]);
      if key in results && results[key] != "" {
        var parsed := parse(results[key]);
        if parsed != Malformed { workerResults := workerResults + [parsed]; }
      }
    }
    assert bs[..|dids|] == bs;
  }

  /** Second loop: votes counted and values summed; reading a property of `null` throws. */
  method CountVotes(workerResults: seq<Parsed>)
    returns (threw: bool, hasVotes: bool, approved: nat, rejected: nat, sum: int)
    ensures threw <==> Broken in Kinds(workerResults)
    ensures !threw ==>
              && approved == Count(Kinds(workerResults), IsApprove)
              && rejected == Count(Kinds(workerResults), IsReject)
              && (hasVotes <==> Count(Kinds(workerResults), IsVote) > 0)
              && sum == SumValues(Kinds(workerResults))
  {
    hide Lcg.Fl;
    ghost var kinds := Kinds(workerResults);
    threw, hasVotes, approved, rejected, sum := false, false, 0, 0, 0;
    for k := 0 to |workerResults|
      invariant Broken !in kinds[..k] && !threw
      invariant approved == Count(kinds[..k], IsApprove)
      invariant rejected == Count(kinds[..k], IsReject)
      invariant hasVotes <==> Count(kinds[..k], IsVote) > 0
      invariant sum == SumValues(kinds[..k])
    {
      assert kinds[..k + 1][..k] == kinds[..k];
      match workerResults[k] {
        case Null =>
          assert kinds[k] == Broken;
          threw := true;
          return;
        case Value(r) =>
          var vote := ExtractVote(r);
          if vote == "Approved" { approved := approved + 1; }
          else if vote == "Rejected" { rejected := rejected + 1; }
          if vote != "" { hasVotes := true; } else { sum := Lcg.Fl(sum + r.value); }
        case Malformed =>  // never collected
      }
    }
    assert kinds[..|workerResults|] == kinds;
  }

  method AggregateResults(parse: Parser, dids: seq<string>, results: Snapshot, quorum: Option<int>)
    returns (tally: Option<TallyResult>)
    ensures tally == TallyOf(BallotsOf(parse, results, dids), quorum)
  {
    ghost var bs := BallotsOf(parse, results, dids);
    var workerResults := CollectResults(parse, dids, results);
    var threw, hasVotes, approved, rejected, sum := CountVotes(workerResults);
    PresentCounts(bs);
    PresentSums(bs);
    CountPresent(bs, IsApprove);
    CountPresent(bs, IsReject);
    CountPresent(bs, IsVote);
    if threw { return None; }
    var aggregatedValue := if hasVotes then Approvals(approved) else ValueSum(sum);
    var minPositives := MinPositives(|dids|, quorum);
    var decision := if hasVotes then if approved >= minPositives then Approved else Rejected else Approved;
    return Some(TallyResult(aggregatedValue, approved, rejected, decision, |workerResults|));
  }

  // ---------------------------------------------------------------- the tally in the fields of the results

  /** The places whose result is there and parses. */
  ghost function Parsing(parse: Parser, results: Snapshot, dids: seq<string>): set<int> {
    set k | 0 <= k < |dids| && Reads(parse, results, dids[k])
  }

  ghost predicate Reads(parse: Parser, results: Snapshot, did: string) {
    var key := "coordination/tasks/" + did + "/result";
    key in results && results[key] != "" && parse(results[key]) != Malformed
  }

  /** The result of `did` says `word`, in `vote` if that is not empty, in `option` otherwise. */
  ghost predicate Says(parse: Parser, results: Snapshot, did: string, word: string) {
    && Reads(parse, results, did) && parse(results["coordination/tasks/" + did + "/result"]).Value?
    && var r := parse(results["coordination/tasks/" + did + "/result"]).r;
       r.vote == word || (r.vote == "" && r.option == Some(word))
  }

  /** There is a vote at all: some parsed result has a vote or an option that is not empty. */
  ghost predicate SomeVote(parse: Parser, results: Snapshot, dids: seq<string>) {
    exists k :: 0 <= k < |dids| && Votes(parse, results, dids[k])
  }

  ghost predicate Votes(parse: Parser, results: Snapshot, did: string) {
    exists word :: word != "" && Says(parse, results, did, word)
  }

  lemma {:induction false} CountIsPlaces(bs: seq<Ballot>, p: Ballot -> bool)
    ensures Count(bs, p) == |set k | 0 <= k < |bs| && p(bs[k])|
  {
    var places := set k | 0 <= k < |bs| && p(bs[k]);
    if bs == [] {
      assert places == {};
    } else {
      var (front, last) := (bs[..|bs| - 1], |bs| - 1);
      CountIsPlaces(front, p);
      var before := set k | 0 <= k < |front| && p(front[k]);
      assert Count(bs, p) == Count(front, p) + if p(bs[last]) then 1 else 0;
      hide Count;
      forall k
        ensures k in before <==> 0 <= k < last && p(bs[k])
      {
      }
      assert last !in before;
      assert places == if p(bs[last]) then before + {last} else before;
    }
  }

  lemma BallotInFields(parse: Parser, results: Snapshot, did: string)
    ensures var b := BallotOf(parse, results, did);
            && (b == Approve <==> Says(parse, results, did, "Approved"))
            && (b == Reject <==> Says(parse, results, did, "Rejected"))
            && (b != Missing <==> Reads(parse, results, did))
            && (b == Broken <==>
                  Reads(parse, results, did) && parse(results["coordination/tasks/" + did + "/result"]) == Null)
            && (IsVote(b) <==> Votes(parse, results, did))
            && (b.NoVote? ==> b.value == parse(results["coordination/tasks/" + did + "/result"]).r.value)
  {
    assert ResultKey(did) == "coordination/tasks/" + did + "/result";
    if Reads(parse, results, did) && parse(results[ResultKey(did)]).Value? {
      var r := parse(results[ResultKey(did)]).r;
      var word := if r.vote != "" then r.vote else if r.option.Some? then r.option.value else "";
      if word != "" { assert Says(parse, results, did, word); }
    }
  }

  /**
   * The tally, told from the parsed results of the listed workers: how many say
   * Approved and Rejected, how many are there, whether there is a vote at all, and
   * what is decided. It throws exactly if one of them is the value `null`.
   */
  lemma TallyInFields(parse: Parser, results: Snapshot, dids: seq<string>, quorum: Option<int>)
    ensures var t := TallyOf(BallotsOf(parse, results, dids), quorum);
            && (t.None? <==> exists k :: 0 <= k < |dids| && Reads(parse, results, dids[k])
                              && parse(results["coordination/tasks/" + dids[k] + "/result"]) == Null)
            && (t.Some? ==>
                 && t.value.approved == |set k | 0 <= k < |dids| && Says(parse, results, dids[k], "Approved")|
                 && t.value.rejected == |set k | 0 <= k < |dids| && Says(parse, results, dids[k], "Rejected")|
                 && t.value.workerCount == |Parsing(parse, results, dids)|
                 && (SomeVote(parse, results, dids) <==> t.value.aggregatedValue.Approvals?)
                 && (SomeVote(parse, results, dids) ==> t.value.aggregatedValue == Approvals(t.value.approved))
                 && (t.value.aggregatedValue.ValueSum? ==>
                      t.value.aggregatedValue == ValueSum(SumValues(BallotsOf(parse, results, dids))))
                 && (t.value.decision == Approved <==>
                      || !SomeVote(parse, results, dids)
                      || (if quorum.Some? then t.value.approved >= quorum.value else 2 * t.value.approved > |dids|)))
  {
    var bs := BallotsOf(parse, results, dids);
    forall k | 0 <= k < |dids|
      ensures bs[k] == BallotOf(parse, results, dids[k])
    {
      BallotInFields(parse, results, dids[k]);
    }
    FieldCounts(parse, results, dids);
    FieldVotes(parse, results, dids);
    hide BallotOf, Count, SumValues, Reads, Says, Votes, Parsing;
    if Broken in bs {
      var k :| 0 <= k < |bs| && bs[k] == Broken;
      BallotInFields(parse, results, dids[k]);
    }
    if k :| 0 <= k < |dids| && Reads(parse, results, dids[k])
            && parse(results["coordination/tasks/" + dids[k] + "/result"]) == Null
    {
      BallotInFields(parse, results, dids[k]);
      assert bs[k] == Broken;
    }
  }

  /** Without votes the values are added one after the other, every sum rounded. */
  lemma SumsGoOn(bs: seq<Ballot>, b: Ballot)
    ensures SumValues([]) == 0
    ensures SumValues(bs + [b]) == if b.NoVote? then Lcg.Fl(SumValues(bs) + b.value) else SumValues(bs)
  {
    assert (bs + [b])[..|bs|] == bs;
  }

  lemma FieldCounts(parse: Parser, results: Snapshot, dids: seq<string>)
    ensures var bs := BallotsOf(parse, results, dids);
            && Count(bs, IsApprove) == |set k | 0 <= k < |dids| && Says(parse, results, dids[k], "Approved")|
            && Count(bs, IsReject) == |set k | 0 <= k < |dids| && Says(parse, results, dids[k], "Rejected")|
            && Count(bs, IsPresent) == |Parsing(parse, results, dids)|
  {
    forall k | 0 <= k < |dids|
      ensures var b := BallotsOf(parse, results, dids)[k];
              && (IsApprove(b) <==> Says(parse, results, dids[k], "Approved"))
              && (IsReject(b) <==> Says(parse, results, dids[k], "Rejected"))
              && (IsPresent(b) <==> Reads(parse, results, dids[k]))
    {
      BallotInFields(parse, results, dids[k]);
    }
    hide BallotOf, BallotsOf, Says, Reads, Count;
    var bs := BallotsOf(parse, results, dids);
    CountIsSize(bs, IsApprove, set k | 0 <= k < |dids| && Says(parse, results, dids[k], "Approved"));
    CountIsSize(bs, IsReject, set k | 0 <= k < |dids| && Says(parse, results, dids[k], "Rejected"));
    CountIsSize(bs, IsPresent, Parsing(parse, results, dids));
  }

  lemma CountIsSize(bs: seq<Ballot>, p: Ballot -> bool, places: set<int>)
    requires forall k :: k in places <==> 0 <= k < |bs| && p(bs[k])
    ensures Count(bs, p) == |places|
  {
    CountIsPlaces(bs, p);
    assert places == set k | 0 <= k < |bs| && p(bs[k]);
  }

  lemma FieldVotes(parse: Parser, results: Snapshot, dids: seq<string>)
    ensures Count(BallotsOf(parse, results, dids), IsVote) > 0 <==> SomeVote(parse, results, dids)
  {
    var bs := BallotsOf(parse, results, dids);
    var places := set k | 0 <= k < |bs| && IsVote(bs[k]);
    CountIsPlaces(bs, IsVote);
    forall k | 0 <= k < |dids|
      ensures IsVote(bs[k]) <==> Votes(parse, results, dids[k])
    {
      BallotInFields(parse, results, dids[k]);
    }
    hide BallotOf, BallotsOf, Votes, Count;
    if places != {} { var k :| k in places; }
    if SomeVote(parse, results, dids) {
      var k :| 0 <= k < |dids| && Votes(parse, results, dids[k]);
      assert k in places;
    }
  }

  // ---------------------------------------------------------------- what the tally means

  lemma {:induction false} KindsPartition(bs: seq<Ballot>)
    requires Broken !in bs
    ensures Count(bs, IsApprove) + Count(bs, IsReject) + Count(bs, IsOther) == Count(bs, IsPresent)
    ensures Count(bs, IsVote) == 0 ==> Count(bs, IsApprove) == 0
  {
    if bs != [] { KindsPartition(bs[..|bs| - 1]); }
  }

  /**
   * Approved, rejected and other results add up to the worker count, which is at
   * most the number of listed workers. With votes present the decision needs the
   * configured quorum, or without one approvals from more than half of all
   * listed workers, those without a result included. Without votes it is Approved.
   */
  lemma {:induction false} TallyMeaning(bs: seq<Ballot>, quorum: Option<int>)
    requires Broken !in bs
    ensures TallyOf(bs, quorum).Some?
    ensures var t := TallyOf(bs, quorum).value;
            && t.approved + t.rejected + Count(bs, IsOther) == t.workerCount <= |bs|
            && (Count(bs, IsVote) == 0 ==> t.decision == Approved && t.approved == 0)
            && (Count(bs, IsVote) > 0 ==> t.aggregatedValue == Approvals(t.approved))
            && (Count(bs, IsVote) > 0 && quorum.None? ==> (t.decision == Approved <==> 2 * t.approved > |bs|))
            && (Count(bs, IsVote) > 0 && quorum.Some? ==> (t.decision == Approved <==> t.approved >= quorum.value))
  {
    KindsPartition(bs);
  }

  lemma {:induction false} CountSplit(a: seq<Ballot>, b: seq<Ballot>, p: Ballot -> bool)
    ensures Count(a + b, p) == Count(a, p) + Count(b, p)
  {
    if b == [] {
      assert a + b == a;
    } else {
      CountSplit(a, b[..|b| - 1], p);
      assert a + b == (a + b[..|b| - 1]) + [b[|b| - 1]];
      CountSnoc(a + b[..|b| - 1], b[|b| - 1], p);
    }
  }

  lemma {:induction false} SumSplit(a: seq<Ballot>, b: seq<Ballot>)
    ensures ExactSum(a + b) == ExactSum(a) + ExactSum(b) && Magnitude(a + b) == Magnitude(a) + Magnitude(b)
  {
    if b == [] {
      assert a + b == a;
    } else {
      SumSplit(a, b[..|b| - 1]);
      assert (a + b)[..|a + b| - 1] == a + b[..|b| - 1];
    }
  }

  lemma UpTo53BitsIsExact(x: int)
    requires -Lcg.TWO53 <= x <= Lcg.TWO53
    ensures Lcg.Fl(x) == x
  {
    if -Lcg.TWO53 < x < Lcg.TWO53 {
      Lcg.ExactWhenSmall(x);
    } else {
      assert Lcg.Ulp(Lcg.TWO53) == 2 * Lcg.Ulp(Lcg.TWO53 / 2);
    }
  }

  lemma {:induction false} SmallSumIsExact(bs: seq<Ballot>)
    requires Magnitude(bs) <= Lcg.TWO53
    ensures SumValues(bs) == ExactSum(bs) && Lcg.Abs(ExactSum(bs)) <= Magnitude(bs)
  {
    if bs != [] {
      SmallSumIsExact(bs[..|bs| - 1]);
      UpTo53BitsIsExact(ExactSum(bs));
      hide Lcg.Fl;
    }
  }

  /** One past that, only the last addition can round. */
  lemma {:induction false} NearSumIsRoundedOnce(bs: seq<Ballot>)
    requires Magnitude(bs) <= Lcg.TWO53 + 1
    ensures SumValues(bs) == Lcg.Fl(ExactSum(bs)) && Lcg.Abs(ExactSum(bs)) <= Magnitude(bs)
  {
    if Magnitude(bs) <= Lcg.TWO53 {
      SmallSumIsExact(bs);
      UpTo53BitsIsExact(ExactSum(bs));
    } else {
      var (front, last) := (bs[..|bs| - 1], bs[|bs| - 1]);
      if Magnitude(front) <= Lcg.TWO53 {
        SmallSumIsExact(front);
      } else {
        NearSumIsRoundedOnce(front);
        RoundsDown(ExactSum(front));
        UpTo53BitsIsExact(SumValues(front));
      }
      hide Lcg.Fl;
    }
  }

  lemma RoundsDown(x: int)
    requires -Lcg.TWO53 - 1 <= x <= Lcg.TWO53 + 1
    ensures -Lcg.TWO53 <= Lcg.Fl(x) <= Lcg.TWO53
  {
    if -Lcg.TWO53 <= x <= Lcg.TWO53 {
      UpTo53BitsIsExact(x);
    } else {
      assert Lcg.Ulp(Lcg.TWO53 + 1) == 2 * Lcg.Ulp((Lcg.TWO53 + 1) / 2) == 2;
    }
  }

  /** Whether the order of the values never matters: exactly for magnitudes up to 2^53 + 1. */
  lemma OrderOfValuesMattersBeyond(bound: nat)
    ensures (forall bs, cs :: multiset(bs) == multiset(cs) && Magnitude(bs) <= bound ==>
               SumValues(bs) == SumValues(cs)) <==>
            bound <= Lcg.TWO53 + 1
  {
    if bound <= Lcg.TWO53 + 1 {
      forall bs, cs | multiset(bs) == multiset(cs) && Magnitude(bs) <= bound
        ensures SumValues(bs) == SumValues(cs)
      {
        SameSums(bs, cs);
      }
    } else {
      var (large, one) := (NoVote(Lcg.TWO53), NoVote(1));
      LargeFirst();
      LargeLast();
      assert multiset([large, one, one]) == multiset([one, one, large]);
      assert Magnitude([large, one, one]) <= bound && SumValues([large, one, one]) != SumValues([one, one, large]);
    }
  }

  lemma SameSums(bs: seq<Ballot>, cs: seq<Ballot>)
    requires multiset(bs) == multiset(cs) && Magnitude(bs) <= Lcg.TWO53 + 1
    ensures SumValues(bs) == SumValues(cs)
  {
    CountPermutes(bs, cs, IsVote);
    NearSumIsRoundedOnce(bs);
    NearSumIsRoundedOnce(cs);
  }

  lemma LargeFirst()
    ensures var three := [NoVote(Lcg.TWO53), NoVote(1), NoVote(1)];
            SumValues(three) == Lcg.TWO53 && Magnitude(three) == Lcg.TWO53 + 2
  {
    var (two, three) := ([NoVote(Lcg.TWO53), NoVote(1)], [NoVote(Lcg.TWO53), NoVote(1), NoVote(1)]);
    OneTooMany();
    assert three[..2] == two;
    assert Lcg.Ulp(Lcg.TWO53 + 1) == 2 * Lcg.Ulp((Lcg.TWO53 + 1) / 2) == 2;
    assert Lcg.Fl(Lcg.TWO53 + 1) == Lcg.TWO53;
  }

  lemma LargeLast()
    ensures SumValues([NoVote(1), NoVote(1), NoVote(Lcg.TWO53)]) == Lcg.TWO53 + 2
  {
    var (one, two, three) := ([NoVote(1)], [NoVote(1), NoVote(1)], [NoVote(1), NoVote(1), NoVote(Lcg.TWO53)]);
    assert one[..0] == [] && two[..1] == one && three[..2] == two;
    assert Magnitude(one) == 1 && Magnitude(two) == 2 && ExactSum(one) == 1 && ExactSum(two) == 2;
    SmallSumIsExact(two);
    assert Lcg.Ulp(Lcg.TWO53 + 2) == 2 * Lcg.Ulp((Lcg.TWO53 + 2) / 2) == 2;
    assert Lcg.Fl(Lcg.TWO53 + 2) == Lcg.TWO53 + 2;
  }

  /**
   * Value sums are exact on all tallies whose magnitudes add up to at most `bound`
   * exactly if `bound` is within 2^53.
   */
  lemma SumsAreExactUpTo53Bits(bound: nat)
    ensures (forall bs :: Magnitude(bs) <= bound ==> SumValues(bs) == ExactSum(bs)) <==> bound <= 0x20_0000_0000_0000
  {
    if bound <= Lcg.TWO53 {
      forall bs | Magnitude(bs) <= bound
        ensures SumValues(bs) == ExactSum(bs)
      {
        SmallSumIsExact(bs);
      }
    } else {
      var two := [NoVote(Lcg.TWO53), NoVote(1)];
      OneTooMany();
      assert Magnitude(two) <= bound && SumValues(two) != ExactSum(two);
    }
  }

  lemma OneTooMany()
    ensures var two := [NoVote(Lcg.TWO53), NoVote(1)];
            Magnitude(two) == ExactSum(two) == Lcg.TWO53 + 1 && SumValues(two) == Lcg.TWO53
  {
    var (one, two) := ([NoVote(Lcg.TWO53)], [NoVote(Lcg.TWO53), NoVote(1)]);
    assert one[..0] == [] && two[..1] == one;
    UpTo53BitsIsExact(Lcg.TWO53);
    assert Lcg.Ulp(Lcg.TWO53 + 1) == 2 * Lcg.Ulp((Lcg.TWO53 + 1) / 2) == 2;
    assert Lcg.Fl(Lcg.TWO53 + 1) == Lcg.TWO53;
    hide Lcg.Fl;
    assert Magnitude(one) == ExactSum(one) == SumValues(one) == Lcg.TWO53;
  }

  lemma WithoutOne<T>(s: seq<T>, i: nat)
    requires i < |s|
    ensures multiset(s[..i] + s[i + 1..]) == multiset(s) - multiset{s[i]}
  {
    assert s == s[..i] + [s[i]] + s[i + 1..];
  }

  /** Where the last element of `bs` sits in a permutation of it, and the permutation without it. */
  lemma TakeOut<T>(bs: seq<T>, cs: seq<T>) returns (i: nat)
    requires bs != [] && multiset(bs) == multiset(cs)
    ensures i < |cs| && cs[i] == bs[|bs| - 1]
    ensures multiset(bs[..|bs| - 1]) == multiset(cs[..i] + cs[i + 1..])
  {
    var last := bs[|bs| - 1];
    assert last in multiset(cs);
    i :| 0 <= i < |cs| && cs[i] == last;
    WithoutOne(bs, |bs| - 1);
    WithoutOne(cs, i);
    assert bs[..|bs| - 1] + bs[|bs|..] == bs[..|bs| - 1];
  }

  lemma {:induction false} CountPermutes(bs: seq<Ballot>, cs: seq<Ballot>, p: Ballot -> bool)
    requires multiset(bs) == multiset(cs)
    ensures Count(bs, p) == Count(cs, p) && |bs| == |cs|
    ensures ExactSum(bs) == ExactSum(cs) && Magnitude(bs) == Magnitude(cs)
  {
    assert |multiset(bs)| == |bs| && |multiset(cs)| == |cs|;
    if bs != [] {
      var i := TakeOut(bs, cs);
      var (l, x, r) := (cs[..i], cs[i], cs[i + 1..]);
      CountPermutes(bs[..|bs| - 1], l + r, p);
      assert cs == l + [x] + r;
      CountSplit(l, r, p);
      CountSplit(l + [x], r, p);
      CountSnoc(l, x, p);
      SumSplit(l, r);
      SumSplit(l + [x], r);
      SumSplit(l, [x]);
    }
  }

  /**
   * Counts and decision do not depend on the order of the workers, and neither does
   * the aggregated value as long as there are votes or the values stay within 2^53 + 1.
   */
  lemma OrderDoesNotMatter(bs: seq<Ballot>, cs: seq<Ballot>, quorum: Option<int>)
    requires multiset(bs) == multiset(cs)
    ensures TallyOf(bs, quorum).Some? == TallyOf(cs, quorum).Some?
    ensures TallyOf(bs, quorum).Some? ==>
              TallyOf(cs, quorum).value.(aggregatedValue := Approvals(0))
              == TallyOf(bs, quorum).value.(aggregatedValue := Approvals(0))
    ensures Count(bs, IsVote) > 0 || Magnitude(bs) <= Lcg.TWO53 + 1 ==> TallyOf(bs, quorum) == TallyOf(cs, quorum)
  {
    assert Broken in multiset(bs) <==> Broken in multiset(cs);
    CountPermutes(bs, cs, IsApprove);
    CountPermutes(bs, cs, IsReject);
    CountPermutes(bs, cs, IsVote);
    CountPermutes(bs, cs, IsPresent);
    if Magnitude(bs) <= Lcg.TWO53 + 1 { SameSums(bs, cs); }
    hide Lcg.Fl, Count, SumValues, ExactSum, Magnitude;
  }

  lemma BallotsAppend(parse: Parser, results: Snapshot, a: seq<string>, b: seq<string>)
    ensures BallotsOf(parse, results, a + b) == BallotsOf(parse, results, a) + BallotsOf(parse, results, b)
  {
    hide BallotOf;
  }

  lemma MiddleOut<T>(l: seq<T>, x: T, r: seq<T>)
    ensures multiset(l + [x] + r) == multiset(l + r) + multiset{x}
  {
  }

  lemma {:induction false} BallotsPermute(parse: Parser, results: Snapshot, dids: seq<string>, others: seq<string>)
    requires multiset(dids) == multiset(others)
    ensures multiset(BallotsOf(parse, results, dids)) == multiset(BallotsOf(parse, results, others))
  {
    hide BallotOf, BallotsOf;
    assert |multiset(dids)| == |dids| && |multiset(others)| == |others|;
    if dids != [] {
      var i := TakeOut(dids, others);
      var (front, l, x, r) := (dids[..|dids| - 1], others[..i], [others[i]], others[i + 1..]);
      assert dids == front + x && others == l + x + r;
      BallotsPermute(parse, results, front, l + r);
      BallotsAppend(parse, results, front, x);
      BallotsAppend(parse, results, l, r);
      BallotsAppend(parse, results, l + x, r);
      BallotsAppend(parse, results, l, x);
      var (bl, bx, br) := (BallotsOf(parse, results, l), BallotsOf(parse, results, x), BallotsOf(parse, results, r));
      assert bx == [bx[0]];
      MiddleOut(bl, bx[0], br);
    }
  }

  lemma WorkerOrderDoesNotMatter(
    parse: Parser, results: Snapshot, dids: seq<string>, others: seq<string>, quorum: Option<int>)
    requires multiset(dids) == multiset(others)
    ensures var (t, u) := (TallyOf(BallotsOf(parse, results, dids), quorum),
                           TallyOf(BallotsOf(parse, results, others), quorum));
            && t.Some? == u.Some?
            && (t.Some? ==> t.value.(aggregatedValue := Approvals(0)) == u.value.(aggregatedValue := Approvals(0)))
            && (Count(BallotsOf(parse, results, dids), IsVote) > 0 ==> t == u)
            && (Magnitude(BallotsOf(parse, results, dids)) <= Lcg.TWO53 + 1 ==> t == u)
  {
    BallotsPermute(parse, results, dids, others);
    OrderDoesNotMatter(BallotsOf(parse, results, dids), BallotsOf(parse, results, others), quorum);
  }

  lemma CountUpdate(bs: seq<Ballot>, i: nat, b: Ballot, p: Ballot -> bool)
    requires i < |bs|
    ensures Count(bs[i := b], p) == Count(bs, p) - (if p(bs[i]) then 1 else 0) + (if p(b) then 1 else 0)
  {
    var (l, r) := (bs[..i], bs[i + 1..]);
    assert bs == l + [bs[i]] + r && bs[i := b] == l + [b] + r;
    CountSplit(l + [bs[i]], r, p);
    CountSplit(l + [b], r, p);
    CountSnoc(l, bs[i], p);
    CountSnoc(l, b, p);
  }

  /** Turning a rejection into an approval never turns an approved proposal down. */
  lemma ApprovalsAreMonotone(bs: seq<Ballot>, i: nat, quorum: Option<int>)
    requires i < |bs| && Broken !in bs && bs[i] == Reject
    requires TallyOf(bs, quorum).value.decision == Approved
    ensures TallyOf(bs[i := Approve], quorum).Some?
    ensures TallyOf(bs[i := Approve], quorum).value.decision == Approved
    ensures TallyOf(bs[i := Approve], quorum).value.approved == TallyOf(bs, quorum).value.approved + 1
  {
    CountUpdate(bs, i, Approve, IsApprove);
    CountUpdate(bs, i, Approve, IsVote);
  }

  /**
   * A late approval where a result was missing can turn an approved proposal
   * down, exactly when it is the first vote at all and one approval is not enough.
   */
  lemma FirstApprovalCanReject(bs: seq<Ballot>, i: nat, quorum: Option<int>)
    requires i < |bs| && Broken !in bs && bs[i] == Missing
    ensures TallyOf(bs, quorum).Some? && TallyOf(bs[i := Approve], quorum).Some?
    ensures (&& TallyOf(bs, quorum).value.decision == Approved
             && TallyOf(bs[i := Approve], quorum).value.decision == Rejected) <==>
            Count(bs, IsVote) == 0 && MinPositives(|bs|, quorum) > 1
  {
    KindsPartition(bs);
    CountUpdate(bs, i, Approve, IsApprove);
    CountUpdate(bs, i, Approve, IsVote);
  }

  /** A configured quorum approves whatever the ballots say exactly when it is not positive. */
  lemma QuorumZeroAlwaysApproves(q: int)
    ensures (forall bs :: TallyOf(bs, Some(q)).Some? ==> TallyOf(bs, Some(q)).value.decision == Approved) <==> q <= 0
  {
    if q > 0 {
      var bs := [Reject];
      assert bs[..0] == [];
      assert Count(bs, IsVote) == 1 && Count(bs, IsApprove) == 0;
      assert TallyOf(bs, Some(q)).Some? && TallyOf(bs, Some(q)).value.decision == Rejected;
    }
  }
}
