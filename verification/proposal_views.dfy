/** The paginated views and what a client that walks through the pages gets to see. */
module ProposalViews {
  import opened Wrappers
  import opened CoordinatorSpec
  import opened Settlement

  /** `limit as usize` keeps the low 32 bits on the contract's target. */
  const USIZE: nat := 0x1_0000_0000

  /** Stored identifiers not below `from`, in iteration order; `want` optionally fixes the state. */
  function Matching(s: State, order: seq<nat>, from: nat, want: Option<ProposalState>): seq<nat> {
    if order == [] then []
    else
      var rest := Matching(s, order[1..], from, want);
      if Matches(s, from, want, order[0]) then [order[0]] + rest else rest
  }

  predicate Matches(s: State, from: nat, want: Option<ProposalState>, id: nat) {
    id in s.proposals && id >= from && (want.Some? ==> s.proposals[id].state == want.value)
  }

  function LowWord(limit: nat): nat { limit % USIZE }

  function Take(ids: seq<nat>, limit: nat): seq<nat> {
    if LowWord(limit) <= |ids| then ids[..LowWord(limit)] else ids
  }

  /** The identifiers on the page `get_all_proposals` or `get_proposals_by_state` returns. */
  function PageIds(s: State, want: Option<ProposalState>, from: Option<nat>, limit: Option<nat>): seq<nat> {
    Take(Matching(s, s.order, if from.Some? then from.value else 0, want),
         if limit.Some? then limit.value else |s.order|)
  }

  /** `get_all_finalized_coordinations`: the page is cut before entries without a result are dropped. */
  function FinalizedPage(s: State, from: Option<nat>, limit: Option<nat>): seq<(nat, string)> {
    WithResult(s, PageIds(s, Some(Finalized), from, limit))
  }

  function WithResult(s: State, ids: seq<nat>): seq<(nat, string)> {
    if ids == [] then []
    else
      var rest := WithResult(s, ids[1..]);
      if ids[0] in s.proposals && s.proposals[ids[0]].finalizedResult.Some?
      then [(ids[0], s.proposals[ids[0]].finalizedResult.value)] + rest
      else rest
  }

  // ---------------------------------------------------------------- pages

  /** The matches are the stored identifiers from `from` on, in the wanted state, in storage order. */
  lemma {:induction false} MatchesInOrder(s: State, a: seq<nat>, b: seq<nat>, from: nat, want: Option<ProposalState>)
    ensures Matching(s, a + b, from, want) == Matching(s, a, from, want) + Matching(s, b, from, want)
    ensures |a| == 1 ==>
              Matching(s, a, from, want)
              == if a[0] in s.proposals && a[0] >= from && (want.None? || s.proposals[a[0]].state == want.value)
                 then a else []
  {
    if a == [] {
      assert a + b == b;
    } else {
      assert (a + b)[1..] == a[1..] + b;
      MatchesInOrder(s, a[1..], b, from, want);
    }
  }

  /** A page is the first matches, as many as the low 32 bits of the limit allow, or without a limit as are stored. */
  lemma PageIsTheBeginning(s: State, want: Option<ProposalState>, from: Option<nat>, limit: Option<nat>)
    ensures var all := Matching(s, s.order, if from.None? then 0 else from.value, want);
            var most := (if limit.None? then |s.order| else limit.value) % 0x1_0000_0000;
            PageIds(s, want, from, limit) == if most <= |all| then all[..most] else all
  {
  }

  /** A finalized page lists the identifiers of the page with their results, leaving out those without one. */
  lemma {:induction false} ResultsInOrder(s: State, a: seq<nat>, b: seq<nat>)
    ensures WithResult(s, a + b) == WithResult(s, a) + WithResult(s, b)
    ensures |a| == 1 ==>
              WithResult(s, a) == if a[0] in s.proposals && s.proposals[a[0]].finalizedResult.Some?
                                  then [(a[0], s.proposals[a[0]].finalizedResult.value)] else []
  {
    if a == [] {
      assert a + b == b;
    } else {
      assert (a + b)[1..] == a[1..] + b;
      ResultsInOrder(s, a[1..], b);
    }
  }

  ghost predicate Ascending(ids: seq<nat>) {
    forall i, j :: 0 <= i < j < |ids| ==> ids[i] < ids[j]
  }

  lemma {:induction false} MatchingMembers(s: State, order: seq<nat>, from: nat, want: Option<ProposalState>, id: nat)
    ensures id in Matching(s, order, from, want) <==> id in order && Matches(s, from, want, id)
  {
    if order != [] { MatchingMembers(s, order[1..], from, want, id); }
  }

  lemma AscendingCons(id: nat, rest: seq<nat>)
    requires Ascending(rest) && forall k :: 0 <= k < |rest| ==> id < rest[k]
    ensures Ascending([id] + rest)
  {
  }

  lemma {:induction false} MatchingAscends(s: State, order: seq<nat>, from: nat, want: Option<ProposalState>)
    requires Ascending(order)
    ensures Ascending(Matching(s, order, from, want))
  {
    if order != [] {
      MatchingAscends(s, order[1..], from, want);
      var rest := Matching(s, order[1..], from, want);
      forall k | 0 <= k < |rest|
        ensures order[0] < rest[k]
      {
        MatchingMembers(s, order[1..], from, want, rest[k]);
      }
      AscendingCons(order[0], rest);
    }
  }

  // ---------------------------------------------------------------- walking the pages

  /** Ask for a page, continue from one past its last identifier, stop at an empty page. */
  function Walk(s: State, want: Option<ProposalState>, from: nat, limit: nat): seq<nat>
    requires forall id :: id in s.proposals ==> id <= s.currentId
    decreases s.currentId + 1 - from
  {
    var page := PageIds(s, want, Some(from), Some(limit));
    if page == [] then []
    else
      MatchingMembers(s, s.order, from, want, page[|page| - 1]);
      page + Walk(s, want, page[|page| - 1] + 1, limit)
  }

  /** The identifiers from `from` on, in their order. */
  function Above(ids: seq<nat>, from: nat): (above: seq<nat>)
    ensures |above| <= |ids|
  {
    if ids == [] then [] else (if ids[0] >= from then [ids[0]] else []) + Above(ids[1..], from)
  }

  /** Starting later drops the matches before the start and no others. */
  lemma {:induction false} StartingLater(s: State, order: seq<nat>, from: nat, later: nat, want: Option<ProposalState>)
    requires from <= later
    ensures Matching(s, order, later, want) == Above(Matching(s, order, from, want), later)
  {
    if order != [] { StartingLater(s, order[1..], from, later, want); }
  }

  lemma {:induction false} AboveMembers(ids: seq<nat>, from: nat, id: nat)
    ensures id in Above(ids, from) <==> id in ids && id >= from
  {
    if ids != [] { AboveMembers(ids[1..], from, id); }
  }

  /** The first one kept stands before everything else that is kept. */
  lemma {:induction false} FirstAbove(ids: seq<nat>, from: nat, i: nat)
    requires i < |ids| && ids[i] >= from
    ensures Above(ids, from) != [] && exists k :: 0 <= k <= i && ids[k] == Above(ids, from)[0]
  {
    if ids[0] >= from {
      assert ids[0] == Above(ids, from)[0];
    } else {
      FirstAbove(ids[1..], from, i - 1);
      var k :| 0 <= k <= i - 1 && ids[1..][k] == Above(ids[1..], from)[0];
      assert ids[k + 1] == Above(ids, from)[0];
    }
  }

  lemma {:induction false} AllAbove(ids: seq<nat>, from: nat)
    requires forall i :: 0 <= i < |ids| ==> ids[i] >= from
    ensures Above(ids, from) == ids
  {
    if ids != [] { AllAbove(ids[1..], from); }
  }

  /** A cut after which everything is above, and before which everything is not. */
  lemma {:induction false} AboveTheCut(ids: seq<nat>, from: nat, m: nat)
    requires m <= |ids| && (forall i :: 0 <= i < m ==> ids[i] < from) && forall i :: m <= i < |ids| ==> ids[i] >= from
    ensures Above(ids, from) == ids[m..]
  {
    if m == 0 {
      AllAbove(ids, from);
    } else {
      AboveTheCut(ids[1..], from, m - 1);
    }
  }

  lemma {:induction false} MatchingIsDistinct(s: State, order: seq<nat>, from: nat, want: Option<ProposalState>)
    requires Distinct(order)
    ensures Distinct(Matching(s, order, from, want))
  {
    if order != [] {
      MatchingIsDistinct(s, order[1..], from, want);
      MatchingMembers(s, order[1..], from, want, order[0]);
    }
  }

  /** The `m`-th identifier is above all before it and below all after it. */
  ghost predicate CleanCut(ids: seq<nat>, m: nat)
    requires 0 < m <= |ids|
  {
    && (forall i :: 0 <= i < m - 1 ==> ids[i] < ids[m - 1])
    && (forall i :: m <= i < |ids| ==> ids[m - 1] < ids[i])
  }

  /** Pages of `size` end cleanly: after every multiple of it, and at the very end. */
  ghost predicate CleanPages(ids: seq<nat>, size: nat)
    requires size > 0
  {
    forall m :: 0 < m <= |ids| && PageEnd(|ids|, size, m) ==> CleanCut(ids, m)
  }

  predicate PageEnd(n: nat, size: nat, m: nat)
    requires size > 0
  {
    m % size == 0 || m == n
  }

  /** Whatever follows in a walk starts from the next identifier on. */
  lemma {:induction false} WalkStartsAt(s: State, want: Option<ProposalState>, from: nat, limit: nat, id: nat)
    requires forall x :: x in s.proposals ==> x <= s.currentId
    requires id in Walk(s, want, from, limit)
    ensures id >= from
    decreases s.currentId + 1 - from
  {
    var page := PageIds(s, want, Some(from), Some(limit));
    MatchingMembers(s, s.order, from, want, page[|page| - 1]);
    if id in page {
      MatchingMembers(s, s.order, from, want, id);
    } else {
      WalkStartsAt(s, want, page[|page| - 1] + 1, limit, id);
    }
  }

  /** Taking off the first page of clean pages. */
  lemma {:induction false} CleanPagesSplit(ids: seq<nat>, size: nat, p: nat)
    requires size > 0 && 0 < p <= |ids| && p == (if size < |ids| then size else |ids|)
    ensures CleanPages(ids, size) <==> CleanCut(ids, p) && CleanPages(ids[p..], size)
  {
    var rest := ids[p..];
    if CleanPages(ids, size) {
      assert PageEnd(|ids|, size, p);
      forall m | 0 < m <= |rest| && PageEnd(|rest|, size, m)
        ensures CleanCut(rest, m)
      {
        PageEndShifts(|ids|, size, m);
        assert CleanCut(ids, m + p);
      }
    }
    if CleanCut(ids, p) && CleanPages(rest, size) {
      forall m | 0 < m <= |ids| && PageEnd(|ids|, size, m)
        ensures CleanCut(ids, m)
      {
        PageEndNotBefore(|ids|, size, m);
        if m > p {
          PageEndShifts(|ids|, size, m - p);
          assert CleanCut(rest, m - p);
          CutGoesBack(ids, p, m);
        }
      }
    }
  }

  lemma CutGoesBack(ids: seq<nat>, p: nat, m: nat)
    requires 0 < p < m <= |ids| && CleanCut(ids, p) && CleanCut(ids[p..], m - p)
    ensures CleanCut(ids, m)
  {
    var rest := ids[p..];
    assert forall i :: 0 <= i < |rest| ==> rest[i] == ids[i + p];
    forall i | 0 <= i < m - 1
      ensures ids[i] < ids[m - 1]
    {
      if i >= p { assert rest[i - p] < rest[m - p - 1]; } else { assert ids[i] <= ids[p - 1] < ids[m - 1]; }
    }
    forall i | m <= i < |ids|
      ensures ids[m - 1] < ids[i]
    {
      assert rest[m - p - 1] < rest[i - p];
    }
  }

  lemma PageEndShifts(n: nat, size: nat, m: nat)
    requires 0 < size && 0 < m && size + m <= n
    ensures PageEnd(n - size, size, m) <==> PageEnd(n, size, m + size)
  {
    assert (m + size) % size == m % size by { ModShift(m, size); }
  }

  lemma ModShift(m: nat, size: nat)
    requires size > 0
    ensures (m + size) % size == m % size
  {
    var (q, r, q', r') := (m / size, m % size, (m + size) / size, (m + size) % size);
    assert m == size * q + r && m + size == size * q' + r';
    assert size * (q + 1) == size * q + size;
    assert size * (q' - (q + 1)) == r - r' by { assert size * (q' - (q + 1)) == size * q' - size * (q + 1); }
    assert size * (q + 1 - q') == r' - r by { assert size * (q + 1 - q') == size * (q + 1) - size * q'; }
    if q' > q + 1 { AtLeast(size, q' - (q + 1)); }
    if q' < q + 1 { AtLeast(size, q + 1 - q'); }
  }

  lemma AtLeast(size: nat, k: nat)
    requires k > 0
    ensures size * k >= size
  {
  }

  lemma PageEndNotBefore(n: nat, size: nat, m: nat)
    requires size > 0 && 0 < m <= n && PageEnd(n, size, m)
    ensures m >= if size < n then size else n
  {
  }

  /**
   * In any duplicate-free order and for any limit, walking the pages lists every
   * match once and in order if and only if there is nothing to list, or the
   * limit's low word is positive and each page ends on a match that is above all
   * earlier and below all later ones.
   */
  lemma {:induction false} WalkIsExactly(s: State, want: Option<ProposalState>, from: nat, limit: nat)
    requires forall id :: id in s.proposals ==> id <= s.currentId
    requires Distinct(s.order)
    ensures var all := Matching(s, s.order, from, want);
            Walk(s, want, from, limit) == all <==> all == [] || (LowWord(limit) > 0 && CleanPages(all, LowWord(limit)))
    decreases s.currentId + 1 - from
  {
    hide LowWord, PageIds, Walk, Matching, Distinct, CleanPages, CleanCut, Above;
    var (all, size) := (Matching(s, s.order, from, want), LowWord(limit));
    WalkUnfolds(s, want, from, limit);
    if all != [] && size > 0 {
      var p := if size < |all| then size else |all|;
      var next := all[p - 1] + 1;
      StartingLater(s, s.order, from, next, want);
      MatchingIsDistinct(s, s.order, from, want);
      WalkIsExactly(s, want, next, limit);
      CleanPagesSplit(all, size, p);
      SamePrefix(all, p, Walk(s, want, next, limit));
      NoPages(size);
      if CleanCut(all, p) { CutIsRest(all, p); } else { UncleanCutShows(s, want, from, limit, p); }
    }
  }

  lemma SamePrefix(all: seq<nat>, p: nat, tail: seq<nat>)
    requires p <= |all|
    ensures all[..p] + tail == all <==> tail == all[p..]
  {
    assert all == all[..p] + all[p..];
    if all[..p] + tail == all { assert tail == (all[..p] + tail)[p..]; }
  }

  lemma NoPages(size: nat)
    requires size > 0
    ensures CleanPages([], size)
  {
  }

  lemma CutIsRest(all: seq<nat>, p: nat)
    requires 0 < p <= |all| && CleanCut(all, p)
    ensures Above(all, all[p - 1] + 1) == all[p..]
  {
    hide Above;
    AboveTheCut(all, all[p - 1] + 1, p);
  }

  /** A walk takes one page and goes on after its last identifier. */
  lemma {:induction false} WalkUnfolds(s: State, want: Option<ProposalState>, from: nat, limit: nat)
    requires forall id :: id in s.proposals ==> id <= s.currentId
    ensures var (all, size) := (Matching(s, s.order, from, want), LowWord(limit));
            if all == [] || size == 0 then Walk(s, want, from, limit) == []
            else
              var p := if size < |all| then size else |all|;
              && from <= all[p - 1] <= s.currentId
              && Walk(s, want, from, limit) == all[..p] + Walk(s, want, all[p - 1] + 1, limit)
  {
    hide LowWord, Matching;
    var (all, size) := (Matching(s, s.order, from, want), LowWord(limit));
    if all != [] && size > 0 {
      MatchingMembers(s, s.order, from, want, all[(if size < |all| then size else |all|) - 1]);
    }
  }

  /** If a page does not end cleanly, what follows it is not the rest of the matches. */
  lemma {:induction false} UncleanCutShows(s: State, want: Option<ProposalState>, from: nat, limit: nat, p: nat)
    requires forall id :: id in s.proposals ==> id <= s.currentId
    requires var all := Matching(s, s.order, from, want);
             0 < p <= |all| && Distinct(all) && !CleanCut(all, p) && all[p - 1] + 1 >= from
    requires LowWord(limit) > 0
    ensures var all := Matching(s, s.order, from, want); Walk(s, want, all[p - 1] + 1, limit) != all[p..]
  {
    var all := Matching(s, s.order, from, want);
    var next := all[p - 1] + 1;
    var tail := Walk(s, want, next, limit);
    if i :| p <= i < |all| && all[i] <= all[p - 1] {
      if tail == all[p..] {
        assert all[p..][i - p] in tail;
        WalkStartsAt(s, want, next, limit, all[i]);
      }
    } else {
      var i :| 0 <= i < p - 1 && all[i] >= all[p - 1];
      assert all[i] >= next;
      StartingLater(s, s.order, from, next, want);
      FirstAbove(all, next, i);
      var k :| 0 <= k <= i && all[k] == Above(all, next)[0];
      if tail != [] {
        assert tail[0] == all[k];
        assert p < |all| ==> all[p..][0] == all[p] != all[k];
      } else if p == |all| {
        EmptyWalk(s, want, next, limit);
      }
    }
  }

  lemma EmptyWalk(s: State, want: Option<ProposalState>, from: nat, limit: nat)
    requires forall id :: id in s.proposals ==> id <= s.currentId
    requires Walk(s, want, from, limit) == [] && Matching(s, s.order, from, want) != []
    ensures LowWord(limit) == 0
  {
  }

  /**
   * In ascending order, the walk is exact exactly when the limit keeps a nonzero low
   * word, or there is nothing to list.
   */
  lemma WalkIsExact(s: State, want: Option<ProposalState>, from: nat, limit: nat)
    requires forall id :: id in s.proposals ==> id <= s.currentId
    requires Ascending(s.order)
    ensures Walk(s, want, from, limit) == Matching(s, s.order, from, want) <==>
            LowWord(limit) > 0 || Matching(s, s.order, from, want) == []
  {
    WalkIsExactly(s, want, from, limit);
    MatchingAscends(s, s.order, from, want);
  }

  /** Whatever the iteration order, pages of one identifier each come out ascending. */
  lemma {:induction false} SinglesAscend(s: State, want: Option<ProposalState>, from: nat)
    requires forall id :: id in s.proposals ==> id <= s.currentId
    ensures Ascending(Walk(s, want, from, 1))
    ensures forall id :: id in Walk(s, want, from, 1) ==> id >= from
    decreases s.currentId + 1 - from
  {
    var page := PageIds(s, want, Some(from), Some(1));
    if page != [] {
      MatchingMembers(s, s.order, from, want, page[0]);
      SinglesAscend(s, want, page[0] + 1);
      var rest := Walk(s, want, page[0] + 1, 1);
      assert forall k :: 0 <= k < |rest| ==> rest[k] in rest;
      AscendingCons(page[0], rest);
      assert page == [page[0]];
    }
  }

  /** So a walk with a limit of one is exact precisely when the matching identifiers are stored in ascending order. */
  lemma {:induction false} SinglesExact(s: State, want: Option<ProposalState>, from: nat)
    requires forall id :: id in s.proposals ==> id <= s.currentId
    ensures Walk(s, want, from, 1) == Matching(s, s.order, from, want) <==> Ascending(Matching(s, s.order, from, want))
    decreases s.currentId + 1 - from
  {
    var all := Matching(s, s.order, from, want);
    SinglesAscend(s, want, from);
    if Ascending(all) && all != [] {
      MatchingMembers(s, s.order, from, want, all[0]);
      RestOfAscending(s, s.order, from, want);
      SinglesExact(s, want, all[0] + 1);
      assert all == all[..1] + all[1..];
    }
  }

  lemma {:induction false} RestOfAscending(s: State, order: seq<nat>, from: nat, want: Option<ProposalState>)
    requires var all := Matching(s, order, from, want); all != [] && Ascending(all)
    ensures var all := Matching(s, order, from, want); Matching(s, order, all[0] + 1, want) == all[1..]
  {
    var all, rest := Matching(s, order, from, want), order[1..];
    if Matches(s, from, want, order[0]) {
      assert forall k :: 0 <= k < |all[1..]| ==> all[1..][k] > all[0];
      SameMatches(s, rest, from, order[0] + 1, want);
    } else {
      MatchingMembers(s, order, from, want, all[0]);
      RestOfAscending(s, rest, from, want);
    }
  }

  /** Raising `from` drops nothing when every match is already above it. */
  lemma {:induction false} SameMatches(s: State, order: seq<nat>, from: nat, from': nat, want: Option<ProposalState>)
    requires from <= from'
    requires forall k :: 0 <= k < |Matching(s, order, from, want)| ==> Matching(s, order, from, want)[k] >= from'
    ensures Matching(s, order, from, want) == Matching(s, order, from', want)
  {
    if order != [] {
      var all, rest := Matching(s, order, from, want), Matching(s, order[1..], from, want);
      if Matches(s, from, want, order[0]) { assert all[0] == order[0] && rest == all[1..]; }
      SameMatches(s, order[1..], from, from', want);
    }
  }

  // ---------------------------------------------------------------- which runs keep the order

  /** The key vector is 1, 2, ..., `currentId`, and these are the stored identifiers. */
  ghost predicate Numbered(c: State) {
    && |c.order| == c.currentId
    && (forall k :: 0 <= k < |c.order| ==> c.order[k] == k + 1)
    && (forall id :: id in c.proposals <==> 1 <= id <= c.currentId)
  }

  /** Without clears, identifiers are stored without gaps in ascending order. */
  lemma {:induction false} OrderWithoutClears(hash: Hasher, owner: AccountId, run: seq<Event>, n: nat)
    requires n <= |run|
    requires forall k :: 0 <= k < n ==> !run[k].Clears?
    ensures Numbered(ContractAt(hash, owner, run, n))
  {
    if n > 0 {
      OrderWithoutClears(hash, owner, run, n - 1);
      hide At, Numbered, Step;
      NumberedStep(hash, At(hash, owner, run, n - 1), run[n - 1]);
      NextWorld(hash, owner, run, n - 1);
    }
  }

  lemma NumberedStep(hash: Hasher, w: World, e: Event)
    requires Numbered(w.contract) && !e.Clears?
    ensures Numbered(Step(hash, w, e).contract)
  {
    OrderStep(hash, w, e);
    hide Step;
  }

  /** The key vector lists the stored identifiers, each once, all handed out. */
  ghost predicate KeysListed(c: State) {
    && Distinct(c.order) && (forall id :: id in c.order <==> id in c.proposals)
    && forall id :: id in c.proposals ==> id <= c.currentId
  }

  lemma SwapRemoveDrops(order: seq<nat>, id: nat)
    requires Distinct(order) && id in order
    ensures Distinct(SwapRemove(order, id))
    ensures forall x :: x in SwapRemove(order, id) <==> x in order && x != id
  {
    SwapRemoveMovesLast(order, id);
    var (gone, k, last) := (SwapRemove(order, id), IndexOf(order, id), |order| - 1);
    hide SwapRemove, IndexOf;
    forall x
      ensures x in gone <==> x in order && x != id
    {
      if x in order && x != id {
        var i :| 0 <= i <= last && order[i] == x;
        assert gone[if i == last then k else i] == x;
      }
    }
  }

  lemma StepListsKeys(hash: Hasher, w: World, e: Event)
    requires KeysListed(w.contract)
    ensures KeysListed(Step(hash, w, e).contract)
  {
    if e.Clears? && e.id in w.contract.order { SwapRemoveDrops(w.contract.order, e.id); }
    hide SwapRemove;
  }

  /** In every run, cleared or not. */
  lemma {:induction false} KeysAreListed(hash: Hasher, owner: AccountId, run: seq<Event>, n: nat)
    requires n <= |run|
    ensures KeysListed(ContractAt(hash, owner, run, n))
  {
    if n > 0 {
      KeysAreListed(hash, owner, run, n - 1);
      hide At, KeysListed, Step;
      StepListsKeys(hash, At(hash, owner, run, n - 1), run[n - 1]);
      NextWorld(hash, owner, run, n - 1);
    }
  }

  /** So in every reachable state the walk is exact exactly on clean pages. */
  lemma ReachableWalkIsExactly(hash: Hasher, owner: AccountId, run: seq<Event>, n: nat,
                               want: Option<ProposalState>, from: nat, limit: nat)
    requires n <= |run|
    ensures var c := ContractAt(hash, owner, run, n);
            var all := Matching(c, c.order, from, want);
            && (forall id :: id in c.proposals ==> id <= c.currentId)
            && (Walk(c, want, from, limit) == all <==>
                 all == [] || (LowWord(limit) > 0 && CleanPages(all, LowWord(limit))))
  {
    KeysAreListed(hash, owner, run, n);
    hide At;
    WalkIsExactly(ContractAt(hash, owner, run, n), want, from, limit);
  }

  lemma NextWorld(hash: Hasher, owner: AccountId, run: seq<Event>, n: nat)
    requires n < |run|
    ensures At(hash, owner, run, n + 1) == Step(hash, At(hash, owner, run, n), run[n])
  {
    hide Step;
  }

  /** Only starting a proposal and clearing one touch the key vector. */
  lemma OrderStep(hash: Hasher, w: World, e: Event)
    requires !e.Clears? && forall id :: id in w.contract.proposals ==> id <= w.contract.currentId
    requires forall id :: id in w.contract.proposals ==> id >= 1
    ensures var (c, d) := (w.contract, Step(hash, w, e).contract);
            || (d.order == c.order && d.currentId == c.currentId && d.proposals.Keys == c.proposals.Keys)
            || (d.order == c.order + [c.currentId + 1] && d.currentId == c.currentId + 1
                && d.proposals.Keys == c.proposals.Keys + {c.currentId + 1})
  {
  }

  /** The first pending entry an agent sees is the oldest pending proposal, and there is one if any is pending. */
  lemma OldestPendingFirst(hash: Hasher, owner: AccountId, run: seq<Event>, n: nat)
    requires n <= |run|
    requires forall k :: 0 <= k < n ==> !run[k].Clears?
    requires |ContractAt(hash, owner, run, n).order| < USIZE
    ensures var c := ContractAt(hash, owner, run, n);
            var pending := PageIds(c, Some(Created), None, None);
            && (pending == [] <==> forall id :: id in c.proposals ==> c.proposals[id].state != Created)
            && (pending != [] ==>
                  && pending[0] in c.proposals && c.proposals[pending[0]].state == Created
                  && forall id :: id in c.proposals && c.proposals[id].state == Created ==> pending[0] <= id)
  {
    hide At;
    var c := ContractAt(hash, owner, run, n);
    OrderWithoutClears(hash, owner, run, n);
    var all := Matching(c, c.order, 0, Some(Created));
    MatchingAscends(c, c.order, 0, Some(Created));
    MatchingIsShort(c, c.order, 0, Some(Created));
    assert PageIds(c, Some(Created), None, None) == all;
    forall id
      ensures id in all <==> id in c.proposals && c.proposals[id].state == Created
    {
      MatchingMembers(c, c.order, 0, Some(Created), id);
      if id in c.proposals { assert c.order[id - 1] == id; }
    }
    if all != [] { assert all[0] in all; }
  }

  lemma {:induction false} MatchingIsShort(s: State, order: seq<nat>, from: nat, want: Option<ProposalState>)
    ensures |Matching(s, order, from, want)| <= |order|
  {
    if order != [] { MatchingIsShort(s, order[1..], from, want); }
  }

  /**
   * In every reachable state, cleared or not, a finalized page never comes up
   * short: it holds one entry, with its result, for every identifier on the page.
   */
  lemma FinalizedPageIsFull(hash: Hasher, owner: AccountId, run: seq<Event>, n: nat, from: Option<nat>,
                            limit: Option<nat>)
    requires n <= |run|
    ensures var c := ContractAt(hash, owner, run, n);
            var (page, ids) := (FinalizedPage(c, from, limit), PageIds(c, Some(Finalized), from, limit));
            && |page| == |ids|
            && forall k :: 0 <= k < |page| ==>
                 && page[k].0 == ids[k] && ids[k] in c.proposals && c.proposals[ids[k]].state == Finalized
                 && c.proposals[ids[k]].finalizedResult == Some(page[k].1)
  {
    hide At;
    var c := ContractAt(hash, owner, run, n);
    var ids := PageIds(c, Some(Finalized), from, limit);
    forall k | 0 <= k < |ids|
      ensures ids[k] in c.proposals && c.proposals[ids[k]].state == Finalized
      ensures c.proposals[ids[k]].finalizedResult.Some?
    {
      MatchingMembers(c, c.order, if from.Some? then from.value else 0, Some(Finalized), ids[k]);
      RunIsConsistent(hash, owner, run, n, ids[k]);
    }
    NothingDropped(c, ids);
  }

  lemma {:induction false} NothingDropped(s: State, ids: seq<nat>)
    requires forall k :: 0 <= k < |ids| ==> ids[k] in s.proposals && s.proposals[ids[k]].finalizedResult.Some?
    ensures |WithResult(s, ids)| == |ids|
    ensures forall k :: 0 <= k < |ids| ==>
              WithResult(s, ids)[k] == (ids[k], s.proposals[ids[k]].finalizedResult.value)
  {
    if ids != [] { NothingDropped(s, ids[1..]); }
  }

  // ---------------------------------------------------------------- what clearing does to the order

  /** Clearing keeps an ascending key vector ascending exactly when it hits one of its last two keys. */
  lemma ClearKeepsAscending(order: seq<nat>, id: nat)
    requires Ascending(order) && id in order
    ensures Ascending(SwapRemove(order, id)) <==> IndexOf(order, id) + 2 >= |order|
  {
    SwapRemoveMovesLast(order, id);
    var (gone, k, n) := (SwapRemove(order, id), IndexOf(order, id), |order|);
    hide SwapRemove, IndexOf;
    if k + 2 < n { assert gone[k] == order[n - 1] && gone[k + 1] == order[k + 1]; }
  }

  predicate IsPending(s: State, id: nat) { id in s.proposals && s.proposals[id].state == Created }

  /** What an agent asks for: the pending entries, without a start or a limit. */
  function PendingPage(s: State): seq<nat> { PageIds(s, Some(Created), None, None) }

  /** The agent, which takes the first entry, gets the oldest pending proposal. */
  ghost predicate OldestFirst(s: State) {
    PendingPage(s) != [] ==> forall id :: IsPending(s, id) ==> PendingPage(s)[0] <= id
  }

  lemma {:induction false} FirstMatch(s: State, order: seq<nat>, p: nat)
    requires p < |order| && IsPending(s, order[p])
    requires forall q :: 0 <= q < p ==> !IsPending(s, order[q])
    ensures var all := Matching(s, order, 0, Some(Created)); all != [] && all[0] == order[p]
  {
    if p > 0 { FirstMatch(s, order[1..], p - 1); }
  }

  /** Where the first pending entry of a stored key vector comes from. */
  lemma FirstPending(s: State, p: nat)
    requires |s.order| < USIZE && p < |s.order| && IsPending(s, s.order[p])
    requires forall q :: 0 <= q < p ==> !IsPending(s, s.order[q])
    ensures PendingPage(s) != [] && PendingPage(s)[0] == s.order[p]
  {
    FirstMatch(s, s.order, p);
    MatchingIsShort(s, s.order, 0, Some(Created));
  }

  lemma NoPending(s: State)
    requires |s.order| < USIZE && forall q :: 0 <= q < |s.order| ==> !IsPending(s, s.order[q])
    ensures PendingPage(s) == []
  {
    var all := Matching(s, s.order, 0, Some(Created));
    if all != [] { MatchingMembers(s, s.order, 0, Some(Created), all[0]); }
  }

  /** The first pending place from `p` on, or the end. */
  ghost function NextPending(s: State, p: nat): (q: nat)
    requires p <= |s.order|
    ensures p <= q <= |s.order| && (q < |s.order| ==> IsPending(s, s.order[q]))
    ensures forall i :: p <= i < q ==> !IsPending(s, s.order[i])
    decreases |s.order| - p
  {
    if p == |s.order| || IsPending(s, s.order[p]) then p else NextPending(s, p + 1)
  }

  /** `d` is `s` with the key `id` at place `k` taken out and the last key put in its place. */
  ghost predicate Cleared(s: State, d: State, id: nat, k: nat) {
    && Distinct(s.order) && (forall x :: x in s.proposals ==> x in s.order)
    && k < |s.order| && s.order[k] == id && |d.order| == |s.order| - 1
    && (forall i :: 0 <= i < |d.order| ==> d.order[i] == if i == k then s.order[|d.order|] else s.order[i])
    && (forall x :: IsPending(d, x) <==> IsPending(s, x) && x != id)
  }

  lemma ClearedState(s: State, id: nat)
    requires Distinct(s.order) && id in s.order && forall x :: x in s.proposals ==> x in s.order
    ensures ClearProposal(s, s.owner, id).Some?
    ensures Cleared(s, ClearProposal(s, s.owner, id).value, id, IndexOf(s.order, id))
  {
    SwapRemoveMovesLast(s.order, id);
    hide SwapRemove, Distinct;
  }

  lemma SwapRemoveMovesLast(order: seq<nat>, id: nat)
    requires id in order
    ensures var (gone, k, last) := (SwapRemove(order, id), IndexOf(order, id), |order| - 1);
            |gone| == last && forall i :: 0 <= i < last ==> gone[i] == if i == k then order[last] else order[i]
  {
  }

  /**
   * The place whose pending key comes first once place `k` is cleared: the first
   * pending place before `k`; else the last, if it is pending and so moves to `k`;
   * else the next pending place after `k`. `|s.order|` if none is left.
   */
  ghost function ComesFirst(s: State, k: nat): (p: nat)
    requires k < |s.order|
    ensures p <= |s.order| && p != k && (p < |s.order| ==> IsPending(s, s.order[p]))
  {
    var (f, last) := (NextPending(s, 0), |s.order| - 1);
    if f < k then f else if k < last && IsPending(s, s.order[last]) then last else NextPending(s, k + 1)
  }

  lemma FirstAfterClear(s: State, d: State, id: nat, k: nat)
    requires Cleared(s, d, id, k) && |s.order| < USIZE
    ensures var p := ComesFirst(s, k);
            if p < |s.order| then PendingPage(d) != [] && PendingPage(d)[0] == s.order[p] else PendingPage(d) == []
  {
    var (p, last) := (ComesFirst(s, k), |s.order| - 1);
    hide PageIds;
    OthersStayPending(s, d, id, k);
    if p == |s.order| {
      NoPending(d);
    } else if p == last && k < last {
      FirstPending(d, k);
    } else {
      FirstPending(d, p);
    }
  }

  /** The other places keep what they have; place `k` gets the last key. */
  lemma OthersStayPending(s: State, d: State, id: nat, k: nat)
    requires Cleared(s, d, id, k)
    ensures forall i :: 0 <= i < |d.order| && i != k ==> (IsPending(d, d.order[i]) <==> IsPending(s, s.order[i]))
    ensures k < |d.order| ==> (IsPending(d, d.order[k]) <==> IsPending(s, s.order[|d.order|]))
  {
    forall i | 0 <= i < |s.order| && i != k
      ensures s.order[i] != id
    {
      assert if i < k then s.order[i] != s.order[k] else s.order[k] != s.order[i];
    }
  }

  /**
   * After a clear at place `k` of any duplicate-free order, disturbed before or
   * not, the agent passes over an older pending proposal exactly when some other
   * pending one left is below the one that now comes first.
   */
  lemma ClearHidesOldest(s: State, id: nat)
    requires Distinct(s.order) && |s.order| < USIZE && id in s.order
    requires forall x :: x in s.proposals ==> x in s.order
    ensures ClearProposal(s, s.owner, id).Some?
    ensures var (d, k) := (ClearProposal(s, s.owner, id).value, IndexOf(s.order, id));
            var p := ComesFirst(s, k);
            !OldestFirst(d) <==>
            && p < |s.order|
            && exists i :: 0 <= i < |s.order| && i != k && IsPending(s, s.order[i]) && s.order[i] < s.order[p]
  {
    var (d, k) := (ClearProposal(s, s.owner, id).value, IndexOf(s.order, id));
    ClearedState(s, id);
    hide SwapRemove, IndexOf, ClearProposal, PageIds;
    FirstAfterClear(s, d, id, k);
    hide ComesFirst;
    var p := ComesFirst(s, k);
    if x :| IsPending(d, x) && p < |s.order| && x < s.order[p] {
      var i :| 0 <= i < |s.order| && s.order[i] == x;
      assert i != k;
    }
    if i :| 0 <= i < |s.order| && i != k && IsPending(s, s.order[i]) && p < |s.order| && s.order[i] < s.order[p] {
      assert s.order[i] != id;
      assert IsPending(d, s.order[i]);
    }
  }

  /** The last key is pending, no key before `k` is, and one strictly between is. */
  ghost predicate Overtakes(s: State, k: nat) {
    && k < |s.order| && IsPending(s, s.order[|s.order| - 1])
    && (forall i :: 0 <= i < k ==> !IsPending(s, s.order[i]))
    && exists i :: k < i < |s.order| - 1 && IsPending(s, s.order[i])
  }

  /** From an ascending order that is when the last key overtakes. */
  lemma FirstClearHidesOldest(s: State, id: nat)
    requires Ascending(s.order) && |s.order| < USIZE && id in s.order
    requires forall x :: x in s.proposals ==> x in s.order
    ensures ClearProposal(s, s.owner, id).Some?
    ensures !OldestFirst(ClearProposal(s, s.owner, id).value) <==> Overtakes(s, IndexOf(s.order, id))
  {
    ClearHidesOldest(s, id);
    hide SwapRemove, ClearProposal, PageIds, OldestFirst, IsPending, Overtakes, ComesFirst, Ascending;
    OnlyTheLastOvertakes(s, IndexOf(s.order, id));
  }

  lemma OnlyTheLastOvertakes(s: State, k: nat)
    requires Ascending(s.order) && k < |s.order|
    ensures var p := ComesFirst(s, k);
            Overtakes(s, k) <==>
            && p < |s.order|
            && exists i :: 0 <= i < |s.order| && i != k && IsPending(s, s.order[i]) && s.order[i] < s.order[p]
  {
    var (p, f, last) := (ComesFirst(s, k), NextPending(s, 0), |s.order| - 1);
    hide IsPending, NextPending;
    if i :| 0 <= i < |s.order| && i != k && IsPending(s, s.order[i]) && p < |s.order| && s.order[i] < s.order[p] {
      assert i < p;
    }
    if f >= k && k < last && IsPending(s, s.order[last]) {
      if i :| k < i < last && IsPending(s, s.order[i]) { assert s.order[i] < s.order[p]; }
    }
  }

  // ---------------------------------------------------------------- such a run

  /** A manifesto, three proposals, and the owner clearing the first. */
  function ClearingRun(owner: AccountId): seq<Event> {
    [SetsManifesto(owner, "")] + [Starts(owner, "", 0, 0, 1, 0)] + [Starts(owner, "", 0, 0, 2, 0)]
    + [Starts(owner, "", 0, 0, 3, 0)] + [Clears(owner, 1)]
  }

  /** A start below the limits is stored in Created; the others stay. */
  lemma StartIsStored(hash: Hasher, w: World, e: Event)
    requires e.Starts? && w.contract.manifesto.Some? && e.taskConfig == "" && w.contract.currentId < U64_MAX
    requires e.yieldId !in w.promises
    ensures var (c, d) := (w.contract, Step(hash, w, e).contract);
            && d.manifesto.Some? && d.owner == c.owner && d.currentId == c.currentId + 1
            && Step(hash, w, e).promises.Keys == w.promises.Keys + {e.yieldId}
            && d.proposals.Keys == c.proposals.Keys + {d.currentId}
            && IsPending(d, d.currentId)
            && (forall id :: id in c.proposals && id != d.currentId ==> d.proposals[id] == c.proposals[id])
  {
  }

  lemma ThreeStarted(hash: Hasher, owner: AccountId)
    ensures var c := ContractAt(hash, owner, ClearingRun(owner), 4);
            && c.owner == owner && c.currentId == 3 && Numbered(c)
            && IsPending(c, 1) && IsPending(c, 2) && IsPending(c, 3)
  {
    hide At, Step, IsPending, Numbered;
    var run := ClearingRun(owner);
    OrderWithoutClears(hash, owner, run, 4);
    FirstWorld(hash, owner, run);
    NextWorld(hash, owner, run, 0);
    NextWorld(hash, owner, run, 1);
    NextWorld(hash, owner, run, 2);
    NextWorld(hash, owner, run, 3);
    FirstManifesto(hash, owner);
    StartIsStored(hash, At(hash, owner, run, 1), run[1]);
    StartIsStored(hash, At(hash, owner, run, 2), run[2]);
    StartIsStored(hash, At(hash, owner, run, 3), run[3]);
    StillPending(ContractAt(hash, owner, run, 2), ContractAt(hash, owner, run, 3), 1);
    StillPending(ContractAt(hash, owner, run, 3), ContractAt(hash, owner, run, 4), 1);
    StillPending(ContractAt(hash, owner, run, 3), ContractAt(hash, owner, run, 4), 2);
  }

  lemma FirstWorld(hash: Hasher, owner: AccountId, run: seq<Event>)
    ensures At(hash, owner, run, 0) == World(InitialState(owner), map[])
  {
  }

  lemma FirstManifesto(hash: Hasher, owner: AccountId)
    ensures var w := Step(hash, World(InitialState(owner), map[]), SetsManifesto(owner, ""));
            w == World(InitialState(owner).(manifesto := Some("")), map[])
  {
  }

  lemma StillPending(c: State, d: State, id: nat)
    requires IsPending(c, id) && id in d.proposals && d.proposals[id] == c.proposals[id]
    ensures IsPending(d, id)
  {
  }

  /**
   * In this run the agent is offered proposal 3 before the pending proposal 2,
   * and a client paging one by one never sees proposal 2 at all.
   */
  lemma ClearedWalkSkips(hash: Hasher, owner: AccountId)
    ensures var c := ContractAt(hash, owner, ClearingRun(owner), 5);
            && IsPending(c, 2) && IsPending(c, 3) && PendingPage(c) == [3, 2]
            && (forall id :: id in c.proposals ==> id <= c.currentId) && Walk(c, None, 0, 1) == [3]
  {
    var run := ClearingRun(owner);
    var c := ContractAt(hash, owner, run, 4);
    ThreeStarted(hash, owner);
    NextWorld(hash, owner, run, 4);
    var d := ContractAt(hash, owner, run, 5);
    assert d == ClearProposal(c, owner, 1).value;
    hide At, Step, ContractAt, ClearingRun;
    assert c.order == [1, 2, 3];
    SwapRemoveMovesLast(c.order, 1);
    assert IndexOf([1, 2, 3], 1) == 0;
    assert d.order == SwapRemove(c.order, 1) == [3, 2];
    hide SwapRemove, IndexOf;
    TwoKeysListed(d);
  }

  lemma TwoKeysListed(s: State)
    requires s.order == [3, 2] && s.currentId == 3 && s.proposals.Keys == {2, 3} && IsPending(s, 2) && IsPending(s, 3)
    ensures PendingPage(s) == [3, 2] && Walk(s, None, 0, 1) == [3]
  {
    assert [3, 2][1..] == [2] && [2][1..] == [];
    assert Matching(s, [2], 0, Some(Created)) == [2];
    assert Matching(s, [3, 2], 0, Some(Created)) == [3, 2];
    assert Matching(s, [2], 0, None) == [2];
    assert Matching(s, [3, 2], 0, None) == [3, 2];
    assert Matching(s, [2], 4, None) == [];
    assert Matching(s, [3, 2], 4, None) == [];
    assert Walk(s, None, 4, 1) == [];
    assert Walk(s, None, 0, 1) == [3];
  }
}
