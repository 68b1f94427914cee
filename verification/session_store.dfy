/** The session store of the MCP server: a map in insertion order with idle expiry. */
module SessionSpec {
  import opened Wrappers

  type Id = string
  /** A transport together with its server, known by identity only. */
  type Handle = nat

  datatype Entry = Entry(handle: Handle, lastActivity: int)
  datatype Limits = Limits(maxSessions: int, idleTtlMs: int)
  datatype Store = Store(order: seq<Id>, entries: map<Id, Entry>)

  predicate AtCapacity(l: Limits, s: Store) { |s.order| >= l.maxSessions }

  function Touch(s: Store, id: Id, now: int): Store {
    if id in s.entries then s.(entries := s.entries[id := s.entries[id].(lastActivity := now)]) else s
  }

  /** Setting a present key replaces its entry and keeps its place. */
  function Register(l: Limits, s: Store, id: Id, handle: Handle, now: int): Store {
    if AtCapacity(l, s) then s
    else Store(if id in s.entries then s.order else s.order + [id], s.entries[id := Entry(handle, now)])
  }

  function Remove(s: Store, id: Id): Store {
    if id in s.entries then Store(Dropping(s.order, {id}), s.entries - {id}) else s
  }

  function Dropping(order: seq<Id>, gone: set<Id>): seq<Id> {
    if order == [] then []
    else (if order[0] in gone then [] else [order[0]]) + Dropping(order[1..], gone)
  }

  lemma {:induction false} DroppingKeeps(order: seq<Id>, gone: set<Id>)
    ensures forall x :: x in Dropping(order, gone) <==> x in order && x !in gone
    ensures Distinct(order) ==> Distinct(Dropping(order, gone))
    ensures |Dropping(order, gone)| <= |order|
  {
    if order != [] { DroppingKeeps(order[1..], gone); }
  }

  predicate Expired(entries: map<Id, Entry>, cutoff: int, id: Id) {
    id in entries && entries[id].lastActivity < cutoff
  }

  /** The expired keys among `order`, in that order. */
  function ExpiredIn(order: seq<Id>, entries: map<Id, Entry>, cutoff: int): seq<Id> {
    if order == [] then []
    else (if Expired(entries, cutoff, order[0]) then [order[0]] else []) + ExpiredIn(order[1..], entries, cutoff)
  }

  lemma {:induction false} ExpiredInListsExpired(order: seq<Id>, entries: map<Id, Entry>, cutoff: int)
    ensures forall x :: x in ExpiredIn(order, entries, cutoff) <==> x in order && Expired(entries, cutoff, x)
  {
    if order != [] { ExpiredInListsExpired(order[1..], entries, cutoff); }
  }

  function ExpiredSet(s: Store, cutoff: int): set<Id> {
    set id | id in s.entries && Expired(s.entries, cutoff, id)
  }

  function Sweep(l: Limits, s: Store, now: int): Store {
    var gone := ExpiredSet(s, now - l.idleTtlMs);
    Store(Dropping(s.order, gone), s.entries - gone)
  }

  /** The order lists exactly the stored keys, once each. */
  ghost predicate Coherent(s: Store) {
    Distinct(s.order) && forall id :: id in s.order <==> id in s.entries
  }

  lemma {:induction false} DroppingSplit(a: seq<Id>, b: seq<Id>, gone: set<Id>)
    ensures Dropping(a + b, gone) == Dropping(a, gone) + Dropping(b, gone)
  {
    if a == [] {
      assert a + b == b;
    } else {
      assert (a + b)[1..] == a[1..] + b;
      DroppingSplit(a[1..], b, gone);
    }
  }

  lemma {:induction false} ExpiredSplit(a: seq<Id>, b: seq<Id>, entries: map<Id, Entry>, cutoff: int)
    ensures ExpiredIn(a + b, entries, cutoff) == ExpiredIn(a, entries, cutoff) + ExpiredIn(b, entries, cutoff)
  {
    if a == [] {
      assert a + b == b;
    } else {
      assert (a + b)[1..] == a[1..] + b;
      ExpiredSplit(a[1..], b, entries, cutoff);
    }
  }

  /** Taking one listed key out of a duplicate-free order. */
  lemma {:induction false} DroppingOne(order: seq<Id>, i: nat)
    requires i < |order| && Distinct(order)
    ensures Dropping(order, {order[i]}) == order[..i] + order[i + 1..]
  {
    if i == 0 {
      NothingDropped(order[1..], {order[0]});
    } else {
      var rest := order[1..];
      DroppingOne(rest, i - 1);
      assert order[i] == rest[i - 1] && order[0] != order[i];
      hide Distinct;
      assert Dropping(order, {order[i]}) == [order[0]] + Dropping(rest, {order[i]});
      hide Dropping;
      assert order[..i] == [order[0]] + rest[..i - 1] && order[i + 1..] == rest[i..];
    }
  }

  /** Visiting one more key, both filters grow by that key or not at all. */
  lemma VisitOne(order: seq<Id>, i: nat, s: Store, cutoff: int)
    requires i < |order| && Distinct(order) && order[i] in s.entries
    ensures var (id, gone) := (order[i], ExpiredSet(s, cutoff));
            && Dropping(order[..i + 1], gone) == Dropping(order[..i], gone) + (if id in gone then [] else [id])
            && ExpiredIn(order[..i + 1], s.entries, cutoff)
               == ExpiredIn(order[..i], s.entries, cutoff) + (if id in gone then [id] else [])
            && (id in gone <==> s.entries[id].lastActivity < cutoff)
            && id !in ExpiredIn(order[..i], s.entries, cutoff)
  {
    assert order[..i + 1] == order[..i] + [order[i]];
    DroppingSplit(order[..i], [order[i]], ExpiredSet(s, cutoff));
    ExpiredSplit(order[..i], [order[i]], s.entries, cutoff);
    ExpiredInListsExpired(order[..i], s.entries, cutoff);
  }

  lemma {:induction false} NothingDropped(order: seq<Id>, gone: set<Id>)
    requires forall x :: x in order ==> x !in gone
    ensures Dropping(order, gone) == order
  {
    if order != [] { NothingDropped(order[1..], gone); }
  }
}

/** The store as the object the server mutates. */
module SessionClass {
  import opened Wrappers
  import opened SessionSpec

  class SessionStore {
    const limits: Limits
    var order: seq<Id>
    var entries: map<Id, Entry>

    ghost function View(): Store
      reads this
    {
      Store(order, entries)
    }

    ghost predicate Valid()
      reads this
    {
      Coherent(View()) && (|order| <= limits.maxSessions || order == [])
    }

    constructor (maxSessions: Option<int>, idleTtlMs: Option<int>)
      ensures Valid() && View() == Store([], map[])
      ensures limits == Limits(if maxSessions.Some? then maxSessions.value else 50,
                               if idleTtlMs.Some? then idleTtlMs.value else 1_800_000)
    {
      limits := Limits(if maxSessions.Some? then maxSessions.value else 50,
                       if idleTtlMs.Some? then idleTtlMs.value else 30 * 60_000);
      order, entries := [], map[];
    }

    method Has(id: Id) returns (b: bool)
      ensures b == (id in View().entries)
    {
      b := id in entries;
    }

    method IsAtCapacity() returns (b: bool)
      ensures b == AtCapacity(limits, View())
    {
      b := |order| >= limits.maxSessions;
    }

    method Touch(id: Id, now: int) returns (entry: Option<Entry>)
      requires Valid()
      modifies this
      ensures Valid() && View() == SessionSpec.Touch(old(View()), id, now)
      ensures entry == if id in entries then Some(entries[id]) else None
    {
      if id !in entries { return None; }
      entries := entries[id := entries[id].(lastActivity := now)];
      return Some(entries[id]);
    }

    /** At capacity even a present id is refused. */
    method Register(id: Id, handle: Handle, now: int) returns (accepted: bool)
      requires Valid()
      modifies this
      ensures Valid() && View() == SessionSpec.Register(limits, old(View()), id, handle, now)
      ensures accepted <==> old(|order|) < limits.maxSessions
    {
      var full := IsAtCapacity();
      if full { return false; }
      if id !in entries { order := order + [id]; }
      entries := entries[id := Entry(handle, now)];
      return true;
    }

    method Remove(id: Id) returns (entry: Option<Entry>)
      requires Valid()
      modifies this
      ensures Valid() && View() == SessionSpec.Remove(old(View()), id)
      ensures entry == if id in old(entries) then Some(old(entries)[id]) else None
      ensures id !in entries
    {
      if id !in entries { return None; }
      entry := Some(entries[id]);
      var i := 0;
      while order[i] != id
        invariant 0 <= i < |order| && id in order[i..]
        decreases |order| - i
      {
        i := i + 1;
      }
      DroppingOne(order, i);
      DroppingKeeps(order, {id});
      order := order[..i] + order[i + 1..];
      entries := entries - {id};
    }

    /**
     * Deletes while it iterates. Returns the expired ids in insertion order, and
     * the transports whose closing it has set off.
     */
    method Sweep(now: int) returns (swept: seq<Id>, closing: seq<Handle>)
      requires Valid()
      modifies this
      ensures Valid() && View() == SessionSpec.Sweep(limits, old(View()), now)
      ensures swept == ExpiredIn(old(order), old(entries), now - limits.idleTtlMs)
      ensures Closes(old(entries), swept, closing)
    {
      hide SweptUpTo, Dropping, ExpiredIn;
      var cutoff := now - limits.idleTtlMs;
      swept, closing := [], [];
      var i := 0;
      ghost var was := View();
      ghost var seen := 0;  // how many of the first ids the loop has visited
      SweepStarts(was, cutoff);
      while i < |order|
        invariant SweptUpTo(was, cutoff, seen, View(), i, swept, closing)
        invariant 0 <= i <= |order| && seen + |order| - i == |was.order|
        decreases |order| - i
      {
        SweepVisits(was, cutoff, seen, View(), i, swept, closing);
        var id := order[i];
        if entries[id].lastActivity < cutoff {
          closing := closing + [entries[id].handle];
          order, entries := order[..i] + order[i + 1..], entries - {id};
          swept := swept + [id];
        } else {
          i := i + 1;
        }
        seen := seen + 1;
      }
      SweepEnds(limits, was, now, View(), swept, closing);
    }
  }

  function Members(ids: seq<Id>): set<Id> { set x | x in ids }

  lemma OneMoreMember(ids: seq<Id>, id: Id)
    ensures Members(ids + [id]) == Members(ids) + {id}
  {
  }

  /**
   * The loop of `Sweep` has visited the first `seen` keys of `was`: the kept ones
   * stand before place `i` of `s.order`, the others are listed in `swept`.
   */
  ghost predicate SweptUpTo(was: Store, cutoff: int, seen: nat, s: Store, i: nat, swept: seq<Id>,
                            closing: seq<Handle>) {
    && Coherent(was) && seen <= |was.order| && i <= |s.order|
    && s.order[..i] == Dropping(was.order[..seen], ExpiredSet(was, cutoff)) && s.order[i..] == was.order[seen..]
    && swept == ExpiredIn(was.order[..seen], was.entries, cutoff)
    && s.entries == was.entries - Members(swept)
    && Closes(was.entries, swept, closing)
  }

  /** `closing` are the transports of the sessions `swept`. */
  ghost predicate Closes(entries: map<Id, Entry>, swept: seq<Id>, closing: seq<Handle>) {
    && |closing| == |swept|
    && forall k :: 0 <= k < |swept| ==> swept[k] in entries && closing[k] == entries[swept[k]].handle
  }

  lemma SweepStarts(was: Store, cutoff: int)
    requires Coherent(was)
    ensures SweptUpTo(was, cutoff, 0, was, 0, [], [])
  {
  }

  lemma SweepVisits(was: Store, cutoff: int, seen: nat, s: Store, i: nat, swept: seq<Id>, closing: seq<Handle>)
    requires SweptUpTo(was, cutoff, seen, s, i, swept, closing) && i < |s.order|
    ensures s.order[i] in s.entries
    ensures var id := s.order[i];
            if s.entries[id].lastActivity < cutoff then
              SweptUpTo(was, cutoff, seen + 1, Store(s.order[..i] + s.order[i + 1..], s.entries - {id}), i,
                        swept + [id], closing + [s.entries[id].handle])
            else SweptUpTo(was, cutoff, seen + 1, s, i + 1, swept, closing)
  {
    var id := s.order[i];
    VisitedIsUntouched(was, cutoff, seen, s, i, swept, closing);
    hide SweptUpTo;
    if s.entries[id].lastActivity < cutoff {
      SweepDeletes(was, cutoff, seen, s, i, swept, closing);
    } else {
      SweepKeeps(was, cutoff, seen, s, i, swept, closing);
    }
  }

  lemma VisitedIsUntouched(was: Store, cutoff: int, seen: nat, s: Store, i: nat, swept: seq<Id>, closing: seq<Handle>)
    requires SweptUpTo(was, cutoff, seen, s, i, swept, closing) && i < |s.order|
    ensures seen < |was.order| && s.order[i] == was.order[seen]
    ensures s.order[i] in was.entries && s.order[i] in s.entries && s.entries[s.order[i]] == was.entries[s.order[i]]
    ensures s.order[i + 1..] == was.order[seen + 1..]
  {
    assert s.order[i] == s.order[i..][0] == was.order[seen..][0];
    VisitOne(was.order, seen, was, cutoff);
    NextRest(s.order, i, was.order, seen);
  }

  lemma SweepDeletes(was: Store, cutoff: int, seen: nat, s: Store, i: nat, swept: seq<Id>, closing: seq<Handle>)
    requires SweptUpTo(was, cutoff, seen, s, i, swept, closing) && i < |s.order|
    requires s.order[i] in s.entries && s.entries[s.order[i]].lastActivity < cutoff
    ensures var id := s.order[i];
            SweptUpTo(was, cutoff, seen + 1, Store(s.order[..i] + s.order[i + 1..], s.entries - {id}), i,
                      swept + [id], closing + [s.entries[id].handle])
  {
    hide Distinct, Dropping, ExpiredIn, ExpiredSet, Members;
    var id := s.order[i];
    VisitedIsUntouched(was, cutoff, seen, s, i, swept, closing);
    VisitOne(was.order, seen, was, cutoff);
    OneMoreMember(swept, id);
    CutAt(s.order, i);
  }

  lemma SweepKeeps(was: Store, cutoff: int, seen: nat, s: Store, i: nat, swept: seq<Id>, closing: seq<Handle>)
    requires SweptUpTo(was, cutoff, seen, s, i, swept, closing) && i < |s.order|
    requires s.order[i] in s.entries && s.entries[s.order[i]].lastActivity >= cutoff
    ensures SweptUpTo(was, cutoff, seen + 1, s, i + 1, swept, closing)
  {
    VisitedIsUntouched(was, cutoff, seen, s, i, swept, closing);
    VisitOne(was.order, seen, was, cutoff);
    hide Distinct, Dropping, ExpiredIn, ExpiredSet, Members;
    CutAt(s.order, i);
  }

  lemma CutAt(a: seq<Id>, i: nat)
    requires i < |a|
    ensures (a[..i] + a[i + 1..])[..i] == a[..i] && (a[..i] + a[i + 1..])[i..] == a[i + 1..]
    ensures a[..i + 1] == a[..i] + [a[i]]
  {
  }

  lemma NextRest(a: seq<Id>, i: nat, b: seq<Id>, j: nat)
    requires i < |a| && j < |b| && a[i..] == b[j..]
    ensures a[i + 1..] == b[j + 1..]
  {
    assert a[i..][1..] == b[j..][1..];
  }

  lemma SweepEnds(l: Limits, was: Store, now: int, s: Store, swept: seq<Id>, closing: seq<Handle>)
    requires SweptUpTo(was, now - l.idleTtlMs, |was.order|, s, |s.order|, swept, closing)
    ensures s == SessionSpec.Sweep(l, was, now) && Coherent(s) && |s.order| <= |was.order|
    ensures swept == ExpiredIn(was.order, was.entries, now - l.idleTtlMs) && Closes(was.entries, swept, closing)
  {
    hide Dropping, ExpiredIn, Distinct;
    assert was.order[..|was.order|] == was.order && s.order[..|s.order|] == s.order;
    ExpiredInListsExpired(was.order, was.entries, now - l.idleTtlMs);
    DroppingKeeps(was.order, ExpiredSet(was, now - l.idleTtlMs));
    assert Members(swept) == ExpiredSet(was, now - l.idleTtlMs);
  }
}

/** The store against the log of everything that was done to it. */
module SessionLog {
  import opened Wrappers
  import opened SessionSpec

  datatype Event =
    | Touches(id: Id, now: int)
    | Registers(id: Id, handle: Handle, now: int)
    | Removes(id: Id)
    | Sweeps(now: int)

  function Apply(l: Limits, s: Store, e: Event): Store {
    match e
    case Touches(id, now) => Touch(s, id, now)
    case Registers(id, handle, now) => Register(l, s, id, handle, now)
    case Removes(id) => Remove(s, id)
    case Sweeps(now) => Sweep(l, s, now)
  }

  ghost function At(l: Limits, log: seq<Event>, n: nat): Store
    requires n <= |log|
  {
    if n == 0 then Store([], map[]) else Apply(l, At(l, log, n - 1), log[n - 1])
  }

  ghost predicate Accepted(l: Limits, log: seq<Event>, i: nat, id: Id)
    requires i < |log|
  {
    log[i].Registers? && log[i].id == id && !AtCapacity(l, At(l, log, i))
  }

  /** Event `k` shows session `id` in use. */
  ghost predicate Active(l: Limits, log: seq<Event>, k: nat, id: Id)
    requires k < |log|
  {
    (log[k].Touches? && log[k].id == id) || Accepted(l, log, k, id)
  }

  /** Sweep `r` finds no activity of `id` since `i` within the time to live. */
  ghost predicate IdleAt(l: Limits, log: seq<Event>, i: nat, r: nat, id: Id)
    requires r < |log|
  {
    log[r].Sweeps? && forall k :: i <= k < r && Active(l, log, k, id) ==> log[k].now < log[r].now - l.idleTtlMs
  }

  ghost predicate Ends(l: Limits, log: seq<Event>, i: nat, r: nat, id: Id)
    requires r < |log|
  {
    log[r] == Removes(id) || IdleAt(l, log, i, r, id)
  }

  /** Accepted at `i`, and by `n` neither removed nor swept. */
  ghost predicate Survives(l: Limits, log: seq<Event>, i: nat, n: nat, id: Id)
    requires n <= |log|
  {
    i < n && Accepted(l, log, i, id) && forall r :: i < r < n ==> !Ends(l, log, i, r, id)
  }

  /** Some accepted registration of `id` survives. */
  ghost predicate Alive(l: Limits, log: seq<Event>, n: nat, id: Id)
    requires n <= |log|
  {
    exists i: nat :: Survives(l, log, i, n, id)
  }

  ghost predicate Latest(l: Limits, log: seq<Event>, k: nat, n: nat, id: Id)
    requires n <= |log|
  {
    k < n && Active(l, log, k, id) && forall m :: k < m < n ==> !Active(l, log, m, id)
  }

  ghost predicate ClockAdvances(log: seq<Event>) {
    forall i, j :: 0 <= i < j < |log| && !log[i].Removes? && !log[j].Removes? ==> log[i].now <= log[j].now
  }

  lemma {:induction false} StaysCoherent(l: Limits, log: seq<Event>, n: nat)
    requires n <= |log|
    ensures Coherent(At(l, log, n))
  {
    if n > 0 {
      StaysCoherent(l, log, n - 1);
      CallKeepsCoherent(l, At(l, log, n - 1), log[n - 1]);
    }
  }

  /**
   * The last activity kept for a session is the time of its latest touch or accepted
   * registration, whatever the clock does.
   */
  lemma {:induction false} LastActivityIsLatest(l: Limits, log: seq<Event>, n: nat, id: Id)
    requires n <= |log| && id in At(l, log, n).entries
    ensures exists k: nat :: Latest(l, log, k, n, id) && At(l, log, n).entries[id].lastActivity == log[k].now
  {
    var k := n - 1;
    if Active(l, log, k, id) {
      assert Latest(l, log, k, n, id);
    } else {
      LastActivityIsLatest(l, log, k, id);
      var m: nat :| Latest(l, log, m, k, id) && At(l, log, k).entries[id].lastActivity == log[m].now;
      assert Latest(l, log, m, n, id);
    }
  }

  /** A session is present exactly when some accepted registration of it survives. */
  lemma {:induction false} PresentExactlyWhenAlive(l: Limits, log: seq<Event>, n: nat, id: Id)
    requires n <= |log| && ClockAdvances(log)
    ensures id in At(l, log, n).entries <==> Alive(l, log, n, id)
  {
    if n > 0 {
      PresentExactlyWhenAlive(l, log, n - 1, id);
      if id in At(l, log, n).entries { PresentIsAlive(l, log, n, id); }
      if i: nat :| Survives(l, log, i, n, id) { AliveIsPresent(l, log, i, n, id); }
    }
  }

  lemma PresentIsAlive(l: Limits, log: seq<Event>, n: nat, id: Id)
    requires 0 < n <= |log| && ClockAdvances(log) && id in At(l, log, n).entries
    requires id in At(l, log, n - 1).entries <==> Alive(l, log, n - 1, id)
    ensures Alive(l, log, n, id)
  {
    var s := At(l, log, n - 1);
    if Accepted(l, log, n - 1, id) {
      assert Survives(l, log, n - 1, n, id);
    } else {
      assert id in s.entries;
      var i: nat :| Survives(l, log, i, n - 1, id);
      if log[n - 1].Sweeps? {
        LastActivityIsLatest(l, log, n - 1, id);
        var k: nat :| Latest(l, log, k, n - 1, id) && s.entries[id].lastActivity == log[k].now;
        assert Active(l, log, i, id);
        assert i <= k;
      }
      assert Survives(l, log, i, n, id);
    }
  }

  lemma AliveIsPresent(l: Limits, log: seq<Event>, i: nat, n: nat, id: Id)
    requires 0 < n <= |log| && ClockAdvances(log) && Survives(l, log, i, n, id)
    requires id in At(l, log, n - 1).entries <==> Alive(l, log, n - 1, id)
    ensures id in At(l, log, n).entries
  {
    if i < n - 1 {
      assert Survives(l, log, i, n - 1, id);
      assert !Ends(l, log, i, n - 1, id);
      var s := At(l, log, n - 1);
      if log[n - 1].Sweeps? {
        LastActivityIsLatest(l, log, n - 1, id);
        var k: nat :| Latest(l, log, k, n - 1, id) && s.entries[id].lastActivity == log[k].now;
        var m :| i <= m < n - 1 && Active(l, log, m, id) && log[m].now >= log[n - 1].now - l.idleTtlMs;
        assert m <= k;
      }
    }
  }

  /** A sweep returns exactly the sessions that are alive and have shown no activity within the time to live. */
  lemma SweptExactlyWhenIdle(l: Limits, log: seq<Event>, r: nat, id: Id)
    requires r < |log| && log[r].Sweeps? && ClockAdvances(log)
    ensures id in ExpiredIn(At(l, log, r).order, At(l, log, r).entries, log[r].now - l.idleTtlMs) <==>
            Alive(l, log, r, id) && IdleAt(l, log, 0, r, id)
  {
    var s := At(l, log, r);
    PresentExactlyWhenAlive(l, log, r, id);
    StaysCoherent(l, log, r);
    ExpiredInListsExpired(s.order, s.entries, log[r].now - l.idleTtlMs);
    if id in s.entries {
      LastActivityIsLatest(l, log, r, id);
      var k: nat :| Latest(l, log, k, r, id) && s.entries[id].lastActivity == log[k].now;
      forall m: nat | m < r && Active(l, log, m, id)
        ensures log[m].now <= log[k].now
      {
        assert m <= k;
      }
    }
  }

  /** Whatever the interleaving, the ceiling holds. */
  lemma {:induction false} NeverOverCapacity(l: Limits, log: seq<Event>, n: nat)
    requires n <= |log|
    ensures |At(l, log, n).order| <= if l.maxSessions < 0 then 0 else l.maxSessions
  {
    if n > 0 {
      NeverOverCapacity(l, log, n - 1);
      StaysCoherent(l, log, n - 1);
      CallKeepsCoherent(l, At(l, log, n - 1), log[n - 1]);
    }
  }

  /** Session `id` came in with event `i` and has been present ever since. */
  ghost predicate PresentSince(l: Limits, log: seq<Event>, i: nat, n: nat, id: Id)
    requires n <= |log|
  {
    i < n && id !in At(l, log, i).entries && forall m :: i < m <= n ==> id in At(l, log, m).entries
  }

  ghost predicate Before(order: seq<Id>, a: Id, b: Id) {
    exists p, q :: 0 <= p < q < |order| && order[p] == a && order[q] == b
  }

  /** Sessions are listed, and so swept, by age: a touch or a re-registration does not move one. */
  lemma {:induction false} ListedByAge(l: Limits, log: seq<Event>, n: nat, a: Id, b: Id)
    requires 0 < n <= |log| && Before(At(l, log, n).order, a, b)
    ensures exists i: nat, j: nat :: i < j && PresentSince(l, log, i, n, a) && PresentSince(l, log, j, n, b)
  {
    hide Apply, Coherent, Before;
    StaysCoherent(l, log, n - 1);
    var s := At(l, log, n - 1);
    BeforeBefore(l, s, log[n - 1], a, b);
    Since(l, log, n - 1, a);
    if b in s.entries {
      ListedByAge(l, log, n - 1, a, b);
      var i: nat, j: nat :| i < j && PresentSince(l, log, i, n - 1, a) && PresentSince(l, log, j, n - 1, b);
      assert PresentSince(l, log, i, n, a) && PresentSince(l, log, j, n, b);
    } else {
      var i: nat :| PresentSince(l, log, i, n - 1, a);
      assert PresentSince(l, log, i, n, a) && PresentSince(l, log, n - 1, n, b);
    }
  }

  lemma {:induction false} Since(l: Limits, log: seq<Event>, n: nat, id: Id)
    requires n <= |log| && id in At(l, log, n).entries
    ensures exists i: nat :: PresentSince(l, log, i, n, id)
  {
    if id in At(l, log, n - 1).entries {
      Since(l, log, n - 1, id);
      var i: nat :| PresentSince(l, log, i, n - 1, id);
      assert PresentSince(l, log, i, n, id);
    } else {
      assert PresentSince(l, log, n - 1, n, id);
    }
  }

  lemma CallKeepsCoherent(l: Limits, s: Store, e: Event)
    requires Coherent(s)
    ensures Coherent(Apply(l, s, e))
    ensures |Apply(l, s, e).order| <= if |s.order| < l.maxSessions then l.maxSessions else |s.order|
  {
    match e
    case Removes(id) => DroppingKeeps(s.order, {id});
    case Sweeps(now) => DroppingKeeps(s.order, ExpiredSet(s, now - l.idleTtlMs));
    case _ =>
  }

  lemma BeforeBefore(l: Limits, s: Store, e: Event, a: Id, b: Id)
    requires Coherent(s) && Before(Apply(l, s, e).order, a, b)
    ensures a in Apply(l, s, e).entries && b in Apply(l, s, e).entries
    ensures a in s.entries && (b in s.entries ==> Before(s.order, a, b))
  {
    CallKeepsCoherent(l, s, e);
    match e
    case Removes(id) => if id in s.entries { DroppingKeepsOrder(s.order, {id}, a, b); }
    case Sweeps(now) => DroppingKeepsOrder(s.order, ExpiredSet(s, now - l.idleTtlMs), a, b);
    case _ =>
  }

  lemma {:induction false} DroppingKeepsOrder(order: seq<Id>, gone: set<Id>, a: Id, b: Id)
    requires Before(Dropping(order, gone), a, b)
    ensures Before(order, a, b)
  {
    var kept := Dropping(order, gone);
    var rest := Dropping(order[1..], gone);
    var p, q :| 0 <= p < q < |kept| && kept[p] == a && kept[q] == b;
    if order[0] !in gone && p == 0 {
      assert b == rest[q - 1] && b in rest;
      DroppingKeeps(order[1..], gone);
      var k :| 0 <= k < |order[1..]| && order[1..][k] == b;
      assert order[0] == a && order[k + 1] == b;
    } else {
      var d := if order[0] in gone then 0 else 1;
      assert rest[p - d] == a && rest[q - d] == b;
      DroppingKeepsOrder(order[1..], gone, a, b);
      var x, y :| 0 <= x < y < |order[1..]| && order[1..][x] == a && order[1..][y] == b;
      assert order[x + 1] == a && order[y + 1] == b;
    }
  }
}

/** Requests, transports and timers around the shared store, interleaved in any order. */
module SessionHandlers {
  import opened Wrappers
  import opened SessionSpec
  import SessionLog

  /** A transport from its construction, after the capacity check, to its close callback. */
  datatype Phase =
    | Built            // capacity was checked; the handshake has not assigned an id yet
    | Serving(id: Id)  // its id was registered
    | Closing(id: Id)  // refused in the capacity race, or swept; its close callback is still to come
    | Closed(id: Id)

  datatype Server = Server(store: Store, transports: map<Handle, Phase>)

  datatype Event =
    | Requests(sessionId: Option<Id>, initialize: bool, created: Handle, now: int)
    | Initializes(handle: Handle, id: Id, now: int)
    | Closes(handle: Handle)
    | Sweeps(now: int)

  datatype Reply = Routed(handle: Handle) | BadRequest | AtCapacityReply

  /** What the handler answers, or which transport it hands the request to. */
  function Answer(l: Limits, s: Server, e: Event): Reply
    requires e.Requests?
  {
    if e.sessionId.Some? && e.sessionId.value in s.store.entries then Routed(s.store.entries[e.sessionId.value].handle)
    else if !e.initialize then BadRequest
    else if AtCapacity(l, s.store) then AtCapacityReply
    else Routed(e.created)
  }

  predicate HasId(p: Phase, id: Id) { !p.Built? && p.id == id }

  predicate SameId(p: Phase, q: Phase) { !p.Built? && !q.Built? && p.id == q.id }

  /** New transports are new objects, and a random session id is never drawn twice. */
  predicate Possible(s: Server, e: Event) {
    match e
    case Requests(_, _, created, _) => created !in s.transports
    case Initializes(handle, id, _) =>
      && handle in s.transports && s.transports[handle].Built?
      && forall h :: h in s.transports ==> !HasId(s.transports[h], id)
    case Closes(handle) => handle in s.transports && !s.transports[handle].Built?
    case Sweeps(_) => true
  }

  function Next(l: Limits, s: Server, e: Event): Server
    requires Possible(s, e)
  {
    match e
    case Requests(sessionId, initialize, created, now) =>
      if sessionId.Some? && sessionId.value in s.store.entries then s.(store := Touch(s.store, sessionId.value, now))
      else if initialize && !AtCapacity(l, s.store) then s.(transports := s.transports[created := Built])
      else s
    case Initializes(handle, id, now) =>
      Server(Register(l, s.store, id, handle, now),
             s.transports[handle := if AtCapacity(l, s.store) then Closing(id) else Serving(id)])
    case Closes(handle) =>
      Server(Remove(s.store, s.transports[handle].id), s.transports[handle := Closed(s.transports[handle].id)])
    case Sweeps(now) =>
      var gone := ExpiredSet(s.store, now - l.idleTtlMs);
      Server(Sweep(l, s.store, now),
             map h | h in s.transports ::
               if s.transports[h].Serving? && s.transports[h].id in gone then Closing(s.transports[h].id)
               else s.transports[h])
  }

  ghost predicate Reachable(l: Limits, s: Server, run: seq<Event>)
    decreases |run|
  {
    if run == [] then s == Server(Store([], map[]), map[])
    else
      exists before :: Reachable(l, before, run[..|run| - 1]) && LeadsTo(l, before, Last(run), s)
  }

  function Last(run: seq<Event>): Event
    requires run != []
  {
    run[|run| - 1]
  }

  ghost predicate LeadsTo(l: Limits, s: Server, e: Event, t: Server) {
    Possible(s, e) && t == Next(l, s, e)
  }

  /** No two transports share an id, and the store holds exactly the serving ones, each under its own id. */
  ghost predicate Consistent(l: Limits, s: Server) {
    && Coherent(s.store) && (s.store.order == [] || |s.store.order| <= l.maxSessions)
    && (forall g, h :: g in s.transports && h in s.transports && SameId(s.transports[g], s.transports[h]) ==> g == h)
    && (forall id :: id in s.store.entries ==>
         s.store.entries[id].handle in s.transports && s.transports[s.store.entries[id].handle] == Serving(id))
    && (forall h :: h in s.transports && s.transports[h].Serving? ==>
         s.transports[h].id in s.store.entries && s.store.entries[s.transports[h].id].handle == h)
  }

  lemma NextIsConsistent(l: Limits, s: Server, e: Event, t: Server)
    requires Consistent(l, s) && LeadsTo(l, s, e, t)
    ensures Consistent(l, t)
  {
    hide Consistent;
    match e
    case Requests(_, _, _, _) => RequestIsConsistent(l, s, e);
    case Initializes(_, _, _) => InitializeIsConsistent(l, s, e);
    case Closes(_) => CloseIsConsistent(l, s, e);
    case Sweeps(_) => SweepIsConsistent(l, s, e);
  }

  lemma RequestIsConsistent(l: Limits, s: Server, e: Event)
    requires Consistent(l, s) && e.Requests? && Possible(s, e)
    ensures Consistent(l, Next(l, s, e))
  {
  }

  lemma InitializeIsConsistent(l: Limits, s: Server, e: Event)
    requires Consistent(l, s) && e.Initializes? && Possible(s, e)
    ensures Consistent(l, Next(l, s, e))
  {
    assert e.id !in s.store.entries;
  }

  lemma CloseIsConsistent(l: Limits, s: Server, e: Event)
    requires Consistent(l, s) && e.Closes? && Possible(s, e)
    ensures Consistent(l, Next(l, s, e))
  {
    hide Dropping;
    var id := s.transports[e.handle].id;
    DroppingKeeps(s.store.order, {id});
    var t := Next(l, s, e);
    forall h | h in t.transports && t.transports[h].Serving?
      ensures t.transports[h].id in t.store.entries && t.store.entries[t.transports[h].id].handle == h
    {
      assert h != e.handle && !SameId(s.transports[h], s.transports[e.handle]);
    }
  }

  lemma SweepIsConsistent(l: Limits, s: Server, e: Event)
    requires Consistent(l, s) && e.Sweeps?
    ensures Consistent(l, Next(l, s, e))
  {
    hide Dropping;
    var gone := ExpiredSet(s.store, e.now - l.idleTtlMs);
    DroppingKeeps(s.store.order, gone);
    var t := Next(l, s, e);
    forall g, h | g in t.transports && h in t.transports && SameId(t.transports[g], t.transports[h])
      ensures g == h
    {
      assert SameId(s.transports[g], s.transports[h]);
    }
  }

  /**
   * In every reachable state, with any number of handshakes between their capacity
   * check and their registration, the store is within its limit and holds exactly
   * the serving transports.
   */
  lemma {:induction false} EveryReachableStateIsConsistent(l: Limits, s: Server, run: seq<Event>)
    requires Reachable(l, s, run)
    ensures Consistent(l, s)
    decreases |run|
  {
    if run != [] {
      hide Consistent, LeadsTo;
      var before :| Reachable(l, before, run[..|run| - 1]) && LeadsTo(l, before, Last(run), s);
      EveryReachableStateIsConsistent(l, before, run[..|run| - 1]);
      NextIsConsistent(l, before, Last(run), s);
    }
  }

  /**
   * A request naming a session goes to a transport exactly when that session is
   * serving, and then to its own transport; otherwise only an initialize request
   * below capacity gets one, a new one.
   */
  lemma RequestsReachTheirOwnTransport(l: Limits, s: Server, run: seq<Event>, e: Event, h: Handle)
    requires Reachable(l, s, run) && e.Requests? && Possible(s, e)
    ensures h in s.transports ==>
              (Answer(l, s, e) == Routed(h) <==> e.sessionId.Some? && s.transports[h] == Serving(e.sessionId.value))
    ensures Answer(l, s, e) == Routed(e.created) ==>
              && e.initialize && |s.store.order| < l.maxSessions
              && Next(l, s, e).transports == s.transports[e.created := Built]
              && forall g :: g in s.transports && e.sessionId.Some? ==> s.transports[g] != Serving(e.sessionId.value)
  {
    EveryReachableStateIsConsistent(l, s, run);
  }

  lemma StoredIsServing(l: Limits, s: Server, h: Handle)
    requires Consistent(l, s) && h in s.transports && !s.transports[h].Built? && s.transports[h].id in s.store.entries
    ensures s.transports[h] == Serving(s.transports[h].id)
  {
    assert SameId(s.transports[h], s.transports[s.store.entries[s.transports[h].id].handle]);
  }

  /** A late close callback of a refused or swept transport takes no session away. */
  lemma LateCloseIsHarmless(l: Limits, s: Server, run: seq<Event>, h: Handle)
    requires Reachable(l, s, run) && h in s.transports && (s.transports[h].Closing? || s.transports[h].Closed?)
    ensures Next(l, s, Closes(h)).store == s.store
  {
    EveryReachableStateIsConsistent(l, s, run);
    if s.transports[h].id in s.store.entries { StoredIsServing(l, s, h); }
  }

  /** A checked handshake is refused exactly when others filled the store in the meantime; nobody else is disturbed. */
  lemma RaceIsLostAtCapacity(l: Limits, s: Server, run: seq<Event>, e: Event)
    requires Reachable(l, s, run) && e.Initializes? && Possible(s, e)
    ensures var t := Next(l, s, e);
            && (t.transports[e.handle] == Closing(e.id) <==> |s.store.order| >= l.maxSessions)
            && t.store.order == (if |s.store.order| >= l.maxSessions then s.store.order else s.store.order + [e.id])
            && forall id :: id in s.store.entries ==>
                 id in t.store.entries && t.store.entries[id] == s.store.entries[id]
  {
    EveryReachableStateIsConsistent(l, s, run);
  }

  // ---------------------------------------------------------------- what each event does

  /** The store sees of an event the operation it stands for. */
  ghost function LogOf(s: Server, e: Event): Option<SessionLog.Event>
    requires Possible(s, e)
  {
    match e
    case Requests(sessionId, _, _, now) =>
      if sessionId.Some? then Some(SessionLog.Touches(sessionId.value, now)) else None
    case Initializes(handle, id, now) => Some(SessionLog.Registers(id, handle, now))
    case Closes(handle) => Some(SessionLog.Removes(s.transports[handle].id))
    case Sweeps(now) => Some(SessionLog.Sweeps(now))
  }

  /** So what is proved of the store's log holds of the server: the store moves by these operations and no others. */
  lemma StoreFollowsLog(l: Limits, s: Server, e: Event)
    requires Possible(s, e)
    ensures Next(l, s, e).store
            == if LogOf(s, e).Some? then SessionLog.Apply(l, s.store, LogOf(s, e).value) else s.store
  {
  }

  /** Some transport serves session `id`. */
  ghost predicate Served(s: Server, id: Option<Id>) {
    id.Some? && exists h :: h in s.transports && s.transports[h] == Serving(id.value)
  }

  /**
   * A request that names no served session is refused unless it initializes, then
   * at capacity, and else gets a new transport.
   */
  lemma AnswersExactly(l: Limits, s: Server, run: seq<Event>, e: Event)
    requires Reachable(l, s, run) && e.Requests? && Possible(s, e)
    ensures Answer(l, s, e) == BadRequest <==> !Served(s, e.sessionId) && !e.initialize
    ensures Answer(l, s, e) == AtCapacityReply <==>
            !Served(s, e.sessionId) && e.initialize && |s.store.order| >= l.maxSessions
    ensures Answer(l, s, e) == Routed(e.created) <==>
            !Served(s, e.sessionId) && e.initialize && |s.store.order| < l.maxSessions
    ensures Next(l, s, e).transports
            == if Answer(l, s, e) == Routed(e.created) then s.transports[e.created := Built] else s.transports
  {
    EveryReachableStateIsConsistent(l, s, run);
    if e.sessionId.Some? {
      var id := e.sessionId.value;
      if id in s.store.entries { assert s.transports[s.store.entries[id].handle] == Serving(id); }
    }
  }

  /** A request routed to a served session marks it as active at that time, and nothing else changes. */
  lemma RequestKeepsAlive(l: Limits, s: Server, run: seq<Event>, e: Event, h: Handle)
    requires Reachable(l, s, run) && e.Requests? && Possible(s, e)
    requires h in s.transports && e.sessionId.Some? && s.transports[h] == Serving(e.sessionId.value)
    ensures Answer(l, s, e) == Routed(h)
    ensures Next(l, s, e) == s.(store := Store(s.store.order, s.store.entries[e.sessionId.value := Entry(h, e.now)]))
  {
    EveryReachableStateIsConsistent(l, s, run);
  }

  /** A sweep begins to close exactly the transports whose session has been idle for longer than allowed. */
  lemma SweepClosesIdle(l: Limits, s: Server, run: seq<Event>, now: int, h: Handle)
    requires Reachable(l, s, run) && h in s.transports
    ensures var t := Next(l, s, Sweeps(now));
            && h in t.transports
            && t.transports[h] == if s.transports[h].Serving? && s.transports[h].id in s.store.entries
                                     && s.store.entries[s.transports[h].id].lastActivity < now - l.idleTtlMs
                                  then Closing(s.transports[h].id) else s.transports[h]
  {
    EveryReachableStateIsConsistent(l, s, run);
  }

  /** A close callback ends its transport, and its session if it is still being served. */
  lemma CloseEnds(l: Limits, s: Server, run: seq<Event>, h: Handle)
    requires Reachable(l, s, run) && h in s.transports && !s.transports[h].Built?
    ensures var t := Next(l, s, Closes(h));
            && t.transports == s.transports[h := Closed(s.transports[h].id)]
            && forall id :: id in t.store.entries <==> id in s.store.entries && id != s.transports[h].id
  {
  }
}
