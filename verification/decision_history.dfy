/** Layered histories of a worker: process cache, shared memory, vault, in-process fallback. */
module HistorySpec {
  import opened Wrappers

  /** What the outside stores hold for one section: the list, the CID pointer to the vault, and the vaulted lists. */
  datatype Remote<R> = Remote(list: Option<seq<R>>, pointer: Option<string>, vault: map<string, seq<R>>)

  /** What the process holds. */
  datatype Local<R> = Local(cache: Option<seq<R>>, fallback: seq<R>)

  /** Which parts of one read come through. */
  datatype ReadFaults = ReadFaults(listReads: bool, pointerReads: bool, vaultReads: bool, repopulates: bool)

  /** What one save achieves: the CID of the vaulted list, and whether the pointer and the list writes land. */
  datatype WriteFaults = WriteFaults(cid: Option<string>, pointerLands: bool, listLands: bool)

  const DECISIONS_KEPT: nat := 20

  /** `slice(-k)` for positive `k`. */
  function Last<R>(s: seq<R>, k: nat): seq<R> { if |s| <= k then s else s[|s| - k..] }

  /** What is kept of a list: its last `cap` entries, or all. */
  function Kept<R>(cap: Option<nat>, s: seq<R>): seq<R> { if cap.Some? then Last(s, cap.value) else s }

  predicate FromVault<R>(useStoracha: bool, r: Remote<R>, f: ReadFaults) {
    && useStoracha && f.pointerReads && r.pointer.Some? && "baf" <= r.pointer.value
    && f.vaultReads && r.pointer.value in r.vault
  }

  /** The list a read returns; `seed` is the local identity file's list, empty if there is none. */
  function Seen<R>(useStoracha: bool, seed: seq<R>, l: Local<R>, r: Remote<R>, f: ReadFaults): seq<R> {
    if l.cache.Some? then l.cache.value
    else if f.listReads && r.list.Some? then r.list.value
    else if FromVault(useStoracha, r, f) then r.vault[r.pointer.value]
    else if seed != [] then seed
    else l.fallback
  }

  /** A read caches what it found, except the fallback. */
  function AfterRead<R>(useStoracha: bool, seed: seq<R>, l: Local<R>, r: Remote<R>, f: ReadFaults): (Local<R>,
                                                                                                     Remote<R>) {
    var seen := Seen(useStoracha, seed, l, r, f);
    if l.cache.Some? then (l, r)
    else if f.listReads && r.list.Some? then (l.(cache := Some(seen)), r)
    else if FromVault(useStoracha, r, f) then (l.(cache := Some(seen)),
                                               if f.repopulates then r.(list := Some(seen)) else r)
    else if seed != [] then (l.(cache := Some(seen)), r)
    else (l, r)
  }

  /** The writing half of a save, of a list read earlier. */
  function Commit<R>(useStoracha: bool, cap: Option<nat>, l: Local<R>, r: Remote<R>, existing: seq<R>, entry: R,
                     w: WriteFaults)
    : (Local<R>, Remote<R>)
  {
    var updated := Kept(cap, existing + [entry]);
    (Local(Some(updated), if useStoracha then l.fallback else updated),
     Remote(if w.listLands then Some(updated) else r.list,
            if useStoracha && w.cid.Some? && w.pointerLands then w.cid else r.pointer,
            if useStoracha && w.cid.Some? then r.vault[w.cid.value := updated] else r.vault))
  }

  function AfterSave<R>(useStoracha: bool, cap: Option<nat>, seed: seq<R>, l: Local<R>, r: Remote<R>, entry: R,
                        f: ReadFaults, w: WriteFaults): (Local<R>, Remote<R>)
  {
    var (l', r') := AfterRead(useStoracha, seed, l, r, f);
    Commit(useStoracha, cap, l', r', Seen(useStoracha, seed, l, r, f), entry, w)
  }

  /** JavaScript `slice(-limit)`: zero returns everything and a negative limit drops from the front. */
  function SliceFromEnd<R>(s: seq<R>, limit: int): seq<R> {
    if limit > 0 then Last(s, limit)
    else if -limit <= |s| then s[-limit..]
    else []
  }
}

/** The profile client as the object it is. */
module ProfileClientClass {
  import opened Wrappers
  import opened HistorySpec

  datatype DecisionRecord = DecisionRecord(proposalId: string, vote: string, reasoning: string)

  /** The stores outside the process, for one worker. */
  class Memory {
    var decisions: Remote<DecisionRecord>
    var notes: Remote<string>
  }

  class ProfileClient {
    const useStoracha: bool
    const localKnowledge: seq<string>
    const memory: Memory
    var decisions: Local<DecisionRecord>
    var notes: Local<string>

    constructor (useStoracha: bool, localKnowledge: seq<string>, memory: Memory)
      ensures this.useStoracha == useStoracha && this.localKnowledge == localKnowledge && this.memory == memory
      ensures decisions == Local(None, []) && notes == Local(None, [])
    {
      this.useStoracha, this.localKnowledge, this.memory := useStoracha, localKnowledge, memory;
      decisions, notes := Local(None, []), Local(None, []);
    }

    method GetAllDecisions(f: ReadFaults) returns (all: seq<DecisionRecord>)
      modifies this`decisions, memory`decisions
      ensures all == Seen(useStoracha, [], old(decisions), old(memory.decisions), f)
      ensures (decisions, memory.decisions) == AfterRead(useStoracha, [], old(decisions), old(memory.decisions), f)
    {
      if decisions.cache.Some? { return decisions.cache.value; }
      if f.listReads && memory.decisions.list.Some? {
        all := memory.decisions.list.value;
        decisions := decisions.(cache := Some(all));
        return;
      }
      if useStoracha && f.pointerReads && memory.decisions.pointer.Some? {
        var cid := memory.decisions.pointer.value;
        if "baf" <= cid && f.vaultReads && cid in memory.decisions.vault {
          all := memory.decisions.vault[cid];
          decisions := decisions.(cache := Some(all));
          if f.repopulates { memory.decisions := memory.decisions.(list := Some(all)); }
          return;
        }
      }
      return decisions.fallback;
    }

    method GetRecentDecisions(limit: int, f: ReadFaults) returns (recent: seq<DecisionRecord>)
      modifies this`decisions, memory`decisions
      ensures recent == SliceFromEnd(Seen(useStoracha, [], old(decisions), old(memory.decisions), f), limit)
      ensures (decisions, memory.decisions) == AfterRead(useStoracha, [], old(decisions), old(memory.decisions), f)
    {
      var all := GetAllDecisions(f);
      recent := SliceFromEnd(all, limit);
    }

    /** Returns the CID of the vaulted list even if recording the pointer failed. */
    method SaveDecision(record: DecisionRecord, f: ReadFaults, w: WriteFaults) returns (cid: Option<string>)
      modifies this`decisions, memory`decisions
      ensures (decisions, memory.decisions)
              == AfterSave(useStoracha, Some(20), [], old(decisions), old(memory.decisions), record, f, w)
      ensures cid == if useStoracha then w.cid else None
    {
      var existing := GetAllDecisions(f);
      var updated := Last(existing + [record], DECISIONS_KEPT);
      decisions := decisions.(cache := Some(updated));
      cid := None;
      if useStoracha {
        cid := w.cid;
        if cid.Some? {
          memory.decisions := memory.decisions.(vault := memory.decisions.vault[cid.value := updated]);
          if w.pointerLands { memory.decisions := memory.decisions.(pointer := cid); }
        }
      } else {
        decisions := decisions.(fallback := updated);
      }
      if w.listLands { memory.decisions := memory.decisions.(list := Some(updated)); }
    }

    method GetKnowledgeNotes(f: ReadFaults) returns (all: seq<string>)
      modifies this`notes, memory`notes
      ensures all == Seen(useStoracha, localKnowledge, old(notes), old(memory.notes), f)
      ensures (notes, memory.notes) == AfterRead(useStoracha, localKnowledge, old(notes), old(memory.notes), f)
    {
      if notes.cache.Some? { return notes.cache.value; }
      if f.listReads && memory.notes.list.Some? {
        all := memory.notes.list.value;
        notes := notes.(cache := Some(all));
        return;
      }
      if useStoracha && f.pointerReads && memory.notes.pointer.Some? {
        var cid := memory.notes.pointer.value;
        if "baf" <= cid && f.vaultReads && cid in memory.notes.vault {
          all := memory.notes.vault[cid];
          notes := notes.(cache := Some(all));
          if f.repopulates { memory.notes := memory.notes.(list := Some(all)); }
          return;
        }
      }
      if localKnowledge != [] {
        notes := notes.(cache := Some(localKnowledge));
        return localKnowledge;
      }
      return notes.fallback;
    }

    method AppendKnowledgeNote(note: string, f: ReadFaults, w: WriteFaults) returns (cid: Option<string>)
      modifies this`notes, memory`notes
      ensures (notes, memory.notes)
              == AfterSave(useStoracha, None, localKnowledge, old(notes), old(memory.notes), note, f, w)
      ensures cid == if useStoracha then w.cid else None
    {
      var existing := GetKnowledgeNotes(f);
      var updated := existing + [note];
      notes := notes.(cache := Some(updated));
      cid := None;
      if useStoracha {
        cid := w.cid;
        if cid.Some? {
          memory.notes := memory.notes.(vault := memory.notes.vault[cid.value := updated]);
          if w.pointerLands { memory.notes := memory.notes.(pointer := cid); }
        }
      } else {
        notes := notes.(fallback := updated);
      }
      if w.listLands { memory.notes := memory.notes.(list := Some(updated)); }
    }
  }
}

/** Histories of reads, saves and restarts. */
module HistoryRuns {
  import opened Wrappers
  import opened HistorySpec

  /** The fixed circumstances of a worker and a section. */
  datatype Setup<R> = Setup(useStoracha: bool, cap: Option<nat>, seed: seq<R>)

  datatype Event<R> = Reads(f: ReadFaults) | Saves(entry: R, f: ReadFaults, w: WriteFaults)

  function Do<R>(s: Setup<R>, l: Local<R>, r: Remote<R>, e: Event<R>): (Local<R>, Remote<R>) {
    match e
    case Reads(f) => AfterRead(s.useStoracha, s.seed, l, r, f)
    case Saves(entry, f, w) => AfterSave(s.useStoracha, s.cap, s.seed, l, r, entry, f, w)
  }

  function After<R>(s: Setup<R>, l: Local<R>, r: Remote<R>, run: seq<Event<R>>): (Local<R>, Remote<R>) {
    if run == [] then (l, r)
    else var (l', r') := After(s, l, r, run[..|run| - 1]); Do(s, l', r', run[|run| - 1])
  }

  function Saved<R>(run: seq<Event<R>>): seq<R> {
    if run == [] then []
    else Saved(run[..|run| - 1]) + if run[|run| - 1].Saves? then [run[|run| - 1].entry] else []
  }

  lemma KeptOnce<R>(cap: Option<nat>, a: seq<R>, b: seq<R>)
    ensures Kept(cap, Kept(cap, a) + b) == Kept(cap, a + b)
  {
  }

  /** What the process lists after `run` from a process that has cached `initial`. */
  function Expected<R>(s: Setup<R>, initial: seq<R>, run: seq<Event<R>>): seq<R> {
    if Saved(run) == [] then initial else Kept(s.cap, initial + Saved(run))
  }

  /**
   * Once a process has cached a list, then whatever storage failures strike, the
   * list it sees is that list followed by everything saved, cut to the last
   * entries by the first save.
   */
  lemma {:induction false} ProcessSeesAllSaves<R>(s: Setup<R>, l: Local<R>, r: Remote<R>, run: seq<Event<R>>)
    requires l.cache.Some?
    ensures After(s, l, r, run).0.cache == Some(Expected(s, l.cache.value, run))
  {
    if run != [] {
      var init := run[..|run| - 1];
      ProcessSeesAllSaves(s, l, r, init);
      if run[|run| - 1].Saves? {
        OneMoreSave(s, l.cache.value, run);
      } else {
        assert Saved(run) == Saved(init);
      }
    }
  }

  lemma OneMoreSave<R>(s: Setup<R>, initial: seq<R>, run: seq<Event<R>>)
    requires run != [] && run[|run| - 1].Saves?
    ensures Expected(s, initial, run) == Kept(s.cap, Expected(s, initial, run[..|run| - 1]) + [run[|run| - 1].entry])
  {
    var (before, entry) := (Saved(run[..|run| - 1]), run[|run| - 1].entry);
    assert Saved(run) == before + [entry];
    KeptOnce(s.cap, initial + before, [entry]);
    assert initial + before + [entry] == initial + Saved(run);
    assert initial + [] == initial;
  }

  lemma {:induction false} AfterSplit<R>(s: Setup<R>, l: Local<R>, r: Remote<R>, a: seq<Event<R>>, b: seq<Event<R>>)
    ensures var (l', r') := After(s, l, r, a); After(s, l, r, a + b) == After(s, l', r', b)
    ensures Saved(a + b) == Saved(a) + Saved(b)
  {
    if b == [] {
      assert a + b == a;
    } else {
      assert (a + b)[..|a + b| - 1] == a + b[..|b| - 1];
      AfterSplit(s, l, r, a, b[..|b| - 1]);
    }
  }

  /**
   * After a first save, and any reads and saves after it, the process lists the
   * last entries of what that first save read, followed by everything saved.
   */
  lemma SavesKeepTheLastEntries<R>(s: Setup<R>, l: Local<R>, r: Remote<R>, run: seq<Event<R>>)
    requires run != [] && run[0].Saves?
    ensures After(s, l, r, run).0.cache == Some(Kept(s.cap, Seen(s.useStoracha, s.seed, l, r, run[0].f) + Saved(run)))
  {
    hide After, Do, Saved, Kept, Seen, Commit;
    var (first, rest) := ([run[0]], run[1..]);
    var initial := Seen(s.useStoracha, s.seed, l, r, run[0].f);
    assert run == first + rest;
    AfterSplit(s, l, r, first, rest);
    FirstSave(s, l, r, run[0]);
    var (l', r') := After(s, l, r, first);
    ProcessSeesAllSaves(s, l', r', rest);
    KeptOnce(s.cap, initial + [run[0].entry], Saved(rest));
    assert initial + [run[0].entry] + Saved(rest) == initial + Saved(run);
    assert initial + [run[0].entry] + [] == initial + [run[0].entry];
  }

  lemma FirstSave<R>(s: Setup<R>, l: Local<R>, r: Remote<R>, e: Event<R>)
    requires e.Saves?
    ensures After(s, l, r, [e]).0.cache == Some(Kept(s.cap, Seen(s.useStoracha, s.seed, l, r, e.f) + [e.entry]))
    ensures Saved([e]) == [e.entry]
  {
    assert [e][..0] == [];
  }

  // ---------------------------------------------------------------- restarts

  /** The length of the run up to and including its last save whose list write landed; zero without one. */
  function LastLanded<R>(run: seq<Event<R>>): (n: nat)
    ensures n <= |run|
  {
    if run == [] then 0
    else if run[|run| - 1].Saves? && run[|run| - 1].w.listLands then |run|
    else LastLanded(run[..|run| - 1])
  }

  lemma DoWrites<R>(s: Setup<R>, l: Local<R>, r: Remote<R>, e: Event<R>)
    requires l.cache.Some?
    ensures Do(s, l, r, e).1.list
            == if e.Saves? && e.w.listLands then Some(Kept(s.cap, l.cache.value + [e.entry])) else r.list
  {
  }

  lemma {:induction false} RemoteListIsLastLanded<R>(s: Setup<R>, l: Local<R>, r: Remote<R>, run: seq<Event<R>>)
    requires l.cache.Some?
    ensures var n := LastLanded(run);
            After(s, l, r, run).1.list == if n == 0 then r.list else Some(Expected(s, l.cache.value, run[..n]))
  {
    hide Do, Expected, Saved, Kept;
    if run != [] {
      var init := run[..|run| - 1];
      ProcessSeesAllSaves(s, l, r, init);
      RemoteListIsLastLanded(s, l, r, init);
      DoWrites(s, After(s, l, r, init).0, After(s, l, r, init).1, run[|run| - 1]);
      if run[|run| - 1].Saves? && run[|run| - 1].w.listLands {
        OneMoreSave(s, l.cache.value, run);
        assert run[..|run|] == run;
      } else {
        assert init[..LastLanded(run)] == run[..LastLanded(run)];
      }
    }
  }

  /**
   * A restarted process that can read the shared memory takes up the list as it
   * stood at the last save whose write landed: exactly the saves since are lost.
   */
  lemma RestartLosesUnlandedSaves<R>(s: Setup<R>, l: Local<R>, r: Remote<R>, run: seq<Event<R>>, f: ReadFaults)
    requires l.cache.Some? && f.listReads && LastLanded(run) > 0
    ensures var n := LastLanded(run);
            && Seen(s.useStoracha, s.seed, Local(None, []), After(s, l, r, run).1, f)
               == Expected(s, l.cache.value, run[..n])
            && Saved(run) == Saved(run[..n]) + Saved(run[n..])
            && forall k :: n <= k < |run| && run[k].Saves? ==> !run[k].w.listLands
  {
    hide Do, After, Expected, Saved, Kept;
    var n := LastLanded(run);
    RemoteListIsLastLanded(s, l, r, run);
    assert run == run[..n] + run[n..];
    AfterSplit(s, l, r, run[..n], run[n..]);
    NoneLandedSince(run);
  }

  lemma {:induction false} NoneLandedSince<R>(run: seq<Event<R>>)
    ensures forall k :: LastLanded(run) <= k < |run| && run[k].Saves? ==> !run[k].w.listLands
  {
    if run != [] { NoneLandedSince(run[..|run| - 1]); }
  }

  /** The length of the run up to its last save that reached the vault and the pointer. */
  function LastVaulted<R>(run: seq<Event<R>>): (n: nat)
    ensures n <= |run|
  {
    if run == [] then 0
    else if Vaulted(run[|run| - 1]) then |run|
    else LastVaulted(run[..|run| - 1])
  }

  predicate Vaulted<R>(e: Event<R>) { e.Saves? && e.w.cid.Some? && e.w.pointerLands }

  /** Encryption gives every upload an address of its own. */
  ghost predicate FreshCids<R>(run: seq<Event<R>>) {
    forall i, j :: 0 <= i < j < |run| && run[i].Saves? && run[j].Saves? && run[i].w.cid.Some? ==>
      run[i].w.cid != run[j].w.cid
  }

  lemma {:induction false} PointerIsLastVaulted<R>(s: Setup<R>, l: Local<R>, r: Remote<R>, run: seq<Event<R>>)
    requires l.cache.Some? && s.useStoracha && FreshCids(run) && LastVaulted(run) > 0
    ensures var (n, r') := (LastVaulted(run), After(s, l, r, run).1);
            && run[n - 1].Saves? && run[n - 1].w.cid.Some? && r'.pointer == run[n - 1].w.cid
            && r'.pointer.value in r'.vault && r'.vault[r'.pointer.value] == Expected(s, l.cache.value, run[..n])
  {
    var init := run[..|run| - 1];
    ProcessSeesAllSaves(s, l, r, init);
    if Vaulted(run[|run| - 1]) {
      OneMoreSave(s, l.cache.value, run);
      assert run[..|run|] == run;
    } else {
      PointerIsLastVaulted(s, l, r, init);
      assert init[..LastVaulted(run)] == run[..LastVaulted(run)];
    }
  }

  /** A restart that cannot read the shared list recovers the last vaulted one. */
  lemma ColdStartRecoversVault<R>(s: Setup<R>, l: Local<R>, r: Remote<R>, run: seq<Event<R>>, f: ReadFaults)
    requires l.cache.Some? && s.useStoracha && FreshCids(run) && LastVaulted(run) > 0
    requires !f.listReads && f.pointerReads && f.vaultReads
    requires forall k :: 0 <= k < |run| && run[k].Saves? && run[k].w.cid.Some? ==> "baf" <= run[k].w.cid.value
    ensures Seen(s.useStoracha, s.seed, Local(None, []), After(s, l, r, run).1, f)
            == Expected(s, l.cache.value, run[..LastVaulted(run)])
  {
    PointerIsLastVaulted(s, l, r, run);
  }

  // ---------------------------------------------------------------- cold starts

  /** What one more save leaves of a list. */
  function Retained<R>(cap: Option<nat>, h: seq<R>): seq<R> {
    if cap.None? then h else Last(h, if cap.value == 0 then 0 else cap.value - 1)
  }

  lemma SaveRetains<R>(cap: Option<nat>, a: seq<R>, b: seq<R>, entry: R)
    ensures Kept(cap, a + [entry]) == Kept(cap, b + [entry]) <==> Retained(cap, a) == Retained(cap, b)
  {
    OneSave(cap, a, entry);
    OneSave(cap, b, entry);
    if Retained(cap, a) + [entry] == Retained(cap, b) + [entry] {
      assert Retained(cap, a) == (Retained(cap, a) + [entry])[..|Retained(cap, a)|];
    }
  }

  lemma OneSave<R>(cap: Option<nat>, h: seq<R>, entry: R)
    ensures Kept(cap, h + [entry]) == if cap == Some(0) then [] else Retained(cap, h) + [entry]
    ensures cap == Some(0) ==> Retained(cap, h) == []
  {
  }

  /**
   * The first save of a restarted process, whatever the configuration, extends the
   * stored list exactly if the list was read; or the vault gave a list the save
   * retains the same of; or neither came through and the local identity's list,
   * empty for most, holds all that would have been retained.
   */
  lemma UnreadHistoryIsOverwritten<R>(s: Setup<R>, history: seq<R>, r: Remote<R>, entry: R, f: ReadFaults,
                                      w: WriteFaults)
    requires r.list == Some(history) && w.listLands
    ensures var list := AfterSave(s.useStoracha, s.cap, s.seed, Local(None, []), r, entry, f, w).1.list;
            var other := if FromVault(s.useStoracha, r, f) then r.vault[r.pointer.value] else s.seed;
            list == Some(Kept(s.cap, history + [entry])) <==>
            f.listReads || Retained(s.cap, history) == Retained(s.cap, other)
  {
    SaveRetains(s.cap, Seen(s.useStoracha, s.seed, Local(None, []), r, f), history, entry);
  }

  /**
   * For decisions without a vault: exactly if the list was read or is empty; and
   * else nothing but the new entry is left.
   */
  lemma UnreadDecisionsAreLost<R>(history: seq<R>, r: Remote<R>, entry: R, f: ReadFaults, w: WriteFaults)
    requires r.list == Some(history) && w.listLands
    ensures var list := AfterSave(false, Some(DECISIONS_KEPT), [], Local(None, []), r, entry, f, w).1.list;
            && (list == Some(Last(history + [entry], DECISIONS_KEPT)) <==> f.listReads || history == [])
            && (!f.listReads ==> list == Some([entry]))
  {
    UnreadHistoryIsOverwritten(Setup(false, Some(DECISIONS_KEPT), []), history, r, entry, f, w);
    assert [] + [entry] == [entry];
  }

  // ---------------------------------------------------------------- recent entries

  /**
   * Of a kept history, the recent entries asked for are those of the whole history
   * exactly when not more than the cap are asked for or there are.
   */
  lemma RecentIsExact<R>(history: seq<R>, limit: int)
    ensures limit > 0 ==>
              (SliceFromEnd(Last(history, 20), limit) == Last(history, limit) <==>
               limit <= 20 || |history| <= 20)
    ensures limit == 0 ==> SliceFromEnd(Last(history, 20), limit) == Last(history, 20)
    ensures limit < 0 ==>
              |SliceFromEnd(history, limit)| == if -limit <= |history| then |history| + limit else 0
  {
  }

  // ---------------------------------------------------------------- reads and saves in the fields

  /** The last `k` entries, or all there are. */
  lemma LastIsSuffix<R>(s: seq<R>, k: nat)
    ensures |Last(s, k)| == (if k <= |s| then k else |s|) && Last(s, k) == s[|s| - |Last(s, k)|..]
  {
  }

  /**
   * The layers of a read: the cache; the shared list; if a vault is in use, what a
   * `baf` pointer leads to there, which may repair the shared list; the local
   * identity's list. What is found is cached. If nothing is, the fallback is
   * returned, and not cached.
   */
  lemma ReadsInLayers<R>(useStoracha: bool, seed: seq<R>, l: Local<R>, r: Remote<R>, f: ReadFaults)
    ensures var (seen, (l', r')) := (Seen(useStoracha, seed, l, r, f), AfterRead(useStoracha, seed, l, r, f));
            var vaulted := && useStoracha && f.pointerReads && r.pointer.Some? && |r.pointer.value| >= 3
                           && r.pointer.value[..3] == "baf" && f.vaultReads && r.pointer.value in r.vault;
            && l'.fallback == l.fallback && r'.pointer == r.pointer && r'.vault == r.vault
            && if l.cache.Some? then seen == l.cache.value && l' == l && r' == r
               else if f.listReads && r.list.Some? then seen == r.list.value && l'.cache == r.list && r' == r
               else if vaulted then
                 && seen == r.vault[r.pointer.value] && l'.cache == Some(seen)
                 && r'.list == if f.repopulates then Some(seen) else r.list
               else if seed != [] then seen == seed && l'.cache == Some(seed) && r' == r
               else seen == l.fallback && l' == l && r' == r
  {
  }

  /**
   * A save puts the list with its entry, cut to the cap, into the cache, and with
   * no vault in use into the fallback; into the vault under its address, and the
   * pointer there; and into the shared list: each as its write lands.
   */
  lemma SavesInFields<R>(useStoracha: bool, cap: Option<nat>, seed: seq<R>, l: Local<R>, r: Remote<R>, entry: R,
                         f: ReadFaults, w: WriteFaults)
    ensures var (l1, r1) := AfterRead(useStoracha, seed, l, r, f);
            var all := Seen(useStoracha, seed, l, r, f) + [entry];
            var kept := if cap.Some? && |all| > cap.value then all[|all| - cap.value..] else all;
            var (l', r') := AfterSave(useStoracha, cap, seed, l, r, entry, f, w);
            && l'.cache == Some(kept) && l'.fallback == (if useStoracha then l.fallback else kept)
            && r'.list == (if w.listLands then Some(kept) else r1.list)
            && r'.vault == (if useStoracha && w.cid.Some? then r1.vault[w.cid.value := kept] else r1.vault)
            && r'.pointer == if useStoracha && w.cid.Some? && w.pointerLands then w.cid else r1.pointer
  {
  }

  /** The entries from the end: all but the first few for a negative limit, all for zero. */
  lemma SlicesFromEnd<R>(s: seq<R>, limit: int)
    ensures SliceFromEnd(s, limit)
            == if limit > |s| then s else if limit > 0 then s[|s| - limit..]
               else if limit >= -|s| then s[-limit..] else []
  {
  }
}
