/**
 * Reads and saves of one process that overlap. A read of an empty cache is in
 * flight until it resolves, and then sets the cache whatever happened meanwhile; a
 * save commits to the cache after its read, and its list write lands later, or not.
 *
 * `L` is what stands for a list and `E` for an entry, so that the same protocol can
 * be followed on the lists themselves and on where they come from.
 */
module HistoryProtocol {
  import opened Wrappers
  import opened HistorySpec

  /** A read, or with an entry a save, that has not finished; `began` is the step that began it. */
  datatype Job<L, E> =
    | Cold(entry: Option<E>, began: nat)                                        // the cache was empty
    | Fetched(entry: Option<E>, got: Option<L>, repairs: bool, began: nat)      // the outside has answered
    | Ready(save: E, existing: L, began: nat)                                   // a save that has its list

  /** A list write under way: a save's, or a repair after a read from the vault. */
  datatype Write = OfSave(id: nat) | OfRepair(id: nat)

  datatype Process<L, E> = Process(
    cache: Option<L>, fallback: L, list: Option<L>, pointer: Option<string>, vault: map<string, L>,
    jobs: map<nat, Job<L, E>>, writes: map<Write, L>)

  datatype Step<E> =
    | Begins(id: nat, entry: Option<E>)
    | Fetches(id: nat, f: ReadFaults)
    | Resolves(id: nat)
    | Commits(id: nat)
    | Vaults(id: nat, cid: string, pointerLands: bool)
    | Lands(write: Write, lands: bool)

  /** `seed` is the local identity file's list, if it has one. */
  datatype Ways<L> = Ways(useStoracha: bool, seed: Option<L>)

  predicate VaultReads<L, E>(y: Ways<L>, p: Process<L, E>, f: ReadFaults) {
    && y.useStoracha && f.pointerReads && p.pointer.Some? && "baf" <= p.pointer.value
    && f.vaultReads && p.pointer.value in p.vault
  }

  predicate Unused<L, E>(p: Process<L, E>, id: nat) {
    id !in p.jobs && OfSave(id) !in p.writes && OfRepair(id) !in p.writes
  }

  predicate IsFetched<L, E>(p: Process<L, E>, id: nat) { id in p.jobs && p.jobs[id].Fetched? }
  predicate IsReady<L, E>(p: Process<L, E>, id: nat) { id in p.jobs && p.jobs[id].Ready? }

  function Answer<L, E>(y: Ways<L>, p: Process<L, E>, j: Job<L, E>, f: ReadFaults): Job<L, E>
    requires j.Cold?
  {
    if f.listReads && p.list.Some? then Fetched(j.entry, p.list, false, j.began)
    else if VaultReads(y, p, f) then Fetched(j.entry, Some(p.vault[p.pointer.value]), f.repopulates, j.began)
    else Fetched(j.entry, y.seed, false, j.began)
  }

  function Begin<L, E>(p: Process<L, E>, id: nat, entry: Option<E>, n: nat): Process<L, E> {
    if !Unused(p, id) then p
    else if p.cache.None? then p.(jobs := p.jobs[id := Cold(entry, n)])
    else if entry.Some? then p.(jobs := p.jobs[id := Ready(entry.value, p.cache.value, n)])
    else p
  }

  function Fetch<L, E>(y: Ways<L>, p: Process<L, E>, id: nat, f: ReadFaults): Process<L, E> {
    if id in p.jobs && p.jobs[id].Cold? then p.(jobs := p.jobs[id := Answer(y, p, p.jobs[id], f)]) else p
  }

  /** A read that found a list sets the cache, whatever is there by now. */
  function Resolve<L, E>(p: Process<L, E>, id: nat): Process<L, E> {
    if !IsFetched(p, id) then p
    else
      var j := p.jobs[id];
      var existing := if j.got.Some? then j.got.value else p.fallback;
      p.(cache := if j.got.Some? then j.got else p.cache,
         jobs := if j.entry.Some? then p.jobs[id := Ready(j.entry.value, existing, j.began)] else p.jobs - {id},
         writes := if j.repairs && j.got.Some? then p.writes[OfRepair(id) := j.got.value] else p.writes)
  }

  function Commit<L, E>(useStoracha: bool, extend: (L, E) -> L, p: Process<L, E>, id: nat): Process<L, E> {
    if !IsReady(p, id) then p
    else
      var updated := extend(p.jobs[id].existing, p.jobs[id].save);
      p.(cache := Some(updated), fallback := if useStoracha then p.fallback else updated,
         jobs := p.jobs - {id}, writes := p.writes[OfSave(id) := updated])
  }

  function Vault<L, E>(useStoracha: bool, p: Process<L, E>, id: nat, cid: string, pointerLands: bool): Process<L, E> {
    if !useStoracha || OfSave(id) !in p.writes then p
    else p.(vault := p.vault[cid := p.writes[OfSave(id)]], pointer := if pointerLands then Some(cid) else p.pointer)
  }

  function Land<L, E>(p: Process<L, E>, write: Write, lands: bool): Process<L, E> {
    if write !in p.writes then p
    else p.(list := if lands then Some(p.writes[write]) else p.list, writes := p.writes - {write})
  }

  /** Step number `n`; one that cannot happen changes nothing. */
  function Take<L, E>(y: Ways<L>, extend: (L, E) -> L, p: Process<L, E>, e: Step<E>, n: nat): Process<L, E> {
    match e
    case Begins(id, entry) => Begin(p, id, entry, n)
    case Fetches(id, f) => Fetch(y, p, id, f)
    case Resolves(id) => Resolve(p, id)
    case Commits(id) => Commit(y.useStoracha, extend, p, id)
    case Vaults(id, cid, pointerLands) => Vault(y.useStoracha, p, id, cid, pointerLands)
    case Lands(write, lands) => Land(p, write, lands)
  }

  // ---------------------------------------------------------------- one protocol, two readings

  function MapOption<L, M>(h: L -> M, o: Option<L>): Option<M> {
    if o.Some? then Some(h(o.value)) else None
  }

  function MapJob<L, E, M, F>(h: L -> M, g: E -> F, j: Job<L, E>): Job<M, F> {
    match j
    case Cold(entry, began) => Cold(MapOption(g, entry), began)
    case Fetched(entry, got, repairs, began) => Fetched(MapOption(g, entry), MapOption(h, got), repairs, began)
    case Ready(save, existing, began) => Ready(g(save), h(existing), began)
  }

  function MapValues<K, A, B>(f: A -> B, m: map<K, A>): map<K, B> {
    map k | k in m :: f(m[k])
  }

  function JobMapper<L, E, M, F>(h: L -> M, g: E -> F): Job<L, E> -> Job<M, F> {
    j => MapJob(h, g, j)
  }

  function MapProcess<L, E, M, F>(h: L -> M, g: E -> F, p: Process<L, E>): Process<M, F> {
    Process(MapOption(h, p.cache), h(p.fallback), MapOption(h, p.list), p.pointer,
            MapValues(h, p.vault), MapValues(JobMapper(h, g), p.jobs), MapValues(h, p.writes))
  }

  function MapStep<E, F>(g: E -> F, e: Step<E>): Step<F> {
    match e
    case Begins(id, entry) => Begins(id, MapOption(g, entry))
    case Fetches(id, f) => Fetches(id, f)
    case Resolves(id) => Resolves(id)
    case Commits(id) => Commits(id)
    case Vaults(id, cid, pointerLands) => Vaults(id, cid, pointerLands)
    case Lands(write, lands) => Lands(write, lands)
  }

  function MapWays<L, M>(h: L -> M, y: Ways<L>): Ways<M> { Ways(y.useStoracha, MapOption(h, y.seed)) }

  lemma MapUpdates<K, A, B>(f: A -> B, m: map<K, A>, k: K, a: A)
    ensures MapValues(f, m[k := a]) == MapValues(f, m)[k := f(a)]
    ensures MapValues(f, m - {k}) == MapValues(f, m) - {k}
  {
  }

  lemma BeginCommutes<L, E, M, F>(h: L -> M, g: E -> F, p: Process<L, E>, id: nat, entry: Option<E>, n: nat)
    ensures MapProcess(h, g, Begin(p, id, entry, n)) == Begin(MapProcess(h, g, p), id, MapOption(g, entry), n)
  {
    MapUpdates(JobMapper(h, g), p.jobs, id, Cold(entry, n));
    if entry.Some? && p.cache.Some? { MapUpdates(JobMapper(h, g), p.jobs, id, Ready(entry.value, p.cache.value, n)); }
    KeysStay(h, g, p, id);
    hide MapValues;
  }

  lemma KeysStay<L, E, M, F>(h: L -> M, g: E -> F, p: Process<L, E>, id: nat)
    ensures Unused(p, id) <==> Unused(MapProcess(h, g, p), id)
    ensures id in p.jobs <==> id in MapProcess(h, g, p).jobs
    ensures id in p.jobs ==> MapProcess(h, g, p).jobs[id] == MapJob(h, g, p.jobs[id])
    ensures OfSave(id) in p.writes <==> OfSave(id) in MapProcess(h, g, p).writes
    ensures OfSave(id) in p.writes ==> MapProcess(h, g, p).writes[OfSave(id)] == h(p.writes[OfSave(id)])
  {
  }

  lemma FetchCommutes<L, E, M, F>(y: Ways<L>, h: L -> M, g: E -> F, p: Process<L, E>, id: nat, f: ReadFaults)
    ensures MapProcess(h, g, Fetch(y, p, id, f)) == Fetch(MapWays(h, y), MapProcess(h, g, p), id, f)
  {
    KeysStay(h, g, p, id);
    if id in p.jobs && p.jobs[id].Cold? {
      MapUpdates(JobMapper(h, g), p.jobs, id, Answer(y, p, p.jobs[id], f));
      AnswerCommutes(y, h, g, p, p.jobs[id], f);
    }
    hide MapValues, Answer, VaultReads;
  }

  lemma AnswerCommutes<L, E, M, F>(y: Ways<L>, h: L -> M, g: E -> F, p: Process<L, E>, j: Job<L, E>, f: ReadFaults)
    requires j.Cold?
    ensures MapJob(h, g, Answer(y, p, j, f)) == Answer(MapWays(h, y), MapProcess(h, g, p), MapJob(h, g, j), f)
  {
  }

  lemma ResolveCommutes<L, E, M, F>(h: L -> M, g: E -> F, p: Process<L, E>, id: nat)
    ensures MapProcess(h, g, Resolve(p, id)) == Resolve(MapProcess(h, g, p), id)
  {
    KeysStay(h, g, p, id);
    if IsFetched(p, id) {
      var j := p.jobs[id];
      var existing := if j.got.Some? then j.got.value else p.fallback;
      if j.entry.Some? { MapUpdates(JobMapper(h, g), p.jobs, id, Ready(j.entry.value, existing, j.began)); }
      MapUpdates(JobMapper(h, g), p.jobs, id, j);
      MapUpdates(h, p.writes, OfRepair(id), existing);
    }
    hide MapValues;
  }

  lemma CommitCommutes<L, E, M, F>(useStoracha: bool, extend: (L, E) -> L, extend': (M, F) -> M, h: L -> M, g: E -> F,
                                   p: Process<L, E>, id: nat)
    requires forall l, x :: h(extend(l, x)) == extend'(h(l), g(x))
    ensures MapProcess(h, g, Commit(useStoracha, extend, p, id))
            == Commit(useStoracha, extend', MapProcess(h, g, p), id)
  {
    KeysStay(h, g, p, id);
    if IsReady(p, id) {
      var updated := extend(p.jobs[id].existing, p.jobs[id].save);
      MapUpdates(JobMapper(h, g), p.jobs, id, p.jobs[id]);
      MapUpdates(h, p.writes, OfSave(id), updated);
    }
    hide MapValues;
  }

  lemma VaultCommutes<L, E, M, F>(useStoracha: bool, h: L -> M, g: E -> F, p: Process<L, E>, id: nat, cid: string,
                                  lands: bool)
    ensures MapProcess(h, g, Vault(useStoracha, p, id, cid, lands))
            == Vault(useStoracha, MapProcess(h, g, p), id, cid, lands)
  {
    KeysStay(h, g, p, id);
    if OfSave(id) in p.writes { MapUpdates(h, p.vault, cid, p.writes[OfSave(id)]); }
    hide MapValues;
  }

  lemma LandCommutes<L, E, M, F>(h: L -> M, g: E -> F, p: Process<L, E>, write: Write, lands: bool)
    ensures MapProcess(h, g, Land(p, write, lands)) == Land(MapProcess(h, g, p), write, lands)
  {
    if write in p.writes { MapUpdates(h, p.writes, write, p.writes[write]); }
  }

  /**
   * The protocol only moves lists about and extends them: a reading of lists that
   * goes with extending goes with every step.
   */
  lemma StepsCommute<L, E, M, F>(y: Ways<L>, extend: (L, E) -> L, extend': (M, F) -> M, h: L -> M, g: E -> F,
                                 p: Process<L, E>, e: Step<E>, n: nat)
    requires forall l, x :: h(extend(l, x)) == extend'(h(l), g(x))
    ensures MapProcess(h, g, Take(y, extend, p, e, n))
            == Take(MapWays(h, y), extend', MapProcess(h, g, p), MapStep(g, e), n)
  {
    hide Begin, Fetch, Resolve, Commit, Vault, Land, MapProcess;
    match e
    case Begins(id, entry) => BeginCommutes(h, g, p, id, entry, n);
    case Fetches(id, f) => FetchCommutes(y, h, g, p, id, f);
    case Resolves(id) => ResolveCommutes(h, g, p, id);
    case Commits(id) => CommitCommutes(y.useStoracha, extend, extend', h, g, p, id);
    case Vaults(id, cid, lands) => VaultCommutes(y.useStoracha, h, g, p, id, cid, lands);
    case Lands(write, lands) => LandCommutes(h, g, p, write, lands);
  }
}

/** Which entries survive overlapping reads and saves. */
module HistoryRaces {
  import opened Wrappers
  import opened HistorySpec
  import opened HistoryProtocol
  import HistoryRuns

  /** A save, by the step that began it. */
  datatype Save<R> = Save(number: nat, entry: R)

  /** Where a list comes from: one that was there at first, and the saves that extended it since. */
  datatype Line<R> = Line(root: seq<R>, saves: seq<Save<R>>)

  function Entries<R>(saves: seq<Save<R>>): (rs: seq<R>)
    ensures |rs| == |saves| && forall k :: 0 <= k < |rs| ==> rs[k] == saves[k].entry
  {
    seq(|saves|, k requires 0 <= k < |saves| => saves[k].entry)
  }

  /** The list a line stands for. */
  function Value<R>(cap: Option<nat>, line: Line<R>): seq<R> {
    if line.saves == [] then line.root else Kept(cap, line.root + Entries(line.saves))
  }

  function Grown<R>(line: Line<R>, save: Save<R>): Line<R> { Line(line.root, line.saves + [save]) }

  function Valuer<R>(cap: Option<nat>): Line<R> -> seq<R> { line => Value(cap, line) }
  function Extender<R>(cap: Option<nat>): (seq<R>, R) -> seq<R> { (list, entry) => Kept(cap, list + [entry]) }
  function Grower<R>(): (Line<R>, Save<R>) -> Line<R> { (line, save) => Grown(line, save) }
  function EntryOf<R>(): Save<R> -> R { (save: Save<R>) => save.entry }
  function Rooted<R>(): seq<R> -> Line<R> { list => Line(list, []) }
  function Numbered<R>(n: nat): R -> Save<R> { entry => Save(n, entry) }

  /** A process on lists before anything has begun. */
  predicate AtRest<L, E>(p: Process<L, E>) { p.jobs == map[] && p.writes == map[] }

  /** Circumstances and first state of a process. */
  datatype Setting<R> = Setting(y: Ways<seq<R>>, cap: Option<nat>, p: Process<seq<R>, R>)

  /** The process after `n` steps. */
  function At<R>(x: Setting<R>, run: seq<Step<R>>, n: nat): Process<seq<R>, R>
    requires n <= |run|
  {
    if n == 0 then x.p else Take(x.y, Extender(x.cap), At(x, run, n - 1), run[n - 1], n - 1)
  }

  /** The same steps on lines: every list at first is a root, every save is known by its step. */
  function LinesAt<R>(x: Setting<R>, run: seq<Step<R>>, n: nat): Process<Line<R>, Save<R>>
    requires n <= |run|
  {
    if n == 0 then MapProcess(Rooted(), Numbered(0), x.p)
    else Take(MapWays(Rooted(), x.y), Grower(), LinesAt(x, run, n - 1), MapStep(Numbered(n - 1), run[n - 1]), n - 1)
  }

  lemma GrowingExtends<R>(cap: Option<nat>, line: Line<R>, save: Save<R>)
    ensures Value(cap, Grown(line, save)) == Kept(cap, Value(cap, line) + [save.entry])
  {
    var grown := line.saves + [save];
    assert Entries(grown) == Entries(line.saves) + [save.entry];
    if line.saves == [] {
      assert Entries(grown) == [save.entry];
    } else {
      HistoryRuns.KeptOnce(cap, line.root + Entries(line.saves), [save.entry]);
      assert line.root + Entries(line.saves) + [save.entry] == line.root + Entries(grown);
    }
  }

  lemma StepKeepsEntry<R>(e: Step<R>, n: nat)
    ensures MapStep(EntryOf(), MapStep(Numbered(n), e)) == e
  {
  }

  lemma RootsStand<R>(y: Ways<seq<R>>, cap: Option<nat>, p: Process<seq<R>, R>)
    requires AtRest(p)
    ensures MapProcess(Valuer(cap), EntryOf(), MapProcess(Rooted(), Numbered(0), p)) == p
  {
    var v: map<string, seq<R>> := MapValues(Valuer(cap), MapValues(Rooted(), p.vault));
    assert v == p.vault;
  }

  lemma WaysStand<R>(y: Ways<seq<R>>, cap: Option<nat>)
    ensures MapWays(Valuer(cap), MapWays(Rooted(), y)) == y
  {
  }

  lemma LineStep<R>(y: Ways<seq<R>>, cap: Option<nat>, q: Process<Line<R>, Save<R>>, e: Step<R>, n: nat)
    ensures MapProcess(Valuer(cap), EntryOf(), Take(MapWays(Rooted(), y), Grower(), q, MapStep(Numbered(n), e), n))
            == Take(y, Extender(cap), MapProcess(Valuer(cap), EntryOf(), q), e, n)
  {
    hide MapProcess, Take, MapStep, MapWays;
    forall l: Line<R>, x: Save<R>
      ensures Valuer(cap)(Grower()(l, x)) == Extender(cap)(Valuer(cap)(l), EntryOf()(x))
    {
      GrowingExtends(cap, l, x);
    }
    hide Valuer, Extender, Grower, Value, Kept;
    StepKeepsEntry(e, n);
    WaysStand(y, cap);
    StepsCommute(MapWays(Rooted(), y), Grower(), Extender(cap), Valuer(cap), EntryOf(), q, MapStep(Numbered(n), e), n);
  }

  /**
   * After any interleaving of reads, saves and write completions, every list, in
   * the cache, the stores and the jobs, is its root followed by the entries of the
   * saves on its line and no others, cut to the last ones.
   */
  lemma {:induction false} ListsFollowLines<R>(x: Setting<R>, run: seq<Step<R>>, n: nat)
    requires AtRest(x.p) && n <= |run|
    ensures At(x, run, n) == MapProcess(Valuer(x.cap), EntryOf(), LinesAt(x, run, n))
  {
    hide MapProcess, Take, MapStep, MapWays, Valuer, Extender, Grower;
    if n == 0 {
      RootsStand(x.y, x.cap, x.p);
    } else {
      ListsFollowLines(x, run, n - 1);
      LineStep(x.y, x.cap, LinesAt(x, run, n - 1), run[n - 1], n - 1);
    }
  }

  // ---------------------------------------------------------------- a save on its own

  /** A process with nothing under way. */
  function Resting<R>(l: Local<R>, r: Remote<R>): Process<seq<R>, R> {
    Process(l.cache, l.fallback, r.list, r.pointer, r.vault, map[], map[])
  }

  function WaysOf<R>(useStoracha: bool, seed: seq<R>): Ways<seq<R>> {
    Ways(useStoracha, if seed == [] then None else Some(seed))
  }

  /** The steps of the reading half, and of the rest; those that do not apply change nothing. */
  function SoloRead<R>(y: Ways<seq<R>>, cap: Option<nat>, p: Process<seq<R>, R>, entry: R,
                       f: ReadFaults): Process<seq<R>, R> {
    var x := Extender(cap);
    Take(y, x, Take(y, x, Take(y, x, Take(y, x, p, Begins(0, Some(entry)), 0), Fetches(0, f), 1), Resolves(0), 2),
         Lands(OfRepair(0), true), 3)
  }

  function SoloWrite<R>(y: Ways<seq<R>>, cap: Option<nat>, p: Process<seq<R>, R>, w: WriteFaults): Process<seq<R>, R> {
    var x := Extender(cap);
    var committed := Take(y, x, p, Commits(0), 4);
    var vaulted := if w.cid.Some? then Take(y, x, committed, Vaults(0, w.cid.value, w.pointerLands), 5) else committed;
    Take(y, x, vaulted, Lands(OfSave(0), w.listLands), 6)
  }

  lemma SoloReadIsRead<R>(useStoracha: bool, seed: seq<R>, cap: Option<nat>, l: Local<R>, r: Remote<R>, entry: R,
                          f: ReadFaults)
    ensures var (l', r') := AfterRead(useStoracha, seed, l, r, f);
            SoloRead(WaysOf(useStoracha, seed), cap, Resting(l, r), entry, f)
            == Resting(l', r').(jobs := map[0 := Ready(entry, Seen(useStoracha, seed, l, r, f), 0)])
  {
    var y := WaysOf(useStoracha, seed);
    var begun := Begin(Resting(l, r), 0, Some(entry), 0);
    if l.cache.Some? {
      assert begun.jobs == map[0 := Ready(entry, l.cache.value, 0)];
    } else {
      assert begun.jobs == map[0 := Cold(Some(entry), 0)];
      var j := Answer(y, begun, Cold(Some(entry), 0), f);
      var fetched := Fetch(y, begun, 0, f);
      assert fetched == begun.(jobs := map[0 := j]);
      ResolvedAlone(fetched, j);
      hide Resolve, Land;
    }
  }

  lemma ResolvedAlone<L, E>(p: Process<L, E>, j: Job<L, E>)
    requires p.jobs == map[0 := j] && p.writes == map[] && j.Fetched? && j.entry.Some?
    ensures Land(Resolve(p, 0), OfRepair(0), true)
            == p.(cache := if j.got.Some? then j.got else p.cache,
                  jobs := map[0 := Ready(j.entry.value, if j.got.Some? then j.got.value else p.fallback, j.began)],
                  list := if j.repairs && j.got.Some? then j.got else p.list)
  {
    if j.repairs && j.got.Some? {
      assert map[OfRepair(0) := j.got.value] - {OfRepair(0)} == map[];
      assert Resolve(p, 0).writes == map[OfRepair(0) := j.got.value];
    }
  }

  /** The steps of one save with nothing else under way are the save of the client. */
  lemma SoloSaveIsSave<R>(useStoracha: bool, seed: seq<R>, cap: Option<nat>, l: Local<R>, r: Remote<R>, entry: R,
                          f: ReadFaults, w: WriteFaults)
    ensures var (l', r') := AfterSave(useStoracha, cap, seed, l, r, entry, f, w);
            var y := WaysOf(useStoracha, seed);
            SoloWrite(y, cap, SoloRead(y, cap, Resting(l, r), entry, f), w) == Resting(l', r')
  {
    SoloReadIsRead(useStoracha, seed, cap, l, r, entry, f);
    var (l1, r1) := AfterRead(useStoracha, seed, l, r, f);
    var seen := Seen(useStoracha, seed, l, r, f);
    var y := WaysOf(useStoracha, seed);
    hide SoloRead, AfterRead, Seen;
    SoloWriteIsCommit(useStoracha, y, cap, l1, r1, seen, entry, 0, w);
  }

  lemma SoloWriteIsCommit<R>(useStoracha: bool, y: Ways<seq<R>>, cap: Option<nat>, l: Local<R>, r: Remote<R>,
                             existing: seq<R>,
                             entry: R, b: nat, w: WriteFaults)
    requires y.useStoracha == useStoracha
    ensures var (l', r') := HistorySpec.Commit(useStoracha, cap, l, r, existing, entry, w);
            SoloWrite(y, cap, Resting(l, r).(jobs := map[0 := Ready(entry, existing, b)]), w) == Resting(l', r')
  {
    var updated := Kept(cap, existing + [entry]);
    hide Kept;
    var p := Resting(l, r).(jobs := map[0 := Ready(entry, existing, b)]);
    var committed := HistoryProtocol.Commit(useStoracha, Extender(cap), p, 0);
    assert committed.jobs == map[] && committed.writes == map[OfSave(0) := updated];
    assert committed.writes - {OfSave(0)} == map[];
  }

  // ---------------------------------------------------------------- commits and what sets the cache

  ghost predicate Contains<R>(line: Line<R>, b: nat) {
    exists k :: 0 <= k < |line.saves| && line.saves[k].number == b
  }

  /** Step `c` commits the save begun by step `b`. */
  ghost predicate CommitsAt<R>(x: Setting<R>, run: seq<Step<R>>, c: nat, b: nat)
    requires c < |run|
  {
    var q := LinesAt(x, run, c);
    run[c].Commits? && IsReady(q, run[c].id) && q.jobs[run[c].id].save.number == b
  }

  /** Step `k` sets the cache: a commit, or a read that resolves with a list. */
  ghost predicate SetsCache<R>(x: Setting<R>, run: seq<Step<R>>, k: nat)
    requires k < |run|
  {
    var q := LinesAt(x, run, k);
    || (run[k].Commits? && IsReady(q, run[k].id))
    || (run[k].Resolves? && IsFetched(q, run[k].id) && q.jobs[run[k].id].got.Some?)
  }

  /** The job whose step sets the cache, and the list it brings. */
  ghost function JobAt<R>(x: Setting<R>, run: seq<Step<R>>, k: nat): Job<Line<R>, Save<R>>
    requires k < |run| && SetsCache(x, run, k)
  {
    LinesAt(x, run, k).jobs[run[k].id]
  }

  ghost function Held<R>(x: Setting<R>, run: seq<Step<R>>, k: nat): Line<R>
    requires k < |run| && SetsCache(x, run, k)
  {
    var j := JobAt(x, run, k);
    if j.Ready? then j.existing else j.got.value
  }

  ghost predicate CacheHas<R>(x: Setting<R>, run: seq<Step<R>>, m: nat, b: nat)
    requires m <= |run|
  {
    LinesAt(x, run, m).cache.Some? && Contains(LinesAt(x, run, m).cache.value, b)
  }

  /** From its commit on, every save's entry is in the cache. */
  ghost predicate AllKept<R>(x: Setting<R>, run: seq<Step<R>>, n: nat)
    requires n <= |run|
  {
    forall b: nat, c: nat, m: nat :: c < m <= n && CommitsAt(x, run, c, b) ==> CacheHas(x, run, m, b)
  }

  /**
   * After a commit only jobs set the cache that began later, or that fetched a
   * stored list which had the entry already.
   */
  ghost predicate NoStaleJob<R>(x: Setting<R>, run: seq<Step<R>>, n: nat)
    requires n <= |run|
  {
    forall b: nat, c: nat, k: nat :: c < k < n && CommitsAt(x, run, c, b) && SetsCache(x, run, k) ==>
      JobAt(x, run, k).began > c || Contains(Held(x, run, k), b)
  }

  // ---------------------------------------------------------------- what jobs satisfy

  /** The entry a job is to save, if it is a save. */
  function EntryOfJob<L, E>(j: Job<L, E>): Option<E> { if j.Ready? then Some(j.save) else j.entry }

  /** A job knows the step that began it, and holds the cache of that moment if it was set. */
  ghost predicate JobOk<R>(x: Setting<R>, run: seq<Step<R>>, n: nat, id: nat, j: Job<Line<R>, Save<R>>)
    requires n <= |run|
  {
    && j.began < n && run[j.began].Begins? && run[j.began].id == id
    && (EntryOfJob(j).Some? ==> EntryOfJob(j).value.number == j.began)
    && (LinesAt(x, run, j.began).cache.Some? ==> j.Ready? && j.existing == LinesAt(x, run, j.began).cache.value)
  }

  /** What a step makes of a job: it goes on as it was, or it is new. */
  lemma JobTakes<L, E>(y: Ways<L>, extend: (L, E) -> L, q: Process<L, E>, e: Step<E>, n: nat, id: nat)
    requires id in Take(y, extend, q, e, n).jobs
    ensures var j := Take(y, extend, q, e, n).jobs[id];
            || (id in q.jobs && EntryOfJob(j) == EntryOfJob(q.jobs[id]) && j.began == q.jobs[id].began
                && (q.jobs[id].Ready? ==> j == q.jobs[id]))
            || (j.began == n && e.Begins? && e.id == id && EntryOfJob(j) == e.entry
                && (q.cache.Some? ==> j.Ready? && j.existing == q.cache.value))
  {
  }

  lemma StepKeepsJobOk<R>(x: Setting<R>, run: seq<Step<R>>, n: nat, id: nat)
    requires n < |run| && id in LinesAt(x, run, n + 1).jobs
    requires id in LinesAt(x, run, n).jobs ==> JobOk(x, run, n, id, LinesAt(x, run, n).jobs[id])
    ensures JobOk(x, run, n + 1, id, LinesAt(x, run, n + 1).jobs[id])
  {
    var q := LinesAt(x, run, n);
    JobTakes(MapWays(Rooted(), x.y), Grower(), q, MapStep(Numbered(n), run[n]), n, id);
    assert LinesAt(x, run, n + 1) == Take(MapWays(Rooted(), x.y), Grower(), q, MapStep(Numbered(n), run[n]), n);
    hide LinesAt, Take;
  }

  lemma {:induction false} JobsAreOk<R>(x: Setting<R>, run: seq<Step<R>>, n: nat, id: nat)
    requires AtRest(x.p) && n <= |run| && id in LinesAt(x, run, n).jobs
    ensures JobOk(x, run, n, id, LinesAt(x, run, n).jobs[id])
  {
    hide LinesAt;
    NoJobsAtRest(x, run);
    if n > 0 {
      if id in LinesAt(x, run, n - 1).jobs { JobsAreOk(x, run, n - 1, id); }
      StepKeepsJobOk(x, run, n - 1, id);
    }
  }

  lemma NoJobsAtRest<R>(x: Setting<R>, run: seq<Step<R>>)
    requires AtRest(x.p)
    ensures LinesAt(x, run, 0).jobs == map[]
  {
  }

  /** The cache, once set, stays set; it changes by the steps that set it only. */
  lemma CacheStep<R>(x: Setting<R>, run: seq<Step<R>>, k: nat)
    requires k < |run|
    ensures var (q, t) := (LinesAt(x, run, k), LinesAt(x, run, k + 1));
            t.cache == if !SetsCache(x, run, k) then q.cache
                       else if JobAt(x, run, k).Ready? then Some(Grown(Held(x, run, k), JobAt(x, run, k).save))
                       else Some(Held(x, run, k))
  {
    var (q, t) := (LinesAt(x, run, k), LinesAt(x, run, k + 1));
    assert t == Take(MapWays(Rooted(), x.y), Grower(), q, MapStep(Numbered(k), run[k]), k);
    hide LinesAt;
  }

  lemma {:induction false} CacheStaysSet<R>(x: Setting<R>, run: seq<Step<R>>, m: nat, n: nat)
    requires m <= n <= |run| && LinesAt(x, run, m).cache.Some?
    ensures LinesAt(x, run, n).cache.Some?
  {
    hide LinesAt, SetsCache, JobAt, Held;
    if m < n {
      CacheStaysSet(x, run, m, n - 1);
      CacheStep(x, run, n - 1);
    }
  }

  /** A save commits once. */
  lemma CommitsOnce<R>(x: Setting<R>, run: seq<Step<R>>, c: nat, k: nat, b: nat)
    requires AtRest(x.p) && c < |run| && k < |run| && CommitsAt(x, run, c, b) && CommitsAt(x, run, k, b)
    ensures c == k
  {
    JobsAreOk(x, run, c, run[c].id);
    JobsAreOk(x, run, k, run[k].id);
    hide LinesAt;
    if c < k { GoneForGood(x, run, c, k, b); }
    if k < c { GoneForGood(x, run, k, c, b); }
  }

  lemma {:induction false} GoneForGood<R>(x: Setting<R>, run: seq<Step<R>>, c: nat, n: nat, b: nat)
    requires AtRest(x.p) && c < n <= |run| && CommitsAt(x, run, c, b)
    ensures run[c].id in LinesAt(x, run, n).jobs ==> LinesAt(x, run, n).jobs[run[c].id].began != b
  {
    hide LinesAt;
    var id := run[c].id;
    JobsAreOk(x, run, c, id);
    if c < n - 1 { GoneForGood(x, run, c, n - 1, b); }
    JobSteps(x, run, n - 1, id);
  }

  lemma JobSteps<R>(x: Setting<R>, run: seq<Step<R>>, k: nat, id: nat)
    requires k < |run|
    ensures var (q, t) := (LinesAt(x, run, k), LinesAt(x, run, k + 1));
            && (id in t.jobs ==> t.jobs[id].began == k || (id in q.jobs && t.jobs[id].began == q.jobs[id].began))
            && (run[k] == Commits(id) && IsReady(q, id) ==> id !in t.jobs)
  {
    var (q, t) := (LinesAt(x, run, k), LinesAt(x, run, k + 1));
    assert t == Take(MapWays(Rooted(), x.y), Grower(), q, MapStep(Numbered(k), run[k]), k);
    hide LinesAt;
  }

  // ---------------------------------------------------------------- entries appear by commits only

  /** Every save on the line has committed before step `n`. */
  ghost predicate Known<R>(x: Setting<R>, run: seq<Step<R>>, n: nat, line: Line<R>)
    requires n <= |run|
  {
    forall b: nat :: Contains(line, b) ==> exists c: nat :: c < n && CommitsAt(x, run, c, b)
  }

  /** `P` holds of every list of the process. */
  ghost predicate Everywhere<L(!new), E(!new)>(q: Process<L, E>, P: L -> bool) {
    && (q.cache.Some? ==> P(q.cache.value)) && P(q.fallback) && (q.list.Some? ==> P(q.list.value))
    && (forall cid :: cid in q.vault ==> P(q.vault[cid]))
    && (forall w :: w in q.writes ==> P(q.writes[w]))
    && (forall id :: id in q.jobs ==> JobSatisfies(q.jobs[id], P))
  }

  ghost predicate JobSatisfies<L, E>(j: Job<L, E>, P: L -> bool) {
    (j.Fetched? && j.got.Some? ==> P(j.got.value)) && (j.Ready? ==> P(j.existing))
  }

  /** A step brings no list but the extension a commit makes. */
  lemma StepKeepsEverywhere<L(!new), E(!new)>(y: Ways<L>, extend: (L, E) -> L, q: Process<L, E>, e: Step<E>, n: nat,
                                              P: L -> bool)
    requires Everywhere(q, P) && (y.seed.Some? ==> P(y.seed.value))
    requires e.Commits? && IsReady(q, e.id) ==> P(extend(q.jobs[e.id].existing, q.jobs[e.id].save))
    ensures Everywhere(Take(y, extend, q, e, n), P)
  {
    match e
    case Begins(id, entry) =>
    case Fetches(id, f) => FetchKeepsEverywhere(y, q, id, f, P);
    case Resolves(id) => ResolveKeepsEverywhere(q, id, P);
    case Commits(id) =>
    case Vaults(id, cid, pointerLands) =>
    case Lands(write, lands) =>
  }

  lemma FetchKeepsEverywhere<L(!new), E(!new)>(y: Ways<L>, q: Process<L, E>, id: nat, f: ReadFaults, P: L -> bool)
    requires Everywhere(q, P) && (y.seed.Some? ==> P(y.seed.value))
    ensures Everywhere(Fetch(y, q, id, f), P)
  {
  }

  lemma ResolveKeepsEverywhere<L(!new), E(!new)>(q: Process<L, E>, id: nat, P: L -> bool)
    requires Everywhere(q, P)
    ensures Everywhere(Resolve(q, id), P)
  {
    if IsFetched(q, id) { assert JobSatisfies(q.jobs[id], P); }
  }

  lemma {:induction false} EveryLineIsKnown<R(!new)>(x: Setting<R>, run: seq<Step<R>>, n: nat)
    requires AtRest(x.p) && n <= |run|
    ensures Everywhere(LinesAt(x, run, n), line => Known(x, run, n, line))
  {
    if n > 0 {
      EveryLineIsKnown(x, run, n - 1);
      KnownStep(x, run, n - 1);
    }
  }

  lemma KnownStep<R(!new)>(x: Setting<R>, run: seq<Step<R>>, n: nat)
    requires n < |run| && Everywhere(LinesAt(x, run, n), line => Known(x, run, n, line))
    ensures Everywhere(LinesAt(x, run, n + 1), line => Known(x, run, n + 1, line))
  {
    var (q, e) := (LinesAt(x, run, n), MapStep(Numbered(n), run[n]));
    assert LinesAt(x, run, n + 1) == Take(MapWays(Rooted(), x.y), Grower(), q, e, n);
    if e.Commits? && IsReady(q, e.id) {
      assert JobSatisfies(q.jobs[e.id], line => Known(x, run, n, line));
      CommitIsKnown(x, run, n, q.jobs[e.id].existing, q.jobs[e.id].save);
    }
    hide LinesAt, Take, Known, Contains, CommitsAt;
    forall line | Known(x, run, n, line)
      ensures Known(x, run, n + 1, line)
    {
      StaysKnown(x, run, n, line);
    }
    assert Everywhere(q, line => Known(x, run, n + 1, line));
    RootsAreKnown(x, run, n + 1);
    StepKeepsEverywhere(MapWays(Rooted(), x.y), Grower(), q, e, n, line => Known(x, run, n + 1, line));
  }

  lemma RootsAreKnown<R>(x: Setting<R>, run: seq<Step<R>>, n: nat)
    requires n <= |run|
    ensures forall list: seq<R> :: Known(x, run, n, Rooted()(list))
  {
    hide LinesAt;
  }

  lemma StaysKnown<R>(x: Setting<R>, run: seq<Step<R>>, n: nat, line: Line<R>)
    requires n < |run| && Known(x, run, n, line)
    ensures Known(x, run, n + 1, line)
  {
    hide Contains, CommitsAt;
  }

  lemma CommitIsKnown<R>(x: Setting<R>, run: seq<Step<R>>, n: nat, line: Line<R>, save: Save<R>)
    requires n < |run| && Known(x, run, n, line) && CommitsAt(x, run, n, save.number)
    ensures Known(x, run, n + 1, Grown(line, save))
  {
    forall b: nat | Contains(Grown(line, save), b)
      ensures exists c: nat :: c < n + 1 && CommitsAt(x, run, c, b)
    {
      if b != save.number { StillContains(line, save, b); }
    }
  }

  lemma StillContains<R>(line: Line<R>, save: Save<R>, b: nat)
    ensures Contains(Grown(line, save), b) <==> Contains(line, b) || save.number == b
  {
    var grown := line.saves + [save];
    if Contains(line, b) {
      var k :| 0 <= k < |line.saves| && line.saves[k].number == b;
      assert grown[k].number == b;
    }
    if save.number == b { assert grown[|line.saves|].number == b; }
  }

  // ---------------------------------------------------------------- when every entry is kept

  /** The cache after a step that sets it, as to one save. */
  lemma SetCacheHas<R>(x: Setting<R>, run: seq<Step<R>>, k: nat, b: nat)
    requires k < |run| && SetsCache(x, run, k)
    ensures CacheHas(x, run, k + 1, b) <==> Contains(Held(x, run, k), b) || CommitsAt(x, run, k, b)
  {
    CacheStep(x, run, k);
    var j := JobAt(x, run, k);
    if j.Ready? { StillContains(Held(x, run, k), j.save, b); }
    hide LinesAt, Contains;
  }

  lemma {:induction false} KeptWithoutStaleJobs<R>(x: Setting<R>, run: seq<Step<R>>, n: nat, c: nat, b: nat, m: nat)
    requires AtRest(x.p) && c < m <= n <= |run| && NoStaleJob(x, run, n) && CommitsAt(x, run, c, b)
    ensures CacheHas(x, run, m, b)
    decreases m
  {
    var k := m - 1;
    if SetsCache(x, run, k) {
      SetCacheHas(x, run, k, b);
      if k > c {
        var j := JobAt(x, run, k);
        JobsAreOk(x, run, k, run[k].id);
        if j.began > c { KeptWithoutStaleJobs(x, run, n, c, b, j.began); }
      }
    } else {
      assert k != c;
      CacheStep(x, run, k);
      KeptWithoutStaleJobs(x, run, n, c, b, k);
    }
  }

  /**
   * Every entry stays in the cache from its commit on if and only if no job that
   * began before a commit sets the cache after it, except with a list that had the
   * entry already. In particular a read of an empty cache must not resolve late.
   */
  lemma KeptExactlyWhenNoStaleJob<R>(x: Setting<R>, run: seq<Step<R>>, n: nat)
    requires AtRest(x.p) && n <= |run|
    ensures AllKept(x, run, n) <==> NoStaleJob(x, run, n)
  {
    hide LinesAt, CacheHas, Held, JobAt, SetsCache, Contains, CommitsAt;
    if NoStaleJob(x, run, n) {
      forall b: nat, c: nat, m: nat | c < m <= n && CommitsAt(x, run, c, b)
        ensures CacheHas(x, run, m, b)
      {
        KeptWithoutStaleJobs(x, run, n, c, b, m);
      }
    }
    if AllKept(x, run, n) {
      forall b: nat, c: nat, k: nat | c < k < n && CommitsAt(x, run, c, b) && SetsCache(x, run, k)
        ensures Contains(Held(x, run, k), b)
      {
        assert CacheHas(x, run, k + 1, b);
        SetCacheHas(x, run, k, b);
        if CommitsAt(x, run, k, b) { CommitsOnce(x, run, c, k, b); }
      }
    }
  }

  /** Each save begins after every earlier commit. */
  ghost predicate Sequential<R>(x: Setting<R>, run: seq<Step<R>>, n: nat)
    requires n <= |run|
  {
    forall b: nat, c: nat, d: nat, k: nat :: c < k < n && CommitsAt(x, run, c, b) && CommitsAt(x, run, k, d) ==> c < d
  }

  /** With the cache set from the start, only commits set it, and with the cache their save began with. */
  lemma WarmJobs<R>(x: Setting<R>, run: seq<Step<R>>, k: nat)
    requires AtRest(x.p) && x.p.cache.Some? && k < |run| && SetsCache(x, run, k)
    ensures var j := JobAt(x, run, k);
            && j.Ready? && j.began < k && CommitsAt(x, run, k, j.began)
            && LinesAt(x, run, j.began).cache == Some(Held(x, run, k))
  {
    JobsAreOk(x, run, k, run[k].id);
    var j := JobAt(x, run, k);
    assert LinesAt(x, run, 0).cache.Some?;
    CacheStaysSet(x, run, 0, j.began);
  }

  /** With the cache set from the start, every entry is kept if and only if no two saves overlap. */
  lemma WarmKeptExactlyWhenSequential<R(!new)>(x: Setting<R>, run: seq<Step<R>>, n: nat)
    requires AtRest(x.p) && x.p.cache.Some? && n <= |run|
    ensures AllKept(x, run, n) <==> Sequential(x, run, n)
  {
    KeptExactlyWhenNoStaleJob(x, run, n);
    hide LinesAt, Held, JobAt, Contains, AllKept;
    if Sequential(x, run, n) {
      forall b: nat, c: nat, k: nat | c < k < n && CommitsAt(x, run, c, b) && SetsCache(x, run, k)
        ensures JobAt(x, run, k).began > c
      {
        WarmJobs(x, run, k);
      }
    }
    if NoStaleJob(x, run, n) {
      forall b: nat, c: nat, d: nat, k: nat | c < k < n && CommitsAt(x, run, c, b) && CommitsAt(x, run, k, d)
        ensures c < d
      {
        CommitSets(x, run, k, d);
        WarmJobs(x, run, k);
        CommitNumber(x, run, k, d);
        if Contains(Held(x, run, k), b) { ContainedIsCommitted(x, run, d, b, c); }
      }
    }
  }

  lemma CommitSets<R>(x: Setting<R>, run: seq<Step<R>>, k: nat, d: nat)
    requires k < |run| && CommitsAt(x, run, k, d)
    ensures SetsCache(x, run, k)
  {
    hide LinesAt;
  }

  lemma CommitNumber<R>(x: Setting<R>, run: seq<Step<R>>, k: nat, d: nat)
    requires AtRest(x.p) && k < |run| && CommitsAt(x, run, k, d) && SetsCache(x, run, k)
    ensures JobAt(x, run, k).began == d
  {
    JobsAreOk(x, run, k, run[k].id);
    hide LinesAt;
  }

  lemma ContainedIsCommitted<R(!new)>(x: Setting<R>, run: seq<Step<R>>, d: nat, b: nat, c: nat)
    requires AtRest(x.p) && d <= |run| && CacheHas(x, run, d, b) && c < |run| && CommitsAt(x, run, c, b)
    ensures c < d
  {
    EveryLineIsKnown(x, run, d);
    var line := LinesAt(x, run, d).cache.value;
    assert Known(x, run, d, line);
    var c': nat :| c' < d && CommitsAt(x, run, c', b);
    CommitsOnce(x, run, c, c', b);
  }

  // ---------------------------------------------------------------- the stored list

  /** After the last commit `c`, only the list it put into the cache has its entry. */
  lemma {:induction false} OnlyTheLastLine<R(!new)>(x: Setting<R>, run: seq<Step<R>>, c: nat, b: nat, n: nat,
                                                    last: Line<R>)
    requires AtRest(x.p) && c < n <= |run| && CommitsAt(x, run, c, b)
    requires forall k: nat, d: nat :: c < k < n ==> !CommitsAt(x, run, k, d)
    requires LinesAt(x, run, c + 1).cache == Some(last)
    ensures Everywhere(LinesAt(x, run, n), line => Contains(line, b) ==> line == last)
  {
    var k := n - 1;
    var (q, e) := (LinesAt(x, run, k), MapStep(Numbered(k), run[k]));
    assert LinesAt(x, run, n) == Take(MapWays(Rooted(), x.y), Grower(), q, e, k);
    if k == c {
      NotYetThere(x, run, c, b, last);
    } else {
      OnlyTheLastLine(x, run, c, b, k, last);
      ReadyCommits(x, run, k);
    }
    hide LinesAt, Take;
    StepKeepsEverywhere(MapWays(Rooted(), x.y), Grower(), q, e, k, line => Contains(line, b) ==> line == last);
  }

  lemma ReadyCommits<R>(x: Setting<R>, run: seq<Step<R>>, k: nat)
    requires k < |run|
    ensures run[k].Commits? && IsReady(LinesAt(x, run, k), run[k].id) ==>
              CommitsAt(x, run, k, LinesAt(x, run, k).jobs[run[k].id].save.number)
  {
    hide LinesAt;
  }

  lemma NotYetThere<R(!new)>(x: Setting<R>, run: seq<Step<R>>, c: nat, b: nat, last: Line<R>)
    requires AtRest(x.p) && c < |run| && CommitsAt(x, run, c, b)
    ensures Everywhere(LinesAt(x, run, c), line => Contains(line, b) ==> line == last)
  {
    EveryLineIsKnown(x, run, c);
    forall line | Known(x, run, c, line)
      ensures !Contains(line, b)
    {
      if Contains(line, b) {
        var c': nat :| c' < c && CommitsAt(x, run, c', b);
        CommitsOnce(x, run, c, c', b);
      }
    }
    hide LinesAt, Known, Contains, CommitsAt;
  }

  /**
   * While every entry is kept in the cache, the stored list has all of them if and
   * only if it is the very list in the cache: a write that lands out of order, or
   * not at all, leaves it behind.
   */
  lemma StoredHasAllExactlyWhenItIsTheCache<R(!new)>(x: Setting<R>, run: seq<Step<R>>, n: nat, c: nat, b: nat)
    requires AtRest(x.p) && c < n <= |run| && AllKept(x, run, n)
    requires CommitsAt(x, run, c, b) && forall k: nat, d: nat :: c < k < n ==> !CommitsAt(x, run, k, d)
    ensures var q := LinesAt(x, run, n);
            && q.cache.Some?
            && (q.list == q.cache <==>
                 && q.list.Some?
                 && forall d: nat, k: nat :: k < n && CommitsAt(x, run, k, d) ==> Contains(q.list.value, d))
  {
    assert CacheHas(x, run, n, b) && CacheHas(x, run, c + 1, b);
    OnlyTheLastLine(x, run, c, b, n, LinesAt(x, run, c + 1).cache.value);
    hide LinesAt, Contains, CommitsAt;
    forall d: nat, k: nat | k < n && CommitsAt(x, run, k, d)
      ensures CacheHas(x, run, n, d)
    {
    }
  }

  // ---------------------------------------------------------------- a read that resolves late

  /**
   * A read begins on an empty cache and finds `list`; a save commits; the read
   * resolves and sets the cache back; a further save begins afterwards.
   */
  function LateRead<R>(b: R, c: R, f: ReadFaults): seq<Step<R>> {
    [Begins(0, None), Fetches(0, f), Begins(1, Some(b)), Fetches(1, f), Resolves(1), Commits(1), Resolves(0),
     Begins(2, Some(c)), Commits(2), Lands(OfSave(1), true), Lands(OfSave(2), true)]
  }

  function ColdStart<R>(list: seq<R>): Setting<R> {
    Setting(Ways(false, None), Some(DECISIONS_KEPT), Process(None, [], Some(list), None, map[], map[], map[]))
  }

  lemma NextAt<R>(x: Setting<R>, run: seq<Step<R>>, n: nat)
    requires n < |run|
    ensures At(x, run, n + 1) == Take(x.y, Extender(x.cap), At(x, run, n), run[n], n) && At(x, run, 0) == x.p
  {
    hide Take;
  }

  lemma OneFetches<R>(list: seq<R>, b: R, c: R, f: ReadFaults)
    requires f.listReads
    ensures At(ColdStart(list), LateRead(b, c, f), 2)
            == ColdStart<R>(list).p.(jobs := map[0 := Fetched(None, Some(list), false, 0)])
  {
    var (x, run) := (ColdStart(list), LateRead(b, c, f));
    hide At;
    NextAt(x, run, 0);
    NextAt(x, run, 1);
    assert At(x, run, 2).jobs == map[0 := Fetched(None, Some(list), false, 0)];
  }

  lemma BothFetch<R>(list: seq<R>, b: R, c: R, f: ReadFaults)
    requires f.listReads
    ensures At(ColdStart(list), LateRead(b, c, f), 4)
            == ColdStart<R>(list).p.(jobs := map[0 := Fetched(None, Some(list), false, 0),
                                                 1 := Fetched(Some(b), Some(list), false, 2)])
  {
    var (x, run) := (ColdStart(list), LateRead(b, c, f));
    OneFetches(list, b, c, f);
    hide At;
    NextAt(x, run, 2);
    NextAt(x, run, 3);
    assert At(x, run, 4).jobs
           == map[0 := Fetched(None, Some(list), false, 0), 1 := Fetched(Some(b), Some(list), false, 2)];
  }

  /** Up to the commit of the first save. */
  lemma LateReadBegins<R>(list: seq<R>, b: R, c: R, f: ReadFaults)
    requires f.listReads && |list| < DECISIONS_KEPT
    ensures var q := ColdStart<R>(list).p;
            At(ColdStart(list), LateRead(b, c, f), 6)
            == q.(cache := Some(list + [b]), fallback := list + [b], writes := map[OfSave(1) := list + [b]],
                  jobs := map[0 := Fetched(None, Some(list), false, 0)])
  {
    var (x, run, read) := (ColdStart(list), LateRead(b, c, f), Fetched(None, Some(list), false, 0));
    TwentyFit(list, b);
    BothFetch(list, b, c, f);
    hide Kept, At;
    NextAt(x, run, 4);
    assert At(x, run, 5) == x.p.(cache := Some(list), jobs := map[0 := read, 1 := Ready(b, list, 2)]);
    NextAt(x, run, 5);
    assert At(x, run, 6).jobs == map[0 := read];
  }

  /** The saves did not overlap, and yet the first one's entry is in no list. */
  lemma LateReadDropsEntry<R>(list: seq<R>, b: R, c: R, f: ReadFaults)
    requires f.listReads && |list| < DECISIONS_KEPT
    ensures var p := At(ColdStart(list), LateRead(b, c, f), 11);
            p.cache == p.list == Some(list + [c]) && p.jobs == map[] && p.writes == map[]
  {
    var (x, run) := (ColdStart(list), LateRead(b, c, f));
    var (found, late) := (list + [b], list + [c]);
    LateReadBegins(list, b, c, f);
    TwentyFit(list, c);
    hide Kept, At;
    NextAt(x, run, 6);
    var w := x.p.(fallback := found, writes := map[OfSave(1) := found]);
    assert At(x, run, 7) == w.(cache := Some(list));
    NextAt(x, run, 7);
    assert At(x, run, 8) == w.(cache := Some(list), jobs := map[2 := Ready(c, list, 7)]);
    NextAt(x, run, 8);
    var z := x.p.(cache := Some(late), fallback := late);
    assert At(x, run, 9) == z.(writes := map[OfSave(1) := found, OfSave(2) := late]);
    NextAt(x, run, 9);
    assert At(x, run, 10) == z.(list := Some(found), writes := map[OfSave(2) := late]);
    NextAt(x, run, 10);
    assert At(x, run, 11).writes == map[];
  }

  lemma TwentyFit<R>(list: seq<R>, entry: R)
    requires |list| < DECISIONS_KEPT
    ensures Kept(Some(DECISIONS_KEPT), list + [entry]) == list + [entry]
  {
  }
}
