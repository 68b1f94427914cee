/** The WORKERS variable: two parsers, and the printed form they read. */
module WorkersEnv {
  import opened Wrappers
  import opened JsText
  import opened JsTextFacts

  datatype Record = Record(did: string, url: string, cvmId: string)

  const LOCAL_DEFAULTS: seq<Record> := [
    Record("worker1", "http://localhost:3001", ""),
    Record("worker2", "http://localhost:3002", ""),
    Record("worker3", "http://localhost:3003", "")]

  /** One trimmed entry: `did|url`, `did|url|cvm_id`, or `id:port`. */
  function ParseEntry(entry: string): Record {
    if '|' in entry then
      var parts := Split(entry, '|');
      Record(parts[0], if |parts| > 1 then parts[1] else "", if |parts| > 2 then parts[2] else "")
    else
      var parts := Split(entry, ':');
      Record(parts[0], "http://localhost:" + (if |parts| > 1 then parts[1] else "undefined"), "")
  }

  function Kept(r: Record): seq<Record> { if r.did == "" then [] else [r] }

  function EntryRecords(raw: string): seq<Record> {
    if Trim(raw) == "" then [] else Kept(ParseEntry(Trim(raw)))
  }

  function ParseEntries(raws: seq<string>): seq<Record> {
    if raws == [] then [] else EntryRecords(raws[0]) + ParseEntries(raws[1..])
  }

  function RecordsFromEnv(env: string, localMode: bool): seq<Record> {
    if env != "" then ParseEntries(Split(env, ',')) else if localMode then LOCAL_DEFAULTS else []
  }

  lemma {:induction false} ParseEntriesSnoc(raws: seq<string>, raw: string)
    ensures ParseEntries(raws + [raw]) == ParseEntries(raws) + EntryRecords(raw)
  {
    if raws == [] {
      assert raws + [raw] == [raw];
    } else {
      assert (raws + [raw])[1..] == raws[1..] + [raw];
      ParseEntriesSnoc(raws[1..], raw);
    }
  }

  /** The coordinator's parser: collect entries in a loop, then drop those without an id. */
  method GetWorkerRecordsFromEnv(env: string, localMode: bool) returns (records: seq<Record>)
    ensures records == RecordsFromEnv(env, localMode)
  {
    records := [];
    if env != "" {
      var raws := Split(env, ',');
      for i := 0 to |raws|
        invariant records == ParseEntries(raws[..i])
      {
        ParseEntriesSnoc(raws[..i], raws[i]);
        assert raws[..i + 1] == raws[..i] + [raws[i]];
        var trimmed := Trim(raws[i]);
        if trimmed != "" {
          var entry := ParseEntry(trimmed);
          if entry.did != "" { records := records + [entry]; }
        }
      }
      assert raws[..|raws|] == raws;
    } else if localMode {
      records := LOCAL_DEFAULTS;
    }
  }

  // ---------------------------------------------------------------- the route's parser

  function RouteId(raw: string): string {
    if '|' in Trim(raw) then Split(Trim(raw), '|')[0] else Split(Trim(raw), ':')[0]
  }

  /** Ids of all entries, in order; an empty entry yields an empty id. */
  function RouteIds(raws: seq<string>): seq<string> {
    if raws == [] then [] else [RouteId(raws[0])] + RouteIds(raws[1..])
  }

  function DropEmpty(ids: seq<string>): seq<string> {
    if ids == [] then [] else (if ids[0] == "" then [] else [ids[0]]) + DropEmpty(ids[1..])
  }

  function Dids(records: seq<Record>): seq<string> {
    if records == [] then [] else [records[0].did] + Dids(records[1..])
  }

  lemma {:induction false} SameIds(raws: seq<string>)
    ensures DropEmpty(RouteIds(raws)) == Dids(ParseEntries(raws))
  {
    if raws != [] {
      SameIds(raws[1..]);
      var here, rest := EntryRecords(raws[0]), ParseEntries(raws[1..]);
      assert if here == [] then here + rest == rest else (here + rest)[1..] == rest && (here + rest)[0] == here[0];
      assert here == [] <==> RouteId(raws[0]) == "";
      assert RouteIds(raws)[1..] == RouteIds(raws[1..]);
    }
  }

  /** On every non-empty value the two parsers list the same ids, once empty ones are dropped. */
  lemma ParsersAgree(env: string, localMode: bool)
    requires env != ""
    ensures DropEmpty(RouteIds(Split(env, ','))) == Dids(RecordsFromEnv(env, localMode))
  {
    SameIds(Split(env, ','));
  }

  // ---------------------------------------------------------------- round trip

  function PrintRecord(r: Record): string { r.did + "|" + r.url + "|" + r.cvmId }

  function Printed(records: seq<Record>): seq<string> {
    if records == [] then [] else [PrintRecord(records[0])] + Printed(records[1..])
  }

  function Print(records: seq<Record>): string { Join(Printed(records), ',') }

  /** No field holds a separator. */
  ghost predicate Clean(r: Record) {
    forall c :: c in r.did || c in r.url || c in r.cvmId ==> c != ',' && c != '|'
  }

  /** Clean, with an id, and no white space where trimming the entry would reach it. */
  ghost predicate WellFormed(r: Record) {
    Clean(r) && r.did != "" && TrimStart(r.did) == r.did && TrimEnd(r.cvmId) == r.cvmId
  }

  lemma {:induction false} TrimStartStopsAt(a: string, b: string)
    requires b != [] && !Space(b[0])
    ensures TrimStart(a + b) == TrimStart(a) + b
  {
    if a == [] {
      assert a + b == b;
    } else {
      assert (a + b)[1..] == a[1..] + b;
      TrimStartStopsAt(a[1..], b);
    }
  }

  lemma {:induction false} TrimEndStopsAt(a: string, b: string)
    requires a != [] && !Space(a[|a| - 1])
    ensures TrimEnd(a + b) == a + TrimEnd(b)
  {
    if b == [] {
      assert a + b == a;
    } else {
      assert (a + b)[..|a + b| - 1] == a + b[..|b| - 1];
      TrimEndStopsAt(a, b[..|b| - 1]);
    }
  }

  lemma {:induction false} TrimStartKeepsOut(s: string, c: char)
    ensures c in TrimStart(s) ==> c in s
  {
    if s != [] { TrimStartKeepsOut(s[1..], c); }
  }

  lemma TrimKeepsOut(s: string, c: char)
    ensures c in Trim(s) ==> c in s
  {
    TrimEndEnds(TrimStart(s));
    TrimStartKeepsOut(s, c);
  }

  lemma {:induction false} SplitKeepsOut(s: string, sep: char, c: char, k: nat)
    requires k < |Split(s, sep)| && c in Split(s, sep)[k]
    ensures c in s
  {
    if s != [] {
      var rest := Split(s[1..], sep);
      if s[0] == sep {
        if k > 0 { SplitKeepsOut(s[1..], sep, c, k - 1); }
      } else if k > 0 {
        assert Split(s, sep)[k] == rest[k];
        SplitKeepsOut(s[1..], sep, c, k);
      } else if c in rest[0] {
        SplitKeepsOut(s[1..], sep, c, 0);
      }
    }
  }

  /** Whatever is parsed is clean. */
  lemma EntryIsClean(raw: string)
    requires ',' !in raw
    ensures Clean(ParseEntry(Trim(raw)))
  {
    var entry := Trim(raw);
    TrimKeepsOut(raw, ',');
    SplitPartsLackSep(entry, '|');
    var sep := if '|' in entry then '|' else ':';
    var parts := Split(entry, sep);
    forall k, c | 0 <= k < |parts| && c in parts[k]
      ensures c != ',' && c != '|'
    {
      SplitKeepsOut(entry, sep, c, k);
    }
    hide Split, Trim;
    var port := if |parts| > 1 then parts[1] else "undefined";
    var local := "http://localhost:" + port;
    forall c | c in local
      ensures c != ',' && c != '|'
    {
      assert c in "http://localhost:" || c in port;
    }
  }

  lemma {:induction false} EntriesAreClean(raws: seq<string>)
    requires forall k :: 0 <= k < |raws| ==> ',' !in raws[k]
    ensures forall k :: 0 <= k < |ParseEntries(raws)| ==> Clean(ParseEntries(raws)[k])
  {
    if raws != [] {
      EntryIsClean(raws[0]);
      EntriesAreClean(raws[1..]);
    }
  }

  lemma TrimmedPrint(r: Record)
    ensures Trim(PrintRecord(r)) == TrimStart(r.did) + "|" + r.url + "|" + TrimEnd(r.cvmId)
  {
    hide TrimStart, TrimEnd;
    var (did, tail) := (TrimStart(r.did), "|" + r.url + "|" + r.cvmId);
    assert PrintRecord(r) == r.did + tail;
    TrimStartStopsAt(r.did, tail);
    assert did + tail == (did + "|" + r.url + "|") + r.cvmId;
    TrimEndStopsAt(did + "|" + r.url + "|", r.cvmId);
  }

  lemma SplitOfThree(a: string, b: string, c: string)
    requires '|' !in a && '|' !in b && '|' !in c
    ensures Split(a + "|" + b + "|" + c, '|') == [a, b, c]
  {
    assert a + "|" + b + "|" + c == a + ['|'] + (b + ['|'] + c);
    SplitAtSep(a, b + ['|'] + c, '|');
    SplitAtSep(b, c, '|');
    SplitWithout(c, '|');
  }

  /** Reading back one clean record trims its id from the left and its last field from the right. */
  lemma CleanEntryParses(r: Record)
    requires Clean(r)
    ensures EntryRecords(PrintRecord(r)) == Kept(r.(did := TrimStart(r.did), cvmId := TrimEnd(r.cvmId)))
  {
    hide Split, Trim, TrimStart, TrimEnd;
    var (did, cvm) := (TrimStart(r.did), TrimEnd(r.cvmId));
    TrimmedPrint(r);
    TrimStartKeepsOut(r.did, '|');
    TrimEndEnds(r.cvmId);
    SplitOfThree(did, r.url, cvm);
    assert (did + "|" + r.url + "|" + cvm)[|did|] == '|';
  }

  function TrimmedRecords(records: seq<Record>): seq<Record> {
    if records == [] then []
    else
      Kept(records[0].(did := TrimStart(records[0].did), cvmId := TrimEnd(records[0].cvmId)))
      + TrimmedRecords(records[1..])
  }

  lemma {:induction false} CleanListParses(records: seq<Record>)
    requires forall k :: 0 <= k < |records| ==> Clean(records[k])
    ensures ParseEntries(Printed(records)) == TrimmedRecords(records)
  {
    if records != [] {
      CleanEntryParses(records[0]);
      CleanListParses(records[1..]);
      assert Printed(records)[1..] == Printed(records[1..]);
    }
  }

  lemma {:induction false} TrimmedIsShorter(records: seq<Record>)
    ensures |TrimmedRecords(records)| <= |records|
    ensures TrimmedRecords(records) == records <==>
              forall k :: 0 <= k < |records| ==>
                records[k].did != "" && TrimStart(records[k].did) == records[k].did
                && TrimEnd(records[k].cvmId) == records[k].cvmId
  {
    if records != [] {
      var r, rest := records[0], records[1..];
      TrimmedIsShorter(rest);
      var here := Kept(r.(did := TrimStart(r.did), cvmId := TrimEnd(r.cvmId)));
      if TrimmedRecords(records) == records {
        assert here != [];
        assert here[0] == (here + TrimmedRecords(rest))[0] == r;
        assert TrimmedRecords(rest) == TrimmedRecords(records)[1..] == rest;
      }
      assert forall k :: 0 <= k < |rest| ==> rest[k] == records[k + 1];
    }
  }

  lemma {:induction false} PrintedLength(records: seq<Record>)
    ensures |Printed(records)| == |records|
    ensures forall k :: 0 <= k < |records| ==> Printed(records)[k] == PrintRecord(records[k])
  {
    if records != [] { PrintedLength(records[1..]); }
  }

  /** A non-empty list survives printing and parsing exactly when all its records are well formed. */
  lemma PrintParseRoundTrip(records: seq<Record>, localMode: bool)
    requires records != []
    ensures RecordsFromEnv(Print(records), localMode) == records <==>
            forall k :: 0 <= k < |records| ==> WellFormed(records[k])
  {
    PrintedLength(records);
    assert Print(records) != "" by {
      if |records| == 1 { assert '|' in PrintRecord(records[0]); }
    }
    if RecordsFromEnv(Print(records), localMode) == records {
      SplitPartsLackSep(Print(records), ',');
      EntriesAreClean(Split(Print(records), ','));
    }
    if forall k :: 0 <= k < |records| ==> Clean(records[k]) {
      SplitUndoesJoin(Printed(records), ',');
      CleanListParses(records);
      TrimmedIsShorter(records);
    }
  }

  // ---------------------------------------------------------------- the forms of an entry

  /** `did|url`, and `did|url|cvm` with whatever follows a further bar ignored. */
  lemma BarForms(did: string, url: string, cvm: string, rest: string)
    requires '|' !in did && '|' !in url && '|' !in cvm
    ensures ParseEntry(did + "|" + url) == Record(did, url, "")
    ensures ParseEntry(did + "|" + url + "|" + cvm) == Record(did, url, cvm)
    ensures ParseEntry(did + "|" + url + "|" + cvm + "|" + rest) == Record(did, url, cvm)
  {
    SplitAtSep(did, url, '|');
    SplitWithout(url, '|');
    SplitOfThree(did, url, cvm);
    var (two, three) := (did + "|" + url, did + "|" + url + "|" + cvm);
    SplitBetween(three, rest, '|');
    assert three + ['|'] + rest == three + "|" + rest;
    assert two[|did|] == '|' && three[|did|] == '|' && (three + "|" + rest)[|did|] == '|';
    hide Split;
  }

  /** `id:port` is a worker on this machine; a missing port is the word for it. */
  lemma ColonForms(id: string, port: string, rest: string)
    requires ':' !in id && ':' !in port && '|' !in id && '|' !in port && '|' !in rest
    ensures ParseEntry(id + ":" + port) == Record(id, "http://localhost:" + port, "")
    ensures ParseEntry(id + ":" + port + ":" + rest) == Record(id, "http://localhost:" + port, "")
    ensures ParseEntry(id) == Record(id, "http://localhost:undefined", "")
  {
    SplitAtSep(id, port, ':');
    SplitWithout(port, ':');
    SplitWithout(id, ':');
    var two := id + ":" + port;
    SplitBetween(two, rest, ':');
    assert two + [':'] + rest == two + ":" + rest;
    assert '|' !in two && '|' !in two + ":" + rest;
    hide Split;
  }

  /** Commas separate entries; one entry alone is trimmed, and dropped if it or its id is empty. */
  lemma EntriesApart(a: string, b: string, localMode: bool)
    requires a != "" && b != ""
    ensures RecordsFromEnv(a + "," + b, localMode) == RecordsFromEnv(a, localMode) + RecordsFromEnv(b, localMode)
    ensures ',' !in a ==>
              RecordsFromEnv(a, localMode)
              == if Trim(a) == "" || ParseEntry(Trim(a)).did == "" then [] else [ParseEntry(Trim(a))]
  {
    SplitBetween(a, b, ',');
    assert a + [','] + b == a + "," + b;
    EntriesSplit(Split(a, ','), Split(b, ','));
    if ',' !in a {
      SplitWithout(a, ',');
      assert ParseEntries([a]) == EntryRecords(a) + ParseEntries([]);
    }
  }

  lemma {:induction false} EntriesSplit(a: seq<string>, b: seq<string>)
    ensures ParseEntries(a + b) == ParseEntries(a) + ParseEntries(b)
  {
    if a == [] {
      assert a + b == b;
    } else {
      assert (a + b)[1..] == a[1..] + b;
      EntriesSplit(a[1..], b);
    }
  }

  /** Without the variable there are no workers, or in local mode three. */
  lemma NoVariable()
    ensures RecordsFromEnv("", false) == []
    ensures RecordsFromEnv("", true)
            == [Record("worker1", "http://localhost:3001", ""), Record("worker2", "http://localhost:3002", ""),
                Record("worker3", "http://localhost:3003", "")]
  {
  }
}
