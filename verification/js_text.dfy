/** The JavaScript string operations the agents rely on. */
module JsText {
  /** White space and line terminators as `trim` sees them, sections 12.2 and 12.3 of ECMA-262. */
  predicate Space(c: char) {
    var n := c as int;
    || 0x09 <= n <= 0x0D || n == 0x20 || n == 0xA0 || n == 0x1680 || 0x2000 <= n <= 0x200A
    || n == 0x2028 || n == 0x2029 || n == 0x202F || n == 0x205F || n == 0x3000 || n == 0xFEFF
  }

  function TrimStart(s: string): string {
    if s != [] && Space(s[0]) then TrimStart(s[1..]) else s
  }

  function TrimEnd(s: string): string {
    if s != [] && Space(s[|s| - 1]) then TrimEnd(s[..|s| - 1]) else s
  }

  function Trim(s: string): string { TrimEnd(TrimStart(s)) }

  /** `s.split(sep)` for a one-character separator; never empty. */
  function Split(s: string, sep: char): (parts: seq<string>)
    ensures parts != []
  {
    if s == [] then [[]]
    else
      var rest := Split(s[1..], sep);
      if s[0] == sep then [[]] + rest else [[s[0]] + rest[0]] + rest[1..]
  }

  function Join(parts: seq<string>, sep: char): string {
    if parts == [] then []
    else if |parts| == 1 then parts[0]
    else parts[0] + [sep] + Join(parts[1..], sep)
  }

  lemma {:induction false} SplitPartsLackSep(s: string, sep: char)
    ensures forall k :: 0 <= k < |Split(s, sep)| ==> sep !in Split(s, sep)[k]
  {
    if s != [] { SplitPartsLackSep(s[1..], sep); }
  }

  lemma {:induction false} SplitWithout(s: string, sep: char)
    requires sep !in s
    ensures Split(s, sep) == [s]
  {
    if s != [] {
      SplitWithout(s[1..], sep);
      assert [s[0]] + s[1..] == s;
    }
  }

  lemma {:induction false} SplitAtSep(a: string, b: string, sep: char)
    requires sep !in a
    ensures Split(a + [sep] + b, sep) == [a] + Split(b, sep)
  {
    if a == [] {
      assert (a + [sep] + b)[1..] == b;
    } else {
      SplitAtSep(a[1..], b, sep);
      assert (a + [sep] + b)[1..] == a[1..] + [sep] + b;
      assert [a[0]] + a[1..] == a;
    }
  }

  lemma {:induction false} SplitUndoesJoin(parts: seq<string>, sep: char)
    requires parts != [] && forall k :: 0 <= k < |parts| ==> sep !in parts[k]
    ensures Split(Join(parts, sep), sep) == parts
  {
    if |parts| == 1 {
      SplitWithout(parts[0], sep);
    } else {
      SplitUndoesJoin(parts[1..], sep);
      SplitAtSep(parts[0], Join(parts[1..], sep), sep);
    }
  }

  lemma {:induction false} TrimEndEnds(s: string)
    ensures TrimEnd(s) <= s
    ensures TrimEnd(s) != [] ==> !Space(TrimEnd(s)[|TrimEnd(s)| - 1])
  {
    if s != [] && Space(s[|s| - 1]) { TrimEndEnds(s[..|s| - 1]); }
  }
}

/** What trimming and splitting come to. */
module JsTextFacts {
  import opened JsText

  const SPACES: string :=
    "\t\n\U{0B}\U{0C}\r \U{A0}\U{1680}\U{2000}\U{2001}\U{2002}\U{2003}\U{2004}\U{2005}\U{2006}\U{2007}"
    + "\U{2008}\U{2009}\U{200A}\U{2028}\U{2029}\U{202F}\U{205F}\U{3000}\U{FEFF}"

  /** These 25 characters are the white space, and no others. */
  lemma SpacesListed(c: char)
    ensures Space(c) <==> c in SPACES
  {
    var n := c as int;
    assert SPACES[7] as int == 0x1680;
    if 0x09 <= n <= 0x0D { assert SPACES[n - 0x09] == c; }
    if 0x2000 <= n <= 0x200A { assert SPACES[8 + n - 0x2000] == c; }
    forall k | 0 <= k < |SPACES|
      ensures Space(SPACES[k])
    {
      SpaceAt(k);
    }
  }

  lemma SpaceAt(k: nat)
    requires k < |SPACES|
    ensures Space(SPACES[k])
  {
  }

  /** Trimming takes white space off both ends, all of it and nothing else. */
  lemma TrimTakesSpaceOnly(s: string) returns (lead: string, trail: string)
    ensures s == lead + Trim(s) + trail
    ensures (forall k :: 0 <= k < |lead| ==> Space(lead[k])) && forall k :: 0 <= k < |trail| ==> Space(trail[k])
    ensures Trim(s) != "" ==> !Space(Trim(s)[0]) && !Space(Trim(s)[|Trim(s)| - 1])
  {
    lead := StartTaken(s);
    trail := EndTaken(TrimStart(s));
    TrimEndEnds(TrimStart(s));
    assert lead + TrimStart(s) == lead + Trim(s) + trail;
  }

  lemma {:induction false} StartTaken(s: string) returns (lead: string)
    ensures s == lead + TrimStart(s) && forall k :: 0 <= k < |lead| ==> Space(lead[k])
    ensures TrimStart(s) != "" ==> !Space(TrimStart(s)[0])
  {
    lead := "";
    if s != [] && Space(s[0]) {
      var rest := StartTaken(s[1..]);
      lead := [s[0]] + rest;
      assert s == [s[0]] + s[1..];
    }
  }

  lemma {:induction false} EndTaken(s: string) returns (trail: string)
    ensures s == TrimEnd(s) + trail && forall k :: 0 <= k < |trail| ==> Space(trail[k])
  {
    trail := "";
    if s != [] && Space(s[|s| - 1]) {
      var rest := EndTaken(s[..|s| - 1]);
      trail := rest + [s[|s| - 1]];
      assert s == s[..|s| - 1] + [s[|s| - 1]];
    }
  }

  /** Splitting is undone by joining: nothing is lost but the separators. */
  lemma {:induction false} JoinUndoesSplit(s: string, sep: char)
    ensures Join(Split(s, sep), sep) == s
  {
    if s != [] {
      JoinUndoesSplit(s[1..], sep);
      var rest := Split(s[1..], sep);
      if s[0] == sep {
        assert Split(s, sep) == [[]] + rest && ([[]] + rest)[1..] == rest;
        assert s == [sep] + s[1..];
      } else {
        var first := [s[0]] + rest[0];
        assert Split(s, sep) == [first] + rest[1..] && ([first] + rest[1..])[1..] == rest[1..];
        assert s == [s[0]] + s[1..];
      }
    }
  }

  /** One character in front, which may be a separator. */
  function InFront(c: char, parts: seq<string>, sep: char): seq<string>
    requires parts != []
  {
    if c == sep then [[]] + parts else [[c] + parts[0]] + parts[1..]
  }

  lemma SplitFront(c: char, s: string, sep: char)
    ensures Split([c] + s, sep) == InFront(c, Split(s, sep), sep)
  {
    assert ([c] + s)[1..] == s;
  }

  lemma FrontGoesLeft(c: char, p: seq<string>, q: seq<string>, sep: char)
    requires p != []
    ensures InFront(c, p + q, sep) == InFront(c, p, sep) + q
  {
    assert (p + q)[0] == p[0] && (p + q)[1..] == p[1..] + q;
  }

  /** A separator between two texts separates their parts. */
  lemma {:induction false} SplitBetween(a: string, b: string, sep: char)
    ensures Split(a + [sep] + b, sep) == Split(a, sep) + Split(b, sep)
  {
    if a == [] {
      assert a + [sep] + b == [sep] + b;
      SplitFront(sep, b, sep);
    } else {
      SplitBetween(a[1..], b, sep);
      SplitFront(a[0], a[1..], sep);
      SplitFront(a[0], a[1..] + [sep] + b, sep);
      FrontGoesLeft(a[0], Split(a[1..], sep), Split(b, sep), sep);
      hide Split, InFront;
      assert a == [a[0]] + a[1..] && a + [sep] + b == [a[0]] + (a[1..] + [sep] + b);
    }
  }
}

/** Keys of the shared memory. */
module SharedKeys {
  import opened Wrappers

  const TASKS := "coordination/tasks/"

  function WorkerKey(id: string, field: string): string { TASKS + id + "/" + field }
  function StatusKey(id: string): string { WorkerKey(id, "status") }
  function ResultKey(id: string): string { WorkerKey(id, "result") }

  /** The text before the first slash. */
  function Segment(s: string): (seg: string)
    ensures seg <= s && '/' !in seg
  {
    if s == [] || s[0] == '/' then [] else [s[0]] + Segment(s[1..])
  }

  /** The regular expression `coordination\/tasks\/([^/]+)\/result` anchored at the start of `s`. */
  function MatchHere(s: string): Option<string> {
    if TASKS <= s then
      var seg := Segment(s[|TASKS|..]);
      if seg != [] && "/result" <= s[|TASKS| + |seg|..] then Some(seg) else None
    else None
  }

  /** The capture of the leftmost match, or the empty string. */
  function ExtractWorkerId(key: string): string {
    if MatchHere(key).Some? then MatchHere(key).value
    else if key == [] then [] else ExtractWorkerId(key[1..])
  }

  /** The expression matches `key` from place `k` on, with the id between the fixed parts. */
  ghost predicate MatchesAt(key: string, k: nat, id: string) {
    && k <= |key| && id != "" && '/' !in id
    && "coordination/tasks/" + id + "/result" <= key[k..]
  }

  lemma MatchInFields(s: string, id: string)
    ensures MatchHere(s) == Some(id) <==> MatchesAt(s, 0, id)
  {
    hide *;
    if MatchHere(s) == Some(id) { HereIsAtZero(s, id); }
    if MatchesAt(s, 0, id) { AtZeroIsHere(s, id); }
  }

  lemma HereIsAtZero(s: string, id: string)
    requires MatchHere(s) == Some(id)
    ensures MatchesAt(s, 0, id)
  {
    assert s[0..] == s;
    assert s == (TASKS + id + "/result") + s[|TASKS| + |id| + 7..];
  }

  lemma AtZeroIsHere(s: string, id: string)
    requires MatchesAt(s, 0, id)
    ensures MatchHere(s) == Some(id)
  {
    assert s[0..] == s;
    var rest := s[|TASKS + id + "/result"|..];
    assert s == (TASKS + id + "/result") + rest;
    assert s[|TASKS|..] == id + "/" + ("result" + rest);
    SegmentStops(id, "result" + rest);
    assert s[|TASKS| + |id|..] == "/result" + rest;
  }

  lemma MatchFromOneOn(key: string, k: nat, id: string)
    requires key != [] && k > 0
    ensures MatchesAt(key, k, id) <==> MatchesAt(key[1..], k - 1, id)
  {
    assert k <= |key| ==> key[1..][k - 1..] == key[k..];
  }

  /** The extracted id is the one of the leftmost match. */
  lemma {:induction false} ExtractsLeftmost(key: string, k: nat, id: string)
    requires MatchesAt(key, k, id) && forall j: nat, other :: j < k ==> !MatchesAt(key, j, other)
    ensures ExtractWorkerId(key) == id
  {
    hide MatchesAt, MatchHere;
    MatchInFields(key, id);
    if k > 0 {
      if MatchHere(key).Some? { MatchInFields(key, MatchHere(key).value); }
      MatchNeedsText(key, k, id);
      MatchFromOneOn(key, k, id);
      forall j: nat, other | j < k - 1
        ensures !MatchesAt(key[1..], j, other)
      {
        MatchFromOneOn(key, j + 1, other);
      }
      ExtractsLeftmost(key[1..], k - 1, id);
    }
  }

  lemma MatchNeedsText(key: string, k: nat, id: string)
    requires MatchesAt(key, k, id)
    ensures key != []
  {
  }

  /** Nothing is extracted exactly if nothing matches. */
  lemma {:induction false} ExtractsNothing(key: string)
    ensures ExtractWorkerId(key) == "" <==> forall k: nat, id :: !MatchesAt(key, k, id)
  {
    hide MatchesAt, ExtractWorkerId;
    if k: nat, id :| MatchesAt(key, k, id) {
      MatchIsExtracted(key, k, id);
    } else {
      SomethingExtracted(key);
    }
  }

  lemma {:induction false} MatchIsExtracted(key: string, k: nat, id: string)
    requires MatchesAt(key, k, id)
    ensures ExtractWorkerId(key) != ""
  {
    hide MatchesAt;
    MatchInFields(key, id);
    if MatchHere(key).None? {
      MatchNeedsText(key, k, id);
      MatchFromOneOn(key, k, id);
      MatchIsExtracted(key[1..], k - 1, id);
    }
  }

  lemma {:induction false} SomethingExtracted(key: string)
    ensures ExtractWorkerId(key) != "" ==> exists k: nat, id :: MatchesAt(key, k, id)
  {
    hide MatchesAt;
    if MatchHere(key).Some? {
      MatchInFields(key, MatchHere(key).value);
    } else if key != [] {
      SomethingExtracted(key[1..]);
      if k: nat, id :| MatchesAt(key[1..], k, id) { MatchFromOneOn(key, k + 1, id); }
    }
  }

  lemma {:induction false} SegmentStops(id: string, rest: string)
    requires '/' !in id
    ensures Segment(id + "/" + rest) == id
  {
    if id != [] {
      SegmentStops(id[1..], rest);
      assert (id + "/" + rest)[1..] == id[1..] + "/" + rest;
    }
  }

  lemma {:induction false} ExtractedLacksSlash(key: string)
    ensures '/' !in ExtractWorkerId(key)
  {
    if MatchHere(key).None? && key != [] { ExtractedLacksSlash(key[1..]); }
  }

  /** The id is recovered from a worker's result key exactly when it holds no slash. */
  lemma ExtractInverts(id: string)
    ensures ExtractWorkerId(ResultKey(id)) == id <==> '/' !in id
  {
    ExtractedLacksSlash(ResultKey(id));
    if '/' !in id {
      assert ResultKey(id)[|TASKS|..] == id + "/" + "result";
      SegmentStops(id, "result");
      if id != [] {
        assert ResultKey(id)[|TASKS| + |id|..] == "/result";
      } else {
        ShortKeysDoNotMatch(ResultKey(id));
      }
    }
  }

  /** A match takes at least one character between the fixed parts. */
  lemma {:induction false} ShortKeysDoNotMatch(key: string)
    requires |key| < |TASKS| + |"/result"| + 1
    ensures ExtractWorkerId(key) == ""
  {
    if key != [] { ShortKeysDoNotMatch(key[1..]); }
  }

  function AfterLastSlash(s: string): string {
    if s == [] then [] else if '/' in s[1..] then AfterLastSlash(s[1..]) else if s[0] == '/' then s[1..] else s
  }

  lemma {:induction false} FieldIsReadBack(before: string, field: string)
    requires '/' !in field
    ensures AfterLastSlash(before + "/" + field) == field
  {
    var s := before + "/" + field;
    if before == [] {
      assert s[1..] == field;
    } else {
      FieldIsReadBack(before[1..], field);
      assert s[1..] == before[1..] + "/" + field;
    }
  }

  /** Different workers, or different fields, never share a cell. */
  lemma CellsAreSeparate(id1: string, field1: string, id2: string, field2: string)
    requires '/' !in field1 && '/' !in field2
    ensures WorkerKey(id1, field1) == WorkerKey(id2, field2) <==> id1 == id2 && field1 == field2
  {
    var k1, k2 := WorkerKey(id1, field1), WorkerKey(id2, field2);
    FieldIsReadBack(TASKS + id1, field1);
    FieldIsReadBack(TASKS + id2, field2);
    assert id1 == k1[|TASKS|..|k1| - |field1| - 1] && id2 == k2[|TASKS|..|k2| - |field2| - 1];
  }
}
