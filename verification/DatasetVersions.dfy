/** Version ids, manifest files and the last-wins merge of manifests. */
module DatasetVersions {
  import opened Common
  import Tail = SnapshotTail

  // ----------------------------------------------------------------- version ids

  predicate AllDigits(s: string) {
    forall i :: 0 <= i < |s| ==> '0' <= s[i] <= '9'
  }

  function Digits(n: nat): (s: string)
    ensures s != [] && AllDigits(s)
  {
    if n < 10 then ["0123456789"[n]] else Digits(n / 10) + ["0123456789"[n % 10]]
  }

  function Value(s: string): nat
    requires AllDigits(s)
  {
    if s == [] then 0
    else Value(s[..|s| - 1]) * 10 + (s[|s| - 1] as int - '0' as int)
  }

  function VersionId(n: nat): string { "v" + Digits(n) }

  function ParseVersion(id: string): Option<nat> {
    if |id| >= 2 && id[0] == 'v' && AllDigits(id[1..]) then Some(Value(id[1..])) else None
  }

  function NextVersionId(prev: Option<string>): Option<string> {
    match prev
    case None => Some(VersionId(1))
    case Some(id) =>
      match ParseVersion(id)
      case None => None
      case Some(n) => Some(VersionId(n + 1))
  }

  lemma {:induction false} DigitsValue(n: nat)
    ensures Value(Digits(n)) == n
  {
    var s := Digits(n);
    var last := "0123456789"[n % 10];
    assert last as int - '0' as int == n % 10;
    if n >= 10 {
      DigitsValue(n / 10);
      assert s[..|s| - 1] == Digits(n / 10) && s[|s| - 1] == last;
    } else {
      assert s[..0] == [];
    }
  }

  /** Rendering a version and parsing it back gives the version, so the next id is one higher and
      different versions have different ids. */
  lemma VersionRoundTrip(n: nat)
    ensures ParseVersion(VersionId(n)) == Some(n)
    ensures NextVersionId(Some(VersionId(n))) == Some(VersionId(n + 1))
  {
    DigitsValue(n);
    assert VersionId(n)[1..] == Digits(n);
  }

  lemma VersionIdInjective(m: nat, n: nat)
    requires VersionId(m) == VersionId(n)
    ensures m == n
  {
    VersionRoundTrip(m);
    VersionRoundTrip(n);
  }

  ghost function Zeros(k: nat): (s: string)
    ensures |s| == k && forall i :: 0 <= i < k ==> s[i] == '0'
  {
    if k == 0 then [] else Zeros(k - 1) + "0"
  }

  lemma {:induction false} LeadingZerosAreWorthless(k: nat, s: string)
    requires AllDigits(s)
    ensures Value(Zeros(k) + s) == Value(s)
  {
    if s != [] {
      LeadingZerosAreWorthless(k, s[..|s| - 1]);
      assert (Zeros(k) + s)[..k + |s| - 1] == Zeros(k) + s[..|s| - 1];
    } else if k > 0 {
      LeadingZerosAreWorthless(k - 1, []);
      assert (Zeros(k) + s)[..k - 1] == Zeros(k - 1) + [];
    }
  }

  lemma DigitIs(c: char)
    requires '0' <= c <= '9'
    ensures "0123456789"[c as int - '0' as int] == c
  {
  }

  lemma DigitsUnfold(v: nat, d: nat)
    requires d < 10
    ensures Digits(v * 10 + d) == (if v == 0 then [] else Digits(v)) + ["0123456789"[d]]
  {
    var n := v * 10 + d;
    assert n / 10 == v && n % 10 == d && (n < 10 <==> v == 0);
  }

  lemma OneMoreDigit(v: nat, c: char)
    requires '0' <= c <= '9'
    ensures Digits(v * 10 + (c as int - '0' as int)) == (if v == 0 then [] else Digits(v)) + [c]
  {
    hide Digits;
    DigitIs(c);
    DigitsUnfold(v, c as int - '0' as int);
  }

  lemma ValueOfMore(init: string, c: char)
    requires AllDigits(init) && '0' <= c <= '9'
    ensures AllDigits(init + [c]) && Value(init + [c]) == Value(init) * 10 + (c as int - '0' as int)
  {
    assert (init + [c])[..|init|] == init;
  }

  lemma {:induction false} DigitsOfValue(s: string) returns (k: nat)
    requires s != [] && AllDigits(s)
    ensures s == Zeros(k) + Digits(Value(s))
  {
    hide Digits, Value, Zeros;
    var init, c := s[..|s| - 1], s[|s| - 1];
    k := 0;
    if init != [] {
      k := DigitsOfValue(init);
    }
    assert s == init + [c];
    DigitsStep(init, c, k);
    k := if init != [] && Value(init) == 0 then k + 1 else k;
  }

  lemma DigitsStep(init: string, c: char, k: nat)
    requires AllDigits(init) && '0' <= c <= '9'
    requires if init == [] then k == 0 else init == Zeros(k) + Digits(Value(init))
    ensures AllDigits(init + [c])
    ensures init + [c] == Zeros(if init != [] && Value(init) == 0 then k + 1 else k) + Digits(Value(init + [c]))
  {
    hide Digits, Value, Zeros;
    ValueOfMore(init, c);
    OneMoreDigit(Value(init), c);
    NothingWorth();
    AnotherZero(k, c);
    if init != [] {
      JoinsLeft(Zeros(k), Digits(Value(init)), [c]);
    }
  }

  lemma NothingWorth()
    ensures Value([]) == 0 && Zeros(0) == []
  {
  }

  lemma JoinsLeft(a: string, b: string, c: string)
    ensures (a + b) + c == a + (b + c)
  {
  }

  lemma AnotherZero(k: nat, c: char)
    ensures Zeros(k) + Digits(0) + [c] == Zeros(k + 1) + [c]
  {
    assert Digits(0) == "0";
  }

  /** Exactly the ids made of a `v`, zeros and the decimal digits of a number parse, and as that number. */
  lemma ParseVersionExactly(id: string, n: nat)
    ensures ParseVersion(id) == Some(n) <==> exists k: nat :: id == "v" + Zeros(k) + Digits(n)
  {
    hide Value, Digits;
    assert id != [] ==> id == [id[0]] + id[1..];
    if ParseVersion(id) == Some(n) {
      var k := DigitsOfValue(id[1..]);
      assert id == "v" + (Zeros(k) + Digits(n)) == "v" + Zeros(k) + Digits(n);
    }
    if k: nat :| id == "v" + Zeros(k) + Digits(n) {
      LeadingZerosAreWorthless(k, Digits(n));
      DigitsValue(n);
      assert id[1..] == Zeros(k) + Digits(n);
    }
  }

  // -------------------------------------------------------------- manifest files

  type Payload(==,!new)

  datatype Entry = Entry(rolloutId: string, payload: Payload)

  /** How an entry is written on one line and read back; `sep` are the characters `splitlines` splits on,
      and `blank` says that nothing but white space is left. */
  datatype Codec = Codec(
    render: Entry -> string, parse: string -> Option<Entry>, sep: char -> bool, blank: string -> bool)

  /** What any JSON object rendering gives: it parses back, starts with a brace, and no shorter prefix
      of it parses. */
  ghost predicate JsonLike(c: Codec) {
    && c.sep('\n') && c.blank([])
    && (forall e :: c.render(e) != [] && !c.sep(c.render(e)[0]) && c.parse(c.render(e)) == Some(e))
    && (forall e, k :: 0 < k <= |c.render(e)| ==> !c.blank(c.render(e)[..k]))
    && (forall e, k :: 0 <= k < |c.render(e)| ==> c.parse(c.render(e)[..k]) == None)
  }

  ghost predicate OneLine(c: Codec, e: Entry) {
    forall i :: 0 <= i < |c.render(e)| ==> !c.sep(c.render(e)[i])
  }

  ghost predicate OneLineEach(c: Codec, rows: seq<Entry>) {
    forall e :: e in rows ==> OneLine(c, e)
  }

  function WriteJsonl(c: Codec, rows: seq<Entry>): string {
    if rows == [] then [] else c.render(rows[0]) + ['\n'] + WriteJsonl(c, rows[1..])
  }

  /** The rows of a file, or None when some line does not decode. */
  function ReadJsonl(c: Codec, text: string): Option<seq<Entry>>
    decreases |text|
  {
    var k := Tail.SeparatorAt(c.sep, text);
    if text == [] then Some([])
    else
      var rest := ReadJsonl(c, if k == |text| then [] else text[k + 1..]);
      if c.blank(text[..k]) then rest
      else
        match (c.parse(text[..k]), rest)
        case (Some(e), Some(rows)) => Some([e] + rows)
        case _ => None
  }

  /** A file is read line by line: a blank line is skipped, and one that does not decode makes the whole
      file unreadable. */
  lemma ReadJsonlLine(c: Codec, line: string, end: char, rest: string)
    requires c.sep(end) && forall i :: 0 <= i < |line| ==> !c.sep(line[i])
    ensures ReadJsonl(c, line + [end] + rest) ==
      if c.blank(line) then ReadJsonl(c, rest)
      else if c.parse(line).None? || ReadJsonl(c, rest).None? then None
      else Some([c.parse(line).value] + ReadJsonl(c, rest).value)
  {
    hide Tail.SeparatorAt;
    var text := line + [end] + rest;
    assert text[|line|] == end && forall i :: 0 <= i < |line| ==> text[i] == line[i];
    var k := Tail.SeparatorAt(c.sep, text);
    assert k == |line|;
    assert text[..k] == line && text[k + 1..] == rest;
  }

  lemma ReadJsonlLastLine(c: Codec, line: string)
    requires line != [] && forall i :: 0 <= i < |line| ==> !c.sep(line[i])
    ensures ReadJsonl(c, line) == (
      if c.blank(line) then Some([]) else if c.parse(line).None? then None else Some([c.parse(line).value]))
  {
    hide Tail.SeparatorAt;
    assert Tail.SeparatorAt(c.sep, line) == |line| && line[..|line|] == line;
    assert ReadJsonl(c, []) == Some([]);
    if e :| c.parse(line) == Some(e) {
      assert [e] + [] == [e];
    }
  }

  lemma {:induction false} FirstSeparator(sep: char -> bool, text: string, k: nat)
    requires k < |text| && sep(text[k]) && forall i :: 0 <= i < k ==> !sep(text[i])
    ensures Tail.SeparatorAt(sep, text) == k
  {
    var j := Tail.SeparatorAt(sep, text);
    assert j <= k;
    assert j < |text|;
  }

  /** A manifest reads back as the rows written exactly when no row contains a character that
      `splitlines` takes for a line end; otherwise reading it fails. */
  lemma {:induction false} ManifestRoundTrip(c: Codec, rows: seq<Entry>)
    requires JsonLike(c)
    ensures OneLineEach(c, rows) ==> ReadJsonl(c, WriteJsonl(c, rows)) == Some(rows)
    ensures !OneLineEach(c, rows) ==> ReadJsonl(c, WriteJsonl(c, rows)) == None
  {
    if rows != [] {
      var e, rest := rows[0], WriteJsonl(c, rows[1..]);
      var line := c.render(e);
      var text := WriteJsonl(c, rows);
      ManifestRoundTrip(c, rows[1..]);
      assert rows == [e] + rows[1..];
      if OneLine(c, e) {
        FirstSeparator(c.sep, text, |line|);
        assert text[..|line|] == line == line[..|line|] && text[|line| + 1..] == rest;
        assert OneLineEach(c, rows) <==> OneLineEach(c, rows[1..]);
      } else {
        BrokenLine(c, e, rest);
      }
    }
  }

  lemma BrokenLine(c: Codec, e: Entry, rest: string)
    requires JsonLike(c) && !OneLine(c, e)
    ensures ReadJsonl(c, c.render(e) + ['\n'] + rest) == None
  {
    var line := c.render(e);
    var text := line + ['\n'] + rest;
    var k := Tail.SeparatorAt(c.sep, text);
    var i :| 0 <= i < |line| && c.sep(line[i]);
    assert text[i] == line[i] && text[0] == line[0];
    assert 0 < k <= i;
    assert text[..k] == line[..k];
  }

  // ------------------------------------------------------------- last-wins merge

  function Ids(rows: seq<Entry>): (ids: seq<string>)
    ensures |ids| == |rows| && forall i :: 0 <= i < |rows| ==> ids[i] == rows[i].rolloutId
  {
    seq(|rows|, i requires 0 <= i < |rows| => rows[i].rolloutId)
  }

  function LastById(rows: seq<Entry>): (m: map<string, Entry>)
    ensures m.Keys == set id | id in Ids(rows)
  {
    if rows == [] then map[]
    else
      var n := |rows| - 1;
      assert Ids(rows) == Ids(rows[..n]) + [rows[n].rolloutId];
      LastById(rows[..n])[rows[n].rolloutId := rows[n]]
  }

  function Pick(m: map<string, Entry>, ids: seq<string>): (rows: seq<Entry>)
    requires forall id :: id in ids ==> id in m
    ensures |rows| == |ids| && forall i :: 0 <= i < |ids| ==> rows[i] == m[ids[i]]
  {
    seq(|ids|, i requires 0 <= i < |ids| => m[ids[i]])
  }

  /** One entry per rollout, the last one given, in the order of the rollout ids. */
  function Merged(rows: seq<Entry>): seq<Entry> {
    Pick(LastById(rows), Sort(Dedupe(Ids(rows)), StrLe))
  }

  lemma NoRows()
    ensures LastById([]) == map[] && Dedupe(Ids([])) == []
  {
  }

  lemma OneMoreRow(all: seq<Entry>, i: nat)
    requires i < |all|
    ensures var id, keys := all[i].rolloutId, Dedupe(Ids(all[..i]));
      && Dedupe(Ids(all[..i + 1])) == (if id in LastById(all[..i]) then keys else keys + [id])
      && LastById(all[..i + 1]) == LastById(all[..i])[id := all[i]]
  {
    var ids := Ids(all[..i + 1]);
    assert all[..i + 1][..i] == all[..i];
    assert ids == Ids(all[..i]) + [all[i].rolloutId] && ids[..i] == Ids(all[..i]);
  }

  /** A dictionary filled in a loop: `order` holds its keys in insertion order. */
  method MergeManifestEntries(prev: seq<Entry>, more: seq<Entry>) returns (rows: seq<Entry>)
    ensures rows == Merged(prev + more)
  {
    hide Ids, Sort, Pick, StrLe, Dedupe, LastById;
    var all := prev + more;
    NoRows();
    var byRollout: map<string, Entry>, order: seq<string> := map[], [];
    for i := 0 to |all|
      invariant byRollout == LastById(all[..i])
      invariant order == Dedupe(Ids(all[..i]))
    {
      var id := all[i].rolloutId;
      OneMoreRow(all, i);
      if id !in byRollout {
        order := order + [id];
      }
      byRollout := byRollout[id := all[i]];
    }
    assert all[..|all|] == all;
    rows := Pick(byRollout, Sort(order, StrLe));
  }

  /** What the merge promises, without saying how it is computed. */
  ghost predicate LastFor(all: seq<Entry>, e: Entry) {
    exists k :: IsLastAt(all, e, k)
  }

  ghost predicate IsLastAt(all: seq<Entry>, e: Entry, k: int) {
    0 <= k < |all| && all[k] == e && forall j :: k < j < |all| ==> all[j].rolloutId != e.rolloutId
  }

  ghost predicate IsMerge(rows: seq<Entry>, all: seq<Entry>) {
    && StrictlySorted(Ids(rows), StrLe)
    && (forall id :: id in Ids(rows) <==> id in Ids(all))
    && (forall e :: e in rows ==> LastFor(all, e))
  }

  lemma LastForStep(all: seq<Entry>, e: Entry)
    requires all != []
    ensures var n := |all| - 1;
      LastFor(all, e) <==> all[n] == e || (LastFor(all[..n], e) && all[n].rolloutId != e.rolloutId)
  {
    var n := |all| - 1;
    var init := all[..n];
    if LastFor(all, e) && all[n] != e {
      var k :| IsLastAt(all, e, k);
      assert IsLastAt(init, e, k);
    }
    if LastFor(init, e) && all[n].rolloutId != e.rolloutId {
      var k :| IsLastAt(init, e, k);
      assert IsLastAt(all, e, k);
    }
    assert all[n] == e ==> IsLastAt(all, e, n);
  }

  lemma {:induction false} LastByIdIsLast(all: seq<Entry>, e: Entry)
    ensures LastFor(all, e) <==> e.rolloutId in LastById(all) && LastById(all)[e.rolloutId] == e
  {
    hide LastFor, Ids;
    if all == [] {
      NothingIsLast(e);
    } else {
      LastForStep(all, e);
      LastByIdIsLast(all[..|all| - 1], e);
    }
  }

  lemma LastForIn(all: seq<Entry>, e: Entry)
    requires LastFor(all, e)
    ensures e in all
  {
  }

  lemma NothingIsLast(e: Entry)
    ensures !LastFor([], e)
  {
  }

  lemma {:induction false} KeyOfLast(all: seq<Entry>, id: string)
    requires id in LastById(all)
    ensures LastById(all)[id].rolloutId == id
  {
    if all[|all| - 1].rolloutId != id {
      KeyOfLast(all[..|all| - 1], id);
    }
  }

  lemma MergedIds(all: seq<Entry>)
    ensures Ids(Merged(all)) == Sort(Dedupe(Ids(all)), StrLe)
    ensures StrictlySorted(Ids(Merged(all)), StrLe)
  {
    var ids := Sort(Dedupe(Ids(all)), StrLe);
    forall i | 0 <= i < |ids| ensures Ids(Merged(all))[i] == ids[i] {
      assert ids[i] in ids;
      KeyOfLast(all, ids[i]);
    }
    StringOrder();
    SortIsStrict(Dedupe(Ids(all)), StrLe);
  }

  /** The merge is the only list that is sorted by distinct ids, has exactly the ids given and holds for
      each the last entry given. */
  lemma MergedExactly(all: seq<Entry>, rows: seq<Entry>)
    ensures rows == Merged(all) <==> IsMerge(rows, all)
  {
    MergedIds(all);
    var m := Merged(all);
    forall e | e in m ensures LastFor(all, e) {
      var i :| 0 <= i < |m| && m[i] == e;
      KeyOfLast(all, Ids(m)[i]);
      LastByIdIsLast(all, e);
    }
    if IsMerge(rows, all) {
      StringOrder();
      StrictlySortedIsUnique(Ids(rows), Ids(m), StrLe);
      forall i | 0 <= i < |rows| ensures rows[i] == m[i] {
        assert rows[i] in rows && m[i] in m && Ids(rows)[i] == Ids(m)[i];
        LastByIdIsLast(all, rows[i]);
        LastByIdIsLast(all, m[i]);
      }
    }
  }

  lemma {:induction false} LastByIdAppend(a: seq<Entry>, b: seq<Entry>)
    ensures LastById(a + b) == LastById(a) + LastById(b)
  {
    hide Ids;
    if b == [] {
      assert a + b == a && LastById(b) == map[];
    } else {
      var n := |b| - 1;
      LastByIdAppend(a, b[..n]);
      assert (a + b)[..|a + b| - 1] == a + b[..n];
      UpdateSum(LastById(a), LastById(b[..n]), b[n].rolloutId, b[n]);
    }
  }

  lemma UpdateSum(m: map<string, Entry>, n: map<string, Entry>, id: string, e: Entry)
    ensures (m + n)[id := e] == m + n[id := e]
  {
  }

  lemma SameLastSameMerge(a: seq<Entry>, b: seq<Entry>)
    requires LastById(a) == LastById(b)
    ensures Merged(a) == Merged(b)
  {
    MergedIds(a);
    MergedIds(b);
    StringOrder();
    var x, y := Sort(Dedupe(Ids(a)), StrLe), Sort(Dedupe(Ids(b)), StrLe);
    forall id ensures id in x <==> id in y {
      assert id in Ids(a) <==> id in LastById(a).Keys;
      assert id in Ids(b) <==> id in LastById(b).Keys;
    }
    StrictlySortedIsUnique(x, y, StrLe);
  }

  lemma MergedKeepsLast(all: seq<Entry>)
    ensures LastById(Merged(all)) == LastById(all)
  {
    hide LastById, LastFor, Ids, StrictlySorted, StrLe, Merged;
    MergedExactly(all, Merged(all));
    var m := Merged(all);
    forall id | id in LastById(m) ensures id in LastById(all) && LastById(m)[id] == LastById(all)[id] {
      KeyOfLast(m, id);
      LastByIdIsLast(m, LastById(m)[id]);
      LastForIn(m, LastById(m)[id]);
      LastByIdIsLast(all, LastById(m)[id]);
    }
    forall id ensures id in LastById(m) <==> id in LastById(all) {
      assert id in Ids(m) <==> id in Ids(all);
    }
  }

  /** Merging is associative, and merging in steps equals one merge of everything. */
  lemma MergeInSteps(a: seq<Entry>, b: seq<Entry>)
    ensures Merged(Merged(a) + b) == Merged(a + b) == Merged(a + Merged(b))
  {
    LastByIdAppend(a, b);
    LastByIdAppend(Merged(a), b);
    LastByIdAppend(a, Merged(b));
    MergedKeepsLast(a);
    MergedKeepsLast(b);
    SameLastSameMerge(Merged(a) + b, a + b);
    SameLastSameMerge(a + Merged(b), a + b);
  }

  lemma MergeIsAssociative(a: seq<Entry>, b: seq<Entry>, c: seq<Entry>)
    ensures Merged(Merged(a + b) + c) == Merged(a + Merged(b + c))
  {
    hide *;
    MergeInSteps(a + b, c);
    MergeInSteps(a, b + c);
    assert a + (b + c) == a + b + c;
  }
}
