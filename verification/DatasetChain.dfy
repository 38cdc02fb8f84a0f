/** Dataset versions written one after the other: the updater, the choice of the base version and the
    difference of two locks. */
module DatasetChain {
  import opened Common
  import opened DatasetVersions

  datatype Lock = Lock(versionId: string, base: Option<string>, includedIds: seq<string>, total: nat)

  /** A version directory that holds a lock: the lock and the text of its manifest. */
  datatype Version = Version(lock: Lock, manifest: string)

  type Root = map<string, Version>

  datatype UpdateError = UnreadableManifest | BadVersionId | LockExists

  function LockFor(id: string, prev: Option<Version>, rows: seq<Entry>): Lock {
    Lock(id, if prev.Some? then Some(prev.value.lock.versionId) else None, Ids(rows), |rows|)
  }

  /** What an update writes, or why it refuses. */
  function UpdateOf(c: Codec, root: Root, manifest: string, prev: Option<Version>): Result<Version, UpdateError> {
    var held := if prev.Some? then ReadJsonl(c, prev.value.manifest) else Some([]);
    match (ReadJsonl(c, manifest), held)
    case (Some(more), Some(rows)) =>
      var merged := Merged(rows + more);
      (match NextVersionId(if prev.Some? then Some(prev.value.lock.versionId) else None)
       case None => Err(BadVersionId)
       case Some(id) =>
         if id in root then Err(LockExists) else Ok(Version(LockFor(id, prev, merged), WriteJsonl(c, merged))))
    case _ => Err(UnreadableManifest)
  }

  function Written(root: Root, r: Result<Version, UpdateError>): Root {
    if r.Ok? then root[r.value.lock.versionId := r.value] else root
  }

  // -------------------------------------------------------------- the base version

  /** The version number of a directory that counts: it holds a lock and its name is a version id. */
  function Candidate(root: Root, name: string): Option<nat> {
    if name in root then ParseVersion(name) else None
  }

  /** Among the listed directories the last one with the highest number. */
  function Latest(root: Root, listing: seq<string>): (r: Option<string>)
    ensures r.Some? ==> r.value in listing && Candidate(root, r.value).Some?
  {
    if listing == [] then None
    else
      var n := |listing| - 1;
      var earlier := Latest(root, listing[..n]);
      var number := Candidate(root, listing[n]);
      if number.None? then earlier
      else if earlier.Some? && Candidate(root, earlier.value).value > number.value then earlier
      else Some(listing[n])
  }

  lemma {:induction false} LatestIsHighest(root: Root, listing: seq<string>, name: string)
    requires name in listing && Candidate(root, name).Some?
    ensures var r := Latest(root, listing);
      r.Some? && Candidate(root, r.value).value >= Candidate(root, name).value
  {
    var n := |listing| - 1;
    if name != listing[n] {
      assert name in listing[..n];
      LatestIsHighest(root, listing[..n], name);
    }
  }

  /** Of the listed directories with the highest number the last one listed is chosen. */
  lemma {:induction false} LatestExactly(root: Root, listing: seq<string>) returns (k: int)
    requires exists name :: name in listing && Candidate(root, name).Some?
    ensures 0 <= k < |listing| && Candidate(root, listing[k]).Some? && Latest(root, listing) == Some(listing[k])
    ensures forall j :: 0 <= j < |listing| && Candidate(root, listing[j]).Some? ==>
      && Candidate(root, listing[j]).value <= Candidate(root, listing[k]).value
      && (k < j ==> Candidate(root, listing[j]).value < Candidate(root, listing[k]).value)
  {
    hide Candidate;
    var n := |listing| - 1;
    var init, last := listing[..n], listing[n];
    assert listing == init + [last];
    if exists name :: name in init && Candidate(root, name).Some? {
      k := LatestExactly(root, init);
      if Latest(root, listing) == Some(last) && Candidate(root, last).Some?
         && Candidate(root, listing[k]).value <= Candidate(root, last).value {
        k := n;
      }
    } else {
      k := n;
    }
  }

  class Datasets {
    var root: Root
    const codec: Codec

    constructor (codec: Codec)
      ensures root == map[] && this.codec == codec
    {
      root := map[];
      this.codec := codec;
    }

    method LatestDatasetLock(listing: seq<string>) returns (latest: Option<string>)
      ensures latest == Latest(root, listing)
    {
      latest := None;
      var best: nat := 0;
      for i := 0 to |listing|
        invariant latest == Latest(root, listing[..i])
        invariant latest.Some? ==> Candidate(root, latest.value) == Some(best)
      {
        assert listing[..i + 1][..i] == listing[..i];
        if listing[i] in root {
          match ParseVersion(listing[i])
          case None =>
          case Some(number) =>
            if latest.None? || best <= number {
              latest, best := Some(listing[i]), number;
            }
        }
      }
      assert listing[..|listing|] == listing;
    }

    method Update(manifest: string, prev: Option<Version>) returns (r: Result<Lock, UpdateError>)
      modifies this`root
      ensures var spec := UpdateOf(codec, old(root), manifest, prev);
        && root == Written(old(root), spec)
        && r == if spec.Ok? then Ok(spec.value.lock) else Err(spec.error)
    {
      var more := ReadJsonl(codec, manifest);
      var rows := if prev.Some? then ReadJsonl(codec, prev.value.manifest) else Some([]);
      if more.None? || rows.None? {
        return Err(UnreadableManifest);
      }
      var merged := MergeManifestEntries(rows.value, more.value);
      var id := NextVersionId(if prev.Some? then Some(prev.value.lock.versionId) else None);
      if id.None? {
        return Err(BadVersionId);
      }
      if id.value in root {
        return Err(LockExists);
      }
      var lock := LockFor(id.value, prev, merged);
      root := root[id.value := Version(lock, WriteJsonl(codec, merged))];
      return Ok(lock);
    }

    /** The version part of a training run: build on the lock given, or on the latest one. */
    method AdaptData(listing: seq<string>, given: Option<Version>, entries: seq<Entry>)
      returns (r: Result<Lock, UpdateError>)
      modifies this`root
      ensures root == Adapted(codec, old(root), listing, given, entries)
      ensures var spec := UpdateOf(codec, old(root), WriteJsonl(codec, entries), Base(old(root), listing, given));
        r == if spec.Ok? then Ok(spec.value.lock) else Err(spec.error)
    {
      var prev := given;
      if prev.None? {
        var latest := LatestDatasetLock(listing);
        prev := if latest.Some? then Some(root[latest.value]) else None;
      }
      r := Update(WriteJsonl(codec, entries), prev);
    }
  }

  function Base(root: Root, listing: seq<string>, given: Option<Version>): Option<Version> {
    if given.Some? then given
    else
      var latest := Latest(root, listing);
      if latest.Some? then Some(root[latest.value]) else None
  }

  function Adapted(c: Codec, root: Root, listing: seq<string>, given: Option<Version>, entries: seq<Entry>): Root {
    Written(root, UpdateOf(c, root, WriteJsonl(c, entries), Base(root, listing, given)))
  }

  // --------------------------------------------------------------------- the chain

  function Concat(submissions: seq<seq<Entry>>): seq<Entry> {
    if submissions == [] then [] else Concat(submissions[..|submissions| - 1]) + submissions[|submissions| - 1]
  }

  /** The version every chain has at place k: it holds the merge of the first k submissions. */
  function VersionAt(c: Codec, submissions: seq<seq<Entry>>, k: nat): Version
    requires 1 <= k <= |submissions|
  {
    var rows := Merged(Concat(submissions[..k]));
    Version(
      Lock(VersionId(k), if k == 1 then None else Some(VersionId(k - 1)), Ids(rows), |rows|),
      WriteJsonl(c, rows))
  }

  ghost predicate IsChain(c: Codec, root: Root, submissions: seq<seq<Entry>>) {
    && (forall k :: 1 <= k <= |submissions| ==>
          VersionId(k) in root && root[VersionId(k)] == VersionAt(c, submissions, k))
    && (forall name :: name in root ==> exists k :: 1 <= k <= |submissions| && name == VersionId(k))
  }

  ghost predicate Lists(listing: seq<string>, root: Root) {
    forall name :: name in root ==> name in listing
  }

  lemma LatestOfChain(c: Codec, root: Root, submissions: seq<seq<Entry>>, listing: seq<string>)
    requires IsChain(c, root, submissions) && Lists(listing, root)
    ensures Latest(root, listing) == if submissions == [] then None else Some(VersionId(|submissions|))
  {
    hide VersionAt, VersionId, ParseVersion, Latest;
    var n, latest := |submissions|, Latest(root, listing);
    if n > 0 {
      VersionRoundTrip(n);
      LatestIsHighest(root, listing, VersionId(n));
      var k :| 1 <= k <= n && latest.value == VersionId(k);
      VersionRoundTrip(k);
    }
  }

  lemma {:induction false} ConcatOneLine(c: Codec, submissions: seq<seq<Entry>>)
    requires CleanEach(c, submissions)
    ensures OneLineEach(c, Concat(submissions))
  {
    if submissions != [] {
      var n := |submissions| - 1;
      ConcatOneLine(c, submissions[..n]);
      assert submissions[n] in submissions;
      assert OneLineEach(c, Concat(submissions[..n])) && OneLineEach(c, submissions[n]);
    }
  }

  lemma MergedOneLine(c: Codec, rows: seq<Entry>)
    requires OneLineEach(c, rows)
    ensures OneLineEach(c, Merged(rows))
  {
    MergedExactly(rows, Merged(rows));
    forall e | e in Merged(rows) ensures e in rows {
      assert LastFor(rows, e);
    }
  }

  ghost predicate CleanEach(c: Codec, submissions: seq<seq<Entry>>) {
    forall s :: s in submissions ==> OneLineEach(c, s)
  }

  /** Every manifest of a chain of readable submissions reads back as the merge it holds. */
  lemma ManifestOfChain(c: Codec, submissions: seq<seq<Entry>>, k: nat)
    requires JsonLike(c) && 1 <= k <= |submissions| && CleanEach(c, submissions)
    ensures ReadJsonl(c, VersionAt(c, submissions, k).manifest) == Some(Merged(Concat(submissions[..k])))
  {
    ConcatOneLine(c, submissions[..k]);
    MergedOneLine(c, Concat(submissions[..k]));
    ManifestRoundTrip(c, Merged(Concat(submissions[..k])));
  }

  /** What an update finds in version k of a chain. */
  lemma BaseOfChain(c: Codec, root: Root, submissions: seq<seq<Entry>>, k: nat)
    requires JsonLike(c) && IsChain(c, root, submissions) && CleanEach(c, submissions) && k <= |submissions|
    ensures k > 0 ==>
      && root[VersionId(k)].lock.versionId == VersionId(k)
      && ReadJsonl(c, root[VersionId(k)].manifest) == Some(Merged(Concat(submissions[..k])))
    ensures NextVersionId(if k == 0 then None else Some(VersionId(k))) == Some(VersionId(k + 1))
  {
    hide JsonLike, ReadJsonl, WriteJsonl, Merged, OneLineEach, VersionId, ParseVersion, Ids, Concat;
    VersionRoundTrip(k);
    if k > 0 {
      ManifestOfChain(c, submissions, k);
    }
  }

  /** An update on top of version k of a chain with n versions: it collides exactly when k < n, and it
      is refused exactly when an entry would not survive the line format; otherwise it writes the next
      version. */
  lemma UpdateOnChain(c: Codec, root: Root, submissions: seq<seq<Entry>>, k: nat, entries: seq<Entry>)
    requires JsonLike(c) && IsChain(c, root, submissions) && CleanEach(c, submissions) && k <= |submissions|
    ensures var r := UpdateOf(c, root, WriteJsonl(c, entries),
      if k == 0 then None else Some(root[VersionId(k)]));
      && (r == Err(UnreadableManifest) <==> !OneLineEach(c, entries))
      && (r == Err(LockExists) <==> OneLineEach(c, entries) && k < |submissions|)
      && (r == Ok(VersionAt(c, submissions + [entries], |submissions| + 1))
          <==> OneLineEach(c, entries) && k == |submissions|)
  {
    hide JsonLike, ReadJsonl, WriteJsonl, Merged, OneLineEach, VersionId, ParseVersion, NextVersionId, Ids, Concat,
      IsChain, VersionAt, LockFor, CleanEach;
    ManifestRoundTrip(c, entries);
    BaseOfChain(c, root, submissions, k);
    NextIdInChain(c, root, submissions, k);
    if k == |submissions| {
      NextVersion(c, root, submissions, entries);
    }
  }

  /** The version an update on the newest one writes is the next of the chain. */
  lemma NextVersion(c: Codec, root: Root, submissions: seq<seq<Entry>>, entries: seq<Entry>)
    requires IsChain(c, root, submissions)
    ensures var n := |submissions|;
      var prev := if n == 0 then None else Some(root[VersionId(n)]);
      var rows := Merged((if n == 0 then [] else Merged(Concat(submissions[..n]))) + entries);
      VersionAt(c, submissions + [entries], n + 1)
        == Version(LockFor(VersionId(n + 1), prev, rows), WriteJsonl(c, rows))
  {
    hide WriteJsonl, Merged, VersionId, Ids, Concat;
    NextRows(submissions, entries);
  }

  lemma NextIdInChain(c: Codec, root: Root, submissions: seq<seq<Entry>>, k: nat)
    requires IsChain(c, root, submissions) && k <= |submissions|
    ensures VersionId(k + 1) in root <==> k < |submissions|
  {
    if VersionId(k + 1) in root {
      var j :| 1 <= j <= |submissions| && VersionId(k + 1) == VersionId(j);
      VersionIdInjective(k + 1, j);
    }
  }

  lemma NextRows(submissions: seq<seq<Entry>>, entries: seq<Entry>)
    ensures var all, n := submissions + [entries], |submissions|;
      && all[..n + 1] == all && submissions[..n] == submissions
      && Merged((if n == 0 then [] else Merged(Concat(submissions))) + entries) == Merged(Concat(all))
  {
    hide Merged, Ids;
    var all, n := submissions + [entries], |submissions|;
    assert all[..n] == submissions;
    assert Concat(all) == Concat(submissions) + entries;
    MergeInSteps(Concat(submissions), entries);
  }

  /** A base lock given explicitly is one of the root's own. */
  ghost predicate GivenFrom(root: Root, given: Option<Version>) {
    given.Some? ==> exists name :: name in root && root[name] == given.value
  }

  /** The run builds on the newest of n versions. */
  ghost predicate OnNewest(given: Option<Version>, n: nat) {
    given.Some? ==> given.value.lock.versionId == VersionId(n)
  }

  /** One training run on a chain: it appends the next version exactly when it builds on the newest one
      and every entry survives the line format, and leaves everything as it was otherwise. */
  lemma AdaptedExtendsChain(c: Codec, root: Root, submissions: seq<seq<Entry>>, listing: seq<string>,
                            given: Option<Version>, entries: seq<Entry>)
    requires JsonLike(c) && IsChain(c, root, submissions) && CleanEach(c, submissions) && Lists(listing, root)
    requires GivenFrom(root, given)
    ensures var after := Adapted(c, root, listing, given, entries);
      if OneLineEach(c, entries) && OnNewest(given, |submissions|)
      then IsChain(c, after, submissions + [entries]) else after == root
  {
    hide JsonLike, ReadJsonl, WriteJsonl, Merged, OneLineEach, VersionId, ParseVersion, Ids, Latest, UpdateOf, IsChain;
    var n, k := |submissions|, |submissions|;
    if given.Some? {
      k := GivenPlace(c, root, submissions, given.value);
    }
    LatestOfChain(c, root, submissions, listing);
    ChainHasNewest(c, root, submissions);
    UpdateOnChain(c, root, submissions, k, entries);
    if OneLineEach(c, entries) && k == n {
      ChainGrows(c, root, submissions, entries);
    }
  }

  lemma ChainHasNewest(c: Codec, root: Root, submissions: seq<seq<Entry>>)
    requires IsChain(c, root, submissions)
    ensures submissions != [] ==> VersionId(|submissions|) in root
  {
  }

  /** The place of a version in the chain, which its id tells. */
  lemma GivenPlace(c: Codec, root: Root, submissions: seq<seq<Entry>>, v: Version) returns (k: nat)
    requires IsChain(c, root, submissions) && GivenFrom(root, Some(v))
    ensures 1 <= k <= |submissions| && VersionId(k) in root && root[VersionId(k)] == v
    ensures OnNewest(Some(v), |submissions|) <==> k == |submissions|
  {
    hide VersionId, Merged, Ids, WriteJsonl, Concat;
    var name :| name in root && root[name] == v;
    k :| 1 <= k <= |submissions| && name == VersionId(k);
    if OnNewest(Some(v), |submissions|) {
      VersionIdInjective(k, |submissions|);
    }
  }

  lemma ChainGrows(c: Codec, root: Root, submissions: seq<seq<Entry>>, entries: seq<Entry>)
    requires IsChain(c, root, submissions)
    ensures var all, n := submissions + [entries], |submissions| + 1;
      IsChain(c, root[VersionId(n) := VersionAt(c, all, n)], all)
  {
    hide VersionId, Merged, Ids, WriteJsonl, Concat;
    var all, n := submissions + [entries], |submissions| + 1;
    var after := root[VersionId(n) := VersionAt(c, all, n)];
    forall k | 1 <= k <= n ensures VersionId(k) in after && after[VersionId(k)] == VersionAt(c, all, k) {
      if k < n {
        assert all[..k] == submissions[..k];
        if VersionId(k) == VersionId(n) {
          VersionIdInjective(k, n);
        }
      }
    }
    forall name | name in after ensures exists k :: 1 <= k <= n && name == VersionId(k) {
      if name in root {
        var k :| 1 <= k <= |submissions| && name == VersionId(k);
        assert 1 <= k <= n && name == VersionId(k);
      } else {
        assert 1 <= n <= n && name == VersionId(n);
      }
    }
  }

  // ------------------------------------------------------------------------- runs

  /** A training run: how the directory happened to be listed, the base lock if one was given, and the
      entries selected. */
  datatype TrainingRun = TrainingRun(listing: seq<string>, given: Option<Version>, entries: seq<Entry>)

  /** The datasets root after a sequence of training runs, from no locks. */
  function After(c: Codec, runs: seq<TrainingRun>): Root {
    if runs == [] then map[]
    else
      var n := |runs| - 1;
      Adapted(c, After(c, runs[..n]), runs[n].listing, runs[n].given, runs[n].entries)
  }

  /** Every run lists all the directories that exist when it starts, and a base lock it is given is
      among them. */
  ghost predicate ListedInFull(c: Codec, runs: seq<TrainingRun>) {
    forall i :: 0 <= i < |runs| ==> StartsFrom(runs[i], After(c, runs[..i]))
  }

  ghost predicate StartsFrom(run: TrainingRun, root: Root) {
    Lists(run.listing, root) && GivenFrom(root, run.given)
  }

  /** The submissions that were written, in order: those that build on the newest version and every row of
      which fits on one line. */
  ghost function Accepted(c: Codec, runs: seq<TrainingRun>): seq<seq<Entry>> {
    if runs == [] then []
    else
      var n := |runs| - 1;
      var earlier := Accepted(c, runs[..n]);
      earlier
      + if OneLineEach(c, runs[n].entries) && OnNewest(runs[n].given, |earlier|) then [runs[n].entries] else []
  }

  /** From no locks, any sequence of training runs gives exactly the chain v1, ..., vn of the accepted
      submissions, whatever order the directories are listed in: no run on the latest lock collides, one on
      an older lock changes nothing, each version's base is its predecessor, and each manifest is the
      last-wins merge of everything accepted so far. */
  lemma {:induction false} RunsGiveTheChain(c: Codec, runs: seq<TrainingRun>)
    requires JsonLike(c) && ListedInFull(c, runs)
    ensures IsChain(c, After(c, runs), Accepted(c, runs)) && CleanEach(c, Accepted(c, runs))
  {
    hide JsonLike, OneLineEach, IsChain, Adapted, StartsFrom, OnNewest;
    if runs == [] {
      EmptyChain(c);
    } else {
      var n := |runs| - 1;
      var earlier := runs[..n];
      assert ListedInFull(c, earlier) by {
        forall i | 0 <= i < n ensures StartsFrom(earlier[i], After(c, earlier[..i])) {
          assert earlier[..i] == runs[..i];
        }
      }
      RunsGiveTheChain(c, earlier);
      StartOf(runs[n], After(c, earlier));
      AdaptedExtendsChain(c, After(c, earlier), Accepted(c, earlier), runs[n].listing, runs[n].given, runs[n].entries);
      if !OneLineEach(c, runs[n].entries) || !OnNewest(runs[n].given, |Accepted(c, earlier)|) {
        assert Accepted(c, runs) == Accepted(c, earlier);
      }
    }
  }

  lemma StartOf(run: TrainingRun, root: Root)
    requires StartsFrom(run, root)
    ensures Lists(run.listing, root) && GivenFrom(root, run.given)
  {
  }

  lemma EmptyChain(c: Codec)
    ensures IsChain(c, map[], [])
  {
  }

  // ------------------------------------------------------------------ differences

  datatype DatasetDiff = DatasetDiff(
    from: string, to: string, added: seq<string>, removed: seq<string>, totalDelta: int)

  function Without(ids: seq<string>, gone: seq<string>): (r: seq<string>)
    ensures forall id :: id in r <==> id in ids && id !in gone
  {
    if ids == [] then []
    else
      assert ids == [ids[0]] + ids[1..];
      (if ids[0] in gone then [] else [ids[0]]) + Without(ids[1..], gone)
  }

  function DiffLocks(a: Lock, b: Lock): DatasetDiff {
    DatasetDiff(
      a.versionId, b.versionId,
      Sort(Dedupe(Without(b.includedIds, a.includedIds)), StrLe),
      Sort(Dedupe(Without(a.includedIds, b.includedIds)), StrLe),
      b.total - a.total)
  }

  ghost function Elements(s: seq<string>): set<string> { set x | x in s }

  lemma {:induction false} DistinctCount(s: seq<string>)
    requires NoDuplicates(s)
    ensures |Elements(s)| == |s|
  {
    if s == [] {
    } else {
      DistinctCount(s[1..]);
      assert Elements(s) == Elements(s[1..]) + {s[0]};
      assert s[0] !in s[1..];
    }
  }

  /** For locks without repeated ids whose totals count them, the difference is exact: the new list is
      the old one less `removed` plus `added`, and the totals differ by exactly that. */
  lemma DiffIsExact(a: Lock, b: Lock)
    requires NoDuplicates(a.includedIds) && a.total == |a.includedIds|
    requires NoDuplicates(b.includedIds) && b.total == |b.includedIds|
    ensures var d := DiffLocks(a, b);
      && Elements(b.includedIds) == Elements(a.includedIds) - Elements(d.removed) + Elements(d.added)
      && Elements(d.removed) <= Elements(a.includedIds) && Elements(d.added) !! Elements(a.includedIds)
      && StrictlySorted(d.added, StrLe) && StrictlySorted(d.removed, StrLe)
      && d.totalDelta == |d.added| - |d.removed|
  {
    hide Without, Sort, Dedupe;
    var d := DiffLocks(a, b);
    AddedIsStrict(a.includedIds, b.includedIds);
    AddedIsStrict(b.includedIds, a.includedIds);
    DistinctCount(d.added);
    DistinctCount(d.removed);
    DistinctCount(a.includedIds);
    DistinctCount(b.includedIds);
    DifferenceSizes(Elements(a.includedIds), Elements(b.includedIds));
  }

  lemma AddedIsStrict(a: seq<string>, b: seq<string>)
    ensures var added := Sort(Dedupe(Without(b, a)), StrLe);
      && StrictlySorted(added, StrLe) && NoDuplicates(added)
      && Elements(added) == Elements(b) - Elements(a)
  {
    StringOrder();
    SortIsStrict(Dedupe(Without(b, a)), StrLe);
  }

  lemma DifferenceSizes(x: set<string>, y: set<string>)
    ensures |y| - |x| == |y - x| - |x - y| && y == x - (x - y) + (y - x)
  {
    assert x == x * y + (x - y) && y == x * y + (y - x);
  }

  lemma {:induction false} ConcatGrows(submissions: seq<seq<Entry>>, i: nat, j: nat, id: string)
    requires i <= j <= |submissions| && id in Ids(Concat(submissions[..i]))
    ensures id in Ids(Concat(submissions[..j]))
    decreases j
  {
    if i < j {
      ConcatGrows(submissions, i, j - 1, id);
      assert submissions[..j][..j - 1] == submissions[..j - 1];
      assert Ids(Concat(submissions[..j])) == Ids(Concat(submissions[..j - 1])) + Ids(submissions[j - 1]);
    }
  }

  /** The lock of a chain version never repeats an id, so building it never fails its own checks. */
  lemma ChainLockIsValid(c: Codec, submissions: seq<seq<Entry>>, k: nat)
    requires 1 <= k <= |submissions|
    ensures var lock := VersionAt(c, submissions, k).lock;
      NoDuplicates(lock.includedIds) && lock.total == |lock.includedIds|
  {
    MergedIds(Concat(submissions[..k]));
  }

  /** Rollouts are never lost along a chain: from any version to a later one nothing is removed, and the
      totals grow by exactly the number of ids added. */
  lemma ChainOnlyGrows(c: Codec, root: Root, submissions: seq<seq<Entry>>, i: nat, j: nat)
    requires IsChain(c, root, submissions) && 1 <= i <= j <= |submissions|
    ensures var d := DiffLocks(root[VersionId(i)].lock, root[VersionId(j)].lock);
      d.removed == [] && d.totalDelta == |d.added|
  {
    hide Ids, Merged;
    var a, b := VersionAt(c, submissions, i).lock, VersionAt(c, submissions, j).lock;
    ChainLockIsValid(c, submissions, i);
    ChainLockIsValid(c, submissions, j);
    DiffIsExact(a, b);
    var d := DiffLocks(a, b);
    forall id | id in a.includedIds ensures id in b.includedIds {
      MergedExactly(Concat(submissions[..i]), Merged(Concat(submissions[..i])));
      MergedExactly(Concat(submissions[..j]), Merged(Concat(submissions[..j])));
      ConcatGrows(submissions, i, j, id);
    }
    NothingWithout(a.includedIds, b.includedIds);
    assert d.removed == [];
  }

  ghost predicate Submitted(submissions: seq<seq<Entry>>, k: nat, id: string) {
    exists i :: 0 <= i < k && i < |submissions| && id in Ids(submissions[i])
  }

  lemma {:induction false} ConcatHoldsEach(submissions: seq<seq<Entry>>, id: string)
    ensures id in Ids(Concat(submissions)) <==> Submitted(submissions, |submissions|, id)
  {
    if submissions != [] {
      var n := |submissions| - 1;
      var init := submissions[..n];
      ConcatHoldsEach(init, id);
      assert Ids(Concat(submissions)) == Ids(Concat(init)) + Ids(submissions[n]);
      assert forall i :: 0 <= i < n ==> submissions[i] == init[i];
      if Submitted(init, n, id) {
        var i :| 0 <= i < n && id in Ids(init[i]);
        assert id in Ids(submissions[i]);
      }
    }
  }

  /** A version includes exactly the rollouts of the submissions up to it. */
  lemma VersionHoldsEverySubmission(c: Codec, submissions: seq<seq<Entry>>, k: nat, id: string)
    requires 1 <= k <= |submissions|
    ensures id in VersionAt(c, submissions, k).lock.includedIds <==> Submitted(submissions, k, id)
  {
    hide Ids, Merged;
    var all := Concat(submissions[..k]);
    MergedExactly(all, Merged(all));
    ConcatHoldsEach(submissions[..k], id);
    assert forall i :: 0 <= i < k ==> submissions[..k][i] == submissions[i];
  }

  lemma {:induction false} NothingWithout(ids: seq<string>, kept: seq<string>)
    requires forall id :: id in ids ==> id in kept
    ensures Without(ids, kept) == []
  {
    if ids != [] {
      NothingWithout(ids[1..], kept);
    }
  }
}
