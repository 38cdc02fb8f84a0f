/** Which reviewed rollouts are trained on: the manifest builder, the framework adapter's selection, the
    summary count and the operator's training selection, which all read the same admission files. */
module Selection {
  import opened Common
  import opened ReviewData
  import opened Annotation
  import opened AnnotationLaws
  import opened Governance

  // ---------------------------------------------------------------- rollout store

  /** The parts of an admission file that decide; `accepted` is None unless the file holds a boolean. */
  datatype AdmissionFile = AdmissionFile(accepted: Option<bool>, decision: string)

  /** One entry of the rollouts root. `admission` is None for a missing, broken or empty file, and
      `confidence` is None when the summary holds no number. */
  datatype Dir = Dir(isDir: bool, admission: Option<AdmissionFile>, confidence: Option<real>, rawPresent: bool)

  type Root = map<string, Dir>

  /** A listing of the root in whatever order the file system gives. */
  ghost predicate IsListing(listing: seq<string>, root: Root) {
    NoDuplicates(listing) && forall name :: name in listing <==> name in root
  }

  /** A plain file has no admission file below it. */
  ghost predicate FilesAreBare(root: Root) {
    forall name :: name in root && !root[name].isDir ==> root[name].admission.None?
  }

  predicate Admits(a: AdmissionFile, decisions: seq<string>) {
    match a.accepted
    case Some(b) => b
    case None => a.decision in decisions
  }

  predicate Passes(root: Root, name: string, decisions: seq<string>, ids: Option<seq<string>>) {
    && name in root && root[name].isDir
    && (ids.Some? ==> name in ids.value)
    && root[name].admission.Some?
    && Admits(root[name].admission.value, decisions)
  }

  function Passing(root: Root, names: seq<string>, decisions: seq<string>, ids: Option<seq<string>>): (r: seq<string>)
    ensures forall name :: name in r <==> name in names && Passes(root, name, decisions, ids)
  {
    if names == [] then []
    else
      var n := |names| - 1;
      assert names == names[..n] + [names[n]];
      Passing(root, names[..n], decisions, ids) + if Passes(root, names[n], decisions, ids) then [names[n]] else []
  }

  function Selected(root: Root, listing: seq<string>, decisions: seq<string>, ids: Option<seq<string>>): seq<string> {
    Passing(root, Sort(listing, StrLe), decisions, ids)
  }

  lemma {:induction false} PassingIsSorted(root: Root, names: seq<string>, decisions: seq<string>, ids: Option<seq<string>>)
    requires StrictlySorted(names, StrLe)
    ensures StrictlySorted(Passing(root, names, decisions, ids), StrLe)
  {
    if names != [] {
      var n := |names| - 1;
      PassingIsSorted(root, names[..n], decisions, ids);
      var earlier := Passing(root, names[..n], decisions, ids);
      forall i | 0 <= i < |earlier| ensures StrLe(earlier[i], names[n]) && earlier[i] != names[n] {
        assert earlier[i] in earlier;
        var j :| 0 <= j < n && names[j] == earlier[i];
      }
    }
  }

  /** The selection is the only sorted list of distinct ids that holds exactly the passing rollouts; the
      order in which the file system lists them does not matter. */
  lemma SelectedExactly(root: Root, listing: seq<string>, decisions: seq<string>, ids: Option<seq<string>>,
                        picked: seq<string>)
    requires IsListing(listing, root)
    ensures picked == Selected(root, listing, decisions, ids) <==>
      StrictlySorted(picked, StrLe) && forall name :: name in picked <==> Passes(root, name, decisions, ids)
  {
    StringOrder();
    SortIsStrict(listing, StrLe);
    PassingIsSorted(root, Sort(listing, StrLe), decisions, ids);
    var s := Selected(root, listing, decisions, ids);
    assert forall name :: name in s <==> Passes(root, name, decisions, ids);
    if StrictlySorted(picked, StrLe) && forall name :: name in picked <==> Passes(root, name, decisions, ids) {
      StrictlySortedIsUnique(picked, s, StrLe);
    }
  }

  // ---------------------------------------------------- the three readers of it

  datatype TrainEntry = TrainEntry(rolloutId: string, confidence: real)

  function ConfidenceOf(d: Dir): real {
    match d.confidence
    case None => 0.5
    case Some(x) => x
  }

  predicate InUnit(x: real) { 0.0 <= x <= 1.0 }

  function EntryIds(entries: seq<TrainEntry>): (ids: seq<string>)
    ensures |ids| == |entries| && forall i :: 0 <= i < |ids| ==> ids[i] == entries[i].rolloutId
  {
    seq(|entries|, i requires 0 <= i < |entries| => entries[i].rolloutId)
  }

  lemma EntryIdsAppend(entries: seq<TrainEntry>, e: TrainEntry)
    ensures EntryIds(entries + [e]) == EntryIds(entries) + [e.rolloutId]
  {
  }

  /** The entry has the stored confidence, or one half if none is stored, and it lies in the unit interval. */
  ghost predicate CarriesConfidence(root: Root, e: TrainEntry) {
    && e.rolloutId in root && 0.0 <= e.confidence <= 1.0
    && e.confidence == (if root[e.rolloutId].confidence.Some? then root[e.rolloutId].confidence.value else 0.5)
  }

  ghost predicate Misfits(d: Dir) {
    d.confidence.Some? && (d.confidence.value < 0.0 || d.confidence.value > 1.0)
  }

  /** Place `k` is the first whose rollout has a stored confidence outside the unit interval. */
  ghost predicate FirstMisfit(root: Root, chosen: seq<string>, k: int) {
    && 0 <= k < |chosen| && chosen[k] in root && Misfits(root[chosen[k]])
    && forall j :: 0 <= j < k ==> chosen[j] in root && !Misfits(root[chosen[j]])
  }

  lemma {:induction false} PassingPrefix(
    root: Root, names: seq<string>, i: nat, decisions: seq<string>, ids: Option<seq<string>>)
    requires i <= |names|
    ensures Passing(root, names[..i], decisions, ids) <= Passing(root, names, decisions, ids)
  {
    if i < |names| {
      var n := |names| - 1;
      PassingPrefix(root, names[..n], i, decisions, ids);
      assert names[..n][..i] == names[..i];
    } else {
      assert names[..i] == names;
    }
  }

  ghost predicate AllCarry(root: Root, entries: seq<TrainEntry>) {
    forall e :: e in entries ==> CarriesConfidence(root, e)
  }

  ghost predicate StopsAt(root: Root, chosen: seq<string>, id: string) {
    exists k :: FirstMisfit(root, chosen, k) && chosen[k] == id
  }

  lemma StopsAtMisfit(root: Root, entries: seq<TrainEntry>, chosen: seq<string>, id: string)
    requires AllCarry(root, entries) && id in root && Misfits(root[id])
    requires EntryIds(entries) + [id] <= chosen
    ensures StopsAt(root, chosen, id)
  {
    assert FirstMisfit(root, chosen, |entries|) by {
      NoneBeforeMisfits(root, entries, chosen);
      assert chosen[|entries|] == (EntryIds(entries) + [id])[|entries|];
    }
  }

  lemma NoneBeforeMisfits(root: Root, entries: seq<TrainEntry>, chosen: seq<string>)
    requires AllCarry(root, entries) && EntryIds(entries) <= chosen
    ensures forall j :: 0 <= j < |entries| ==> chosen[j] in root && !Misfits(root[chosen[j]])
  {
    forall j | 0 <= j < |entries| ensures chosen[j] in root && !Misfits(root[chosen[j]]) {
      assert entries[j] in entries && chosen[j] == EntryIds(entries)[j];
    }
  }

  datatype ManifestError = BadConfidence(rolloutId: string)

  /** An entry refuses a confidence outside the unit interval, so the build stops at the first one. */
  method BuildTrainManifest(root: Root, listing: seq<string>, decisions: seq<string>, ids: Option<seq<string>>)
    returns (r: Result<seq<TrainEntry>, ManifestError>)
    ensures var chosen := Selected(root, listing, decisions, ids);
      match r
      case Ok(entries) =>
        && EntryIds(entries) == chosen
        && forall e :: e in entries ==> CarriesConfidence(root, e)
      case Err(error) => StopsAt(root, chosen, error.rolloutId)
  {
    hide Sort, StrLe, EntryIds, StopsAt;
    var names := Sort(listing, StrLe);
    var entries: seq<TrainEntry> := [];
    for i := 0 to |names|
      invariant EntryIds(entries) == Passing(root, names[..i], decisions, ids)
      invariant AllCarry(root, entries)
    {
      var name := names[i];
      assert names[..i + 1][..i] == names[..i];
      if name !in root || !root[name].isDir || (ids.Some? && name !in ids.value) {
        continue;
      }
      var admission := root[name].admission;
      if admission.None? {
        continue;
      }
      if admission.value.accepted.Some? {
        if !admission.value.accepted.value {
          continue;
        }
      } else if admission.value.decision !in decisions {
        continue;
      }
      var confidence := ConfidenceOf(root[name]);
      if !InUnit(confidence) {
        assert Passes(root, name, decisions, ids);
        PassingPrefix(root, names, i + 1, decisions, ids);
        StopsAtMisfit(root, entries, Passing(root, names, decisions, ids), name);
        return Err(BadConfidence(name));
      }
      EntryIdsAppend(entries, TrainEntry(name, confidence));
      entries := entries + [TrainEntry(name, confidence)];
    }
    assert names[..|names|] == names;
    r := Ok(entries);
  }

  method PostReviewCount(root: Root, listing: seq<string>, decisions: seq<string>, ids: Option<seq<string>>)
    returns (selected: nat)
    ensures selected == |Selected(root, listing, decisions, ids)|
  {
    var names := Sort(listing, StrLe);
    selected := 0;
    for i := 0 to |names|
      invariant selected == |Passing(root, names[..i], decisions, ids)|
    {
      var name := names[i];
      assert names[..i + 1][..i] == names[..i];
      if name !in root || !root[name].isDir || (ids.Some? && name !in ids.value) {
        continue;
      }
      var admission := root[name].admission;
      if admission.None? {
        continue;
      }
      if admission.value.accepted.Some? {
        if !admission.value.accepted.value {
          continue;
        }
      } else if admission.value.decision !in decisions {
        continue;
      }
      selected := selected + 1;
    }
    assert names[..|names|] == names;
  }

  datatype SelectedRollout = SelectedRollout(rolloutId: string, decision: string)

  function RolloutIds(rows: seq<SelectedRollout>): (ids: seq<string>)
    ensures |ids| == |rows| && forall i :: 0 <= i < |ids| ==> ids[i] == rows[i].rolloutId
  {
    seq(|rows|, i requires 0 <= i < |rows| => rows[i].rolloutId)
  }

  lemma RolloutIdsAppend(rows: seq<SelectedRollout>, row: SelectedRollout)
    ensures RolloutIds(rows + [row]) == RolloutIds(rows) + [row.rolloutId]
  {
  }

  ghost predicate CarriesDecision(root: Root, row: SelectedRollout) {
    && row.rolloutId in root && root[row.rolloutId].admission.Some?
    && row.decision == root[row.rolloutId].admission.value.decision
  }

  method SelectRollouts(root: Root, listing: seq<string>, decisions: seq<string>, ids: Option<seq<string>>)
    returns (rows: seq<SelectedRollout>)
    ensures RolloutIds(rows) == Selected(root, listing, decisions, ids)
    ensures forall row :: row in rows ==> CarriesDecision(root, row)
  {
    hide Sort, StrLe, RolloutIds;
    var names := Sort(listing, StrLe);
    rows := [];
    for i := 0 to |names|
      invariant RolloutIds(rows) == Passing(root, names[..i], decisions, ids)
      invariant forall row :: row in rows ==> CarriesDecision(root, row)
    {
      var name := names[i];
      assert names[..i + 1][..i] == names[..i];
      if name !in root || !root[name].isDir || (ids.Some? && name !in ids.value) {
        continue;
      }
      var admission := root[name].admission;
      if admission.None? {
        continue;
      }
      var decision := admission.value.decision;
      if admission.value.accepted.Some? {
        if !admission.value.accepted.value {
          continue;
        }
      } else if decision !in decisions {
        continue;
      }
      RolloutIdsAppend(rows, SelectedRollout(name, decision));
      rows := rows + [SelectedRollout(name, decision)];
    }
    assert names[..|names|] == names;
  }

  // ------------------------------------------------------ the operator's selection

  datatype Reason = RawArtifactsMissing | NotAcceptedForTraining | DecisionExcluded

  datatype Rejection = Rejection(rolloutId: string, reason: Reason)

  datatype Request = Request(
    decisions: seq<string>, sessions: seq<seq<string>>, explicit: seq<string>, allowMissingRaw: bool)

  datatype TrainingSelection = TrainingSelection(
    decisions: seq<string>, rolloutIds: seq<string>, rejected: seq<Rejection>)

  function NonEmpty(items: seq<string>): (r: seq<string>)
    ensures forall x :: x in r <==> x in items && x != ""
  {
    if items == [] then []
    else
      var n := |items| - 1;
      assert items == items[..n] + [items[n]];
      NonEmpty(items[..n]) + if items[n] != "" then [items[n]] else []
  }

  function OrAccepted(decisions: seq<string>): seq<string> {
    if decisions == [] then ["accepted"] else decisions
  }

  lemma {:induction false} NonEmptyAdds(a: seq<string>, b: seq<string>)
    ensures NonEmpty(a + b) == NonEmpty(a) + NonEmpty(b)
    ensures |a| == 1 ==> NonEmpty(a) == if a[0] == "" then [] else a
  {
    if |a| == 1 {
      assert a[..0] == [];
    }
    if b == [] {
      assert a + b == a;
    } else {
      NonEmptyAdds(a, b[..|b| - 1]);
      assert (a + b)[..|a + b| - 1] == a + b[..|b| - 1];
    }
  }

  function Joined(sessions: seq<seq<string>>): seq<string> {
    if sessions == [] then [] else Joined(sessions[..|sessions| - 1]) + sessions[|sessions| - 1]
  }

  predicate Visible(root: Root, name: string) {
    name in root && root[name].isDir && !(name != "" && name[0] == '.')
  }

  function VisibleOf(root: Root, names: seq<string>): (r: seq<string>)
    ensures forall x :: x in r <==> x in names && Visible(root, x)
  {
    if names == [] then []
    else
      var n := |names| - 1;
      assert names == names[..n] + [names[n]];
      VisibleOf(root, names[..n]) + if Visible(root, names[n]) then [names[n]] else []
  }

  /** The rollouts asked for: those of the sessions, then the explicit ones, or every visible directory. */
  function Requested(root: Root, listing: seq<string>, q: Request): seq<string> {
    var named := Joined(q.sessions) + NonEmpty(q.explicit);
    Dedupe(if named == [] then VisibleOf(root, Sort(listing, StrLe)) else named)
  }

  /** What an id leads to below the rollouts root. Entry names lead to their entry; an id that is a
      longer path may lead to a directory as well. */
  type Paths = map<string, Dir>

  ghost predicate Extends(paths: Paths, root: Root) {
    forall name :: name in root ==> name in paths && paths[name] == root[name]
  }

  function AdmissionAt(paths: Paths, id: string): AdmissionFile {
    if id in paths && paths[id].admission.Some? then paths[id].admission.value else AdmissionFile(None, "")
  }

  predicate Usable(paths: Paths, id: string, decisions: seq<string>, allowMissingRaw: bool) {
    Admits(AdmissionAt(paths, id), decisions) && ((id in paths && paths[id].rawPresent) || allowMissingRaw)
  }

  function RejectionOf(paths: Paths, id: string, decisions: seq<string>): Rejection {
    var a := AdmissionAt(paths, id);
    Rejection(id,
      if Admits(a, decisions) then RawArtifactsMissing
      else if a.accepted == Some(false) then NotAcceptedForTraining
      else DecisionExcluded)
  }

  /** The usable ids, in the order asked for. */
  function UsableOf(paths: Paths, ids: seq<string>, decisions: seq<string>, allowMissingRaw: bool): (r: seq<string>)
    ensures forall id :: id in r <==> id in ids && Usable(paths, id, decisions, allowMissingRaw)
  {
    if ids == [] then []
    else
      var n := |ids| - 1;
      assert ids == ids[..n] + [ids[n]];
      UsableOf(paths, ids[..n], decisions, allowMissingRaw)
      + if Usable(paths, ids[n], decisions, allowMissingRaw) then [ids[n]] else []
  }

  function RejectedOf(paths: Paths, ids: seq<string>, decisions: seq<string>, allowMissingRaw: bool): seq<Rejection> {
    if ids == [] then []
    else
      var n := |ids| - 1;
      RejectedOf(paths, ids[..n], decisions, allowMissingRaw)
      + if Usable(paths, ids[n], decisions, allowMissingRaw) then [] else [RejectionOf(paths, ids[n], decisions)]
  }

  method CreateTrainingSelection(root: Root, paths: Paths, listing: seq<string>, q: Request)
    returns (t: TrainingSelection)
    ensures t.decisions == NonEmpty(OrAccepted(q.decisions))
    ensures t.rolloutIds == UsableOf(paths, Requested(root, listing, q), t.decisions, q.allowMissingRaw)
    ensures t.rejected == RejectedOf(paths, Requested(root, listing, q), t.decisions, q.allowMissingRaw)
  {
    var decisions := NonEmpty(OrAccepted(q.decisions));
    var named: seq<string> := [];
    for i := 0 to |q.sessions|
      invariant named == Joined(q.sessions[..i])
    {
      assert q.sessions[..i + 1][..i] == q.sessions[..i];
      named := named + q.sessions[i];
    }
    assert q.sessions[..|q.sessions|] == q.sessions;
    named := named + NonEmpty(q.explicit);
    if named == [] {
      named := VisibleOf(root, Sort(listing, StrLe));
    }
    var picked, rejected := Split(paths, Dedupe(named), decisions, q.allowMissingRaw);
    t := TrainingSelection(decisions, picked, rejected);
  }

  method Split(paths: Paths, ids: seq<string>, decisions: seq<string>, allowMissingRaw: bool)
    returns (picked: seq<string>, rejected: seq<Rejection>)
    ensures picked == UsableOf(paths, ids, decisions, allowMissingRaw)
    ensures rejected == RejectedOf(paths, ids, decisions, allowMissingRaw)
  {
    picked, rejected := [], [];
    for i := 0 to |ids|
      invariant picked == UsableOf(paths, ids[..i], decisions, allowMissingRaw)
      invariant rejected == RejectedOf(paths, ids[..i], decisions, allowMissingRaw)
    {
      assert ids[..i + 1][..i] == ids[..i];
      var a := AdmissionAt(paths, ids[i]);
      var trainable := if a.accepted.Some? then a.accepted.value else a.decision in decisions;
      var present := ids[i] in paths && paths[ids[i]].rawPresent;
      if trainable && (present || allowMissingRaw) {
        picked := picked + [ids[i]];
      } else if trainable && !present {
        rejected := rejected + [Rejection(ids[i], RawArtifactsMissing)];
      } else {
        rejected := rejected +
          [Rejection(ids[i], if a.accepted == Some(false) then NotAcceptedForTraining else DecisionExcluded)];
      }
    }
    assert ids[..|ids|] == ids;
  }

  predicate IsRejected(paths: Paths, x: Rejection, decisions: seq<string>, allowMissingRaw: bool) {
    !Usable(paths, x.rolloutId, decisions, allowMissingRaw) && x == RejectionOf(paths, x.rolloutId, decisions)
  }

  ghost predicate SplitsRequest(
    paths: Paths, ids: seq<string>, decisions: seq<string>, allowMissingRaw: bool,
    picked: seq<string>, rejected: seq<Rejection>)
  {
    && NoDuplicates(picked)
    && (forall id :: id in picked <==> id in ids && Usable(paths, id, decisions, allowMissingRaw))
    && (forall x :: x in rejected <==> x.rolloutId in ids && IsRejected(paths, x, decisions, allowMissingRaw))
    && |picked| + |rejected| == |ids|
  }

  /** Every requested rollout is either selected or rejected with the reason that applies, never both
      and never twice. */
  lemma {:induction false} RequestIsSplit(paths: Paths, ids: seq<string>, decisions: seq<string>, allowMissingRaw: bool)
    requires NoDuplicates(ids)
    ensures SplitsRequest(paths, ids, decisions, allowMissingRaw,
      UsableOf(paths, ids, decisions, allowMissingRaw), RejectedOf(paths, ids, decisions, allowMissingRaw))
  {
    hide Usable, RejectionOf, SplitsRequest;
    if ids == [] {
      NothingRequested(paths, decisions, allowMissingRaw);
    } else {
      var n := |ids| - 1;
      var init, id := ids[..n], ids[n];
      assert ids == init + [id] && id !in init;
      RequestIsSplit(paths, init, decisions, allowMissingRaw);
      var picked := UsableOf(paths, init, decisions, allowMissingRaw);
      var rejected := RejectedOf(paths, init, decisions, allowMissingRaw);
      SplitStep(paths, init, id, decisions, allowMissingRaw, picked, rejected);
      assert picked + [] == picked && rejected + [] == rejected;
    }
  }

  lemma NothingRequested(paths: Paths, decisions: seq<string>, allowMissingRaw: bool)
    ensures SplitsRequest(paths, [], decisions, allowMissingRaw, [], [])
  {
  }

  lemma SplitStep(
    paths: Paths, ids: seq<string>, id: string, decisions: seq<string>, allowMissingRaw: bool,
    picked: seq<string>, rejected: seq<Rejection>)
    requires SplitsRequest(paths, ids, decisions, allowMissingRaw, picked, rejected) && id !in ids
    ensures if Usable(paths, id, decisions, allowMissingRaw)
      then SplitsRequest(paths, ids + [id], decisions, allowMissingRaw, picked + [id], rejected)
      else SplitsRequest(
        paths, ids + [id], decisions, allowMissingRaw, picked, rejected + [RejectionOf(paths, id, decisions)])
  {
    hide Usable, RejectionOf;
    assert RejectionOf(paths, id, decisions).rolloutId == id by { RejectionNames(paths, id, decisions); }
  }

  lemma RejectionNames(paths: Paths, id: string, decisions: seq<string>)
    ensures RejectionOf(paths, id, decisions).rolloutId == id
  {
  }

  /** An id is usable exactly when its admission accepts it, or names one of the decisions without saying
      either, and its raw artifacts are there or may be missing. */
  lemma UsableExactly(paths: Paths, id: string, decisions: seq<string>, allowMissingRaw: bool)
    requires "" !in decisions
    ensures Usable(paths, id, decisions, allowMissingRaw) <==>
      && id in paths && paths[id].admission.Some?
      && Accepting(paths[id].admission.value, decisions)
      && (paths[id].rawPresent || allowMissingRaw)
  {
  }

  ghost predicate Accepting(a: AdmissionFile, decisions: seq<string>) {
    a.accepted == Some(true) || (a.accepted == None && a.decision in decisions)
  }

  /** Why an id is rejected: acceptable but without raw artifacts, refused for training, or not among the
      decisions asked for. */
  lemma RejectionExactly(paths: Paths, id: string, decisions: seq<string>)
    requires "" !in decisions
    ensures var x := RejectionOf(paths, id, decisions);
      var known := id in paths && paths[id].admission.Some?;
      && x.rolloutId == id
      && (x.reason == RawArtifactsMissing <==> known && Accepting(paths[id].admission.value, decisions))
      && (x.reason == NotAcceptedForTraining <==> known && paths[id].admission.value.accepted == Some(false))
  {
  }

  /** A rollout passes the filter exactly when it is a directory of the root, asked for if anything is
      asked for by id, and its admission accepts it or names a decision without saying either. */
  lemma PassesExactly(root: Root, name: string, decisions: seq<string>, ids: Option<seq<string>>)
    ensures Passes(root, name, decisions, ids) <==>
      && name in root && root[name].isDir && (ids == None || name in ids.value)
      && root[name].admission.Some? && Accepting(root[name].admission.value, decisions)
  {
  }

  lemma {:induction false} JoinedAdds(a: seq<seq<string>>, b: seq<seq<string>>)
    ensures Joined(a + b) == Joined(a) + Joined(b)
    ensures |a| == 1 ==> Joined(a) == a[0]
  {
    if |a| == 1 {
      assert a[..0] == [];
    }
    if b == [] {
      assert a + b == a;
    } else {
      JoinedAdds(a, b[..|b| - 1]);
      assert (a + b)[..|a + b| - 1] == a + b[..|b| - 1];
    }
  }

  lemma {:induction false} JoinedMembers(sessions: seq<seq<string>>, id: string)
    ensures id in Joined(sessions) <==> exists session :: session in sessions && id in session
  {
    if sessions != [] {
      JoinedMembers(sessions[..|sessions| - 1], id);
      assert sessions == sessions[..|sessions| - 1] + [sessions[|sessions| - 1]];
    }
  }

  ghost predicate Named(q: Request, id: string) {
    (exists session :: session in q.sessions && id in session) || (id in q.explicit && id != "")
  }

  ghost predicate VisibleDirectory(root: Root, name: string) {
    name in root && root[name].isDir && (name == "" || name[0] != '.')
  }

  /** The rollouts asked for: those the sessions or the request name, or every visible directory when
      nothing is named; each once. */
  lemma RequestedExactly(root: Root, listing: seq<string>, q: Request, id: string)
    requires IsListing(listing, root)
    ensures NoDuplicates(Requested(root, listing, q))
    ensures id in Requested(root, listing, q) <==>
      if exists other :: Named(q, other) then Named(q, id) else VisibleDirectory(root, id)
  {
    hide Joined, Sort;
    var named := Joined(q.sessions) + NonEmpty(q.explicit);
    forall other ensures other in named <==> Named(q, other) {
      JoinedMembers(q.sessions, other);
    }
    assert named != [] ==> named[0] in named;
  }

  /** They come in the order of the sessions, then of the request, at their first mention; unnamed ones in
      the order of their names. */
  lemma RequestedOrder(root: Root, listing: seq<string>, q: Request) returns (at: seq<nat>)
    ensures var named := Joined(q.sessions) + NonEmpty(q.explicit);
      Places(if named == [] then VisibleOf(root, Sort(listing, StrLe)) else named, Requested(root, listing, q), at)
  {
    hide Joined, Sort, NonEmpty, Places;
    var named := Joined(q.sessions) + NonEmpty(q.explicit);
    at := DedupeKeepsOrder(if named == [] then VisibleOf(root, Sort(listing, StrLe)) else named);
  }

  /** Building the manifest again from a stored selection gives exactly the ids selected, sorted, if and
      only if every one of them is the name of an entry of the rollouts root. */
  lemma SelectionIsReproduced(root: Root, paths: Paths, listing: seq<string>, q: Request)
    requires IsListing(listing, root) && FilesAreBare(root) && Extends(paths, root)
    ensures var decisions := NonEmpty(OrAccepted(q.decisions));
      var picked := UsableOf(paths, Requested(root, listing, q), decisions, q.allowMissingRaw);
      Selected(root, listing, OrAccepted(decisions), Some(picked)) == Sort(picked, StrLe)
      <==> forall id :: id in picked ==> id in root
  {
    hide Requested;
    var decisions := NonEmpty(OrAccepted(q.decisions));
    var ids := Requested(root, listing, q);
    RequestedDistinct(root, listing, q);
    RequestIsSplit(paths, ids, decisions, q.allowMissingRaw);
    var picked := UsableOf(paths, ids, decisions, q.allowMissingRaw);
    var again := Selected(root, listing, OrAccepted(decisions), Some(picked));
    StringOrder();
    SortIsStrict(picked, StrLe);
    SelectedExactly(root, listing, OrAccepted(decisions), Some(picked), again);
    SelectedExactly(root, listing, OrAccepted(decisions), Some(picked), Sort(picked, StrLe));
    if forall id :: id in picked ==> id in root {
      forall id ensures id in picked <==> Passes(root, id, OrAccepted(decisions), Some(picked)) {
        if id in picked {
          UsableMeansReviewed(root, paths, id, decisions, q.allowMissingRaw);
        }
      }
    }
    if again == Sort(picked, StrLe) {
      forall id | id in picked ensures id in root {
        assert id in again;
      }
    }
  }

  lemma RequestedDistinct(root: Root, listing: seq<string>, q: Request)
    ensures NoDuplicates(Requested(root, listing, q))
  {
  }

  lemma UsableMeansReviewed(root: Root, paths: Paths, id: string, decisions: seq<string>, allowMissingRaw: bool)
    requires FilesAreBare(root) && Extends(paths, root) && id in root && "" !in decisions
    requires Usable(paths, id, decisions, allowMissingRaw)
    ensures Passes(root, id, OrAccepted(decisions), Some([id]))
  {
  }

  // ---------------------------------------------------- admissions that are reviews

  datatype Reviewed = Reviewed(e: Evidence, s: Settings, oracle: Oracle, classify: Classifier) {
    function Outcome(): Review { ReviewOf(e, s, oracle, classify) }
  }

  function DecisionName(d: Decision): string {
    match d
    case Accepted => "accepted"
    case NeedsReview => "needs_review"
    case Rejected => "rejected"
    case RetryRecommended => "retry_recommended"
  }

  /** A stored decision without a word on training is admitted by default exactly if it is an acceptance,
      and under its own name always; a request that names decisions is taken at its word. */
  lemma DefaultDecisionsExactly(d: Decision, asked: seq<string>)
    ensures Admits(AdmissionFile(None, DecisionName(d)), OrAccepted([])) <==> d == Accepted
    ensures asked != [] ==> OrAccepted(asked) == asked
    ensures DecisionName(d) == "needs_review" <==> d == NeedsReview
    ensures DecisionName(d) == "rejected" <==> d == Rejected
    ensures DecisionName(d) == "retry_recommended" <==> d == RetryRecommended
    ensures DecisionName(d) == "accepted" <==> d == Accepted
  {
  }

  /** The artifacts in a rollout directory are those its review wrote. */
  ghost predicate WrittenBy(d: Dir, r: Reviewed) {
    && d.isDir
    && d.admission == Some(AdmissionFile(
          Some(r.Outcome().admission.acceptedForTraining), DecisionName(r.Outcome().admission.decision)))
    && d.confidence == Some(r.Outcome().annotation.outcome.confidence)
  }

  /** Every admission in the root was written by a review; other directories have none yet. */
  ghost predicate WrittenByReviews(root: Root, reviews: map<string, Reviewed>) {
    && (forall name :: name in reviews ==> name in root && WrittenBy(root[name], reviews[name]))
    && (forall name :: name in root && name !in reviews ==> root[name].admission.None?)
  }

  /** End to end: when every admission was written by the review pipeline, the rollouts trained on are
      exactly the requested ones whose reviewed outcome is a success, whatever decisions are asked for. */
  lemma TrainedExactlyOnSuccesses(root: Root, reviews: map<string, Reviewed>, listing: seq<string>,
                                  decisions: seq<string>, ids: Option<seq<string>>)
    requires IsListing(listing, root) && WrittenByReviews(root, reviews)
    ensures forall name :: name in Selected(root, listing, decisions, ids) <==>
      name in reviews && (ids.Some? ==> name in ids.value)
      && reviews[name].Outcome().annotation.outcome.finalSuccess
  {
    hide ReviewOf, Sort;
    SelectedExactly(root, listing, decisions, ids, Selected(root, listing, decisions, ids));
    forall name | name in reviews
      ensures Passes(root, name, decisions, ids) <==>
        (ids.Some? ==> name in ids.value) && reviews[name].Outcome().annotation.outcome.finalSuccess
    {
      var r := reviews[name];
      AcceptedIsFinalSuccess(r.e, r.s, r.oracle, r.classify);
      assert WrittenBy(root[name], r);
    }
  }

  /** The manifest of such a root is always built: no review stores a confidence an entry refuses. */
  lemma ReviewedConfidencesFit(root: Root, reviews: map<string, Reviewed>, listing: seq<string>,
                               decisions: seq<string>, ids: Option<seq<string>>)
    requires IsListing(listing, root) && WrittenByReviews(root, reviews)
    requires forall name :: name in reviews ==> reviews[name].e.ConfidenceInUnit()
    ensures forall name :: name in Selected(root, listing, decisions, ids) ==>
      name in root && InUnit(ConfidenceOf(root[name]))
  {
    hide ReviewOf, Sort;
    TrainedExactlyOnSuccesses(root, reviews, listing, decisions, ids);
    forall name | name in Selected(root, listing, decisions, ids)
      ensures name in root && InUnit(ConfidenceOf(root[name]))
    {
      StoredConfidence(root[name], reviews[name]);
    }
  }

  lemma StoredConfidence(d: Dir, r: Reviewed)
    requires WrittenBy(d, r) && r.e.ConfidenceInUnit()
    ensures InUnit(ConfidenceOf(d))
  {
    hide AnnotationOf, AdmissionOf, Analyze;
    ConfidenceIsProbability(r.e, r.s, r.oracle);
  }
}
