/**
 Ghidra enrichment of a finished run (core/pipeline/ghidra.py) and the cleanup of stages a dead
 worker left open (core/pipeline/recovery.py): all they write, and that the gate cannot see it.
 */
module Enrichment {
  import opened Options
  import opened Order
  import opened GateRun
  import Policy
  import RunLifecycle
  import Triage

  const ANALYZER := "ghidra"

  // ----- the analyzer's answer

  datatype Target = Target(fileOffset: int, functions: seq<Option<string>>)

  datatype Binary = Binary(path: string, status: string, reason: Option<string>, targets: seq<Target>)

  datatype GhidraResult = GhidraResult(version: string, binaries: seq<Binary>, truncated: bool)

  type Site = (string, int)

  /** `best_function`: the first named one. */
  function BestFunction(names: seq<Option<string>>): Option<string> {
    if names == [] then None
    else if names[0].Some? && names[0].value != "" then names[0]
    else BestFunction(names[1..])
  }

  function TargetXrefs(path: string, targets: seq<Target>, before: map<Site, string>): map<Site, string> {
    if targets == [] then before
    else
      var n := |targets| - 1;
      var found, name := TargetXrefs(path, targets[..n], before), BestFunction(targets[n].functions);
      if name.Some? && name.value != "" then found[(path, targets[n].fileOffset) := name.value] else found
  }

  /** `xref_functions`. */
  function XrefFunctions(binaries: seq<Binary>): map<Site, string> {
    if binaries == [] then map[]
    else
      var n := |binaries| - 1;
      TargetXrefs(binaries[n].path, binaries[n].targets, XrefFunctions(binaries[..n]))
  }

  function Cut(text: string, n: nat): string {
    if |text| > n then text[..n] else text
  }

  function Join(parts: seq<string>): string {
    if parts == [] then ""
    else if |parts| == 1 then parts[0]
    else Join(parts[..|parts| - 1]) + "; " + parts[|parts| - 1]
  }

  // ----- one enrichment

  /** What the run's executables came to: the artifacts to analyse, and a note for each left out. */
  datatype Selection = Selection(targets: seq<string>, labels: map<string, string>, notes: seq<string>)

  datatype BeginOutcome = RunNotFound | NotApplicable | AlreadyHandled | DuplicateStage | SkippedStage | Started

  predicate Handled(s: StageStatus) {
    s.Running? || s.Completed? || s.Truncated?
  }

  predicate SameStage(s: StageRow, runId: string, artifactId: Option<string>, analyzer: string) {
    artifactId.Some? && s.runId == runId && s.artifactId == artifactId && s.analyzer == analyzer
  }

  function RootOf(db: Store, runId: string): Option<string> {
    if runId in db.roots then Some(db.roots[runId]) else None
  }

  function BeginVerdict(db: Store, runId: string, selected: Selection): BeginOutcome {
    if runId !in db.runs then RunNotFound
    else if !db.runs[runId].status.Completed? && !db.runs[runId].status.Degraded? then NotApplicable
    else if exists i :: 0 <= i < |db.stages| && db.stages[i].runId == runId && db.stages[i].analyzer == ANALYZER
                        && Handled(db.stages[i].status) then AlreadyHandled
    else if exists i :: 0 <= i < |db.stages| && SameStage(db.stages[i], runId, RootOf(db, runId), ANALYZER)
      then DuplicateStage
    else if selected.targets == [] then SkippedStage
    else Started
  }

  function NewStage(db: Store, runId: string, stageId: string, now: int): StageRow {
    StageRow(stageId, runId, RootOf(db, runId), ANALYZER, Pending, now, Some(now), None, None, None, 0)
  }

  /** `enrich_run` up to its first commit. */
  function Begin(db: Store, runId: string, stageId: string, selected: Selection, now: int,
        redact: string -> string): Store {
    var stage := NewStage(db, runId, stageId, now);
    match BeginVerdict(db, runId, selected)
    case Started => db.(stages := db.stages + [stage.(status := Running)])
    case SkippedStage =>
      var text := Cut(redact(Join(["no executable has a finding at a file offset"] + selected.notes)), 2000);
      db.(stages := db.stages + [stage.(status := Skipped, finishedAt := Some(now), error := Some(text))])
    case _ => db
  }

  /** How the analyzer ended: an exception, or a recorded container and perhaps a result. */
  datatype Attempt =
    | Raised(message: string)
    | Ran(status: StageStatus, error: Option<string>, imageDigest: Option<string>, payload: Option<GhidraResult>)

  /** The function names to store, by artifact and offset. */
  function Wanted(result: GhidraResult, targets: seq<string>, redact: string -> string): map<Site, string> {
    var xrefs := XrefFunctions(result.binaries);
    map site | site in xrefs && site.0 in targets :: Cut(redact(xrefs[site]), 255)
  }

  predicate Resolves(l: LocationRow, runId: string, wanted: map<Site, string>) {
    && l.runId == runId && l.offset.Some?
    && (l.artifactId, l.offset.value) in wanted && wanted[(l.artifactId, l.offset.value)] != ""
  }

  function Resolve(l: LocationRow, runId: string, wanted: map<Site, string>): LocationRow {
    if Resolves(l, runId, wanted) then l.(xrefFunction := Some(wanted[(l.artifactId, l.offset.value)])) else l
  }

  function ResolveAll(ls: seq<LocationRow>, runId: string, wanted: map<Site, string>): (r: seq<LocationRow>)
    ensures |r| == |ls| && forall i :: 0 <= i < |ls| ==> r[i] == Resolve(ls[i], runId, wanted)
  {
    seq(|ls|, i requires 0 <= i < |ls| => Resolve(ls[i], runId, wanted))
  }

  function ResolvedCount(ls: seq<LocationRow>, runId: string, wanted: map<Site, string>): nat {
    if ls == [] then 0
    else ResolvedCount(ls[..|ls| - 1], runId, wanted) + if Resolves(ls[|ls| - 1], runId, wanted) then 1 else 0
  }

  function Problems(binaries: seq<Binary>, labels: map<string, string>): seq<string> {
    if binaries == [] then []
    else
      var b := binaries[|binaries| - 1];
      Problems(binaries[..|binaries| - 1], labels)
        + if b.status == "analyzed" then []
          else [(if b.path in labels then labels[b.path] else b.path) + ": " + b.status
                + if b.reason.Some? && b.reason.value != "" then " (" + b.reason.value + ")" else ""]
  }

  predicate NoneAnalyzed(binaries: seq<Binary>) {
    forall i :: 0 <= i < |binaries| ==> binaries[i].status != "analyzed"
  }

  predicate SomeDegraded(binaries: seq<Binary>) {
    exists i :: 0 <= i < |binaries| && binaries[i].status != "analyzed" && binaries[i].status != "skipped"
  }

  /** `_summarise_stage`. */
  function Summarise(stage: StageRow, result: GhidraResult, selected: Selection, redact: string -> string): StageRow {
    if !stage.status.Completed? then stage
    else
      var parts := Problems(result.binaries, selected.labels) + selected.notes;
      stage.(
        status := if SomeDegraded(result.binaries) && NoneAnalyzed(result.binaries) then Failed
                  else if result.truncated then Truncated else stage.status,
        error := if parts == [] then None else Some(Cut(redact(Join(parts)), 2000)))
  }

  function Recorded(stage: StageRow, a: Attempt, now: int): StageRow
    requires a.Ran?
  {
    stage.(finishedAt := Some(now), imageDigest := a.imageDigest, error := a.error, status := a.status)
  }

  /** The stage row at the end of `enrich_run`. */
  function Ended(stage: StageRow, a: Attempt, selected: Selection, resolved: nat, now: int,
        redact: string -> string): StageRow {
    match a
    case Raised(message) =>
      stage.(status := Failed, finishedAt := Some(now), error := Some(Cut(redact(message), 2000)))
    case Ran(_, _, _, payload) =>
      var recorded := Recorded(stage, a, now);
      if payload.None? then
        if recorded.status.Completed?
        then recorded.(status := Failed, error := Some("the analyzer exited without writing a result"))
        else recorded
      else Summarise(recorded.(evidenceCount := resolved), payload.value, selected, redact)
  }

  function NoteVersions(m: Manifest, result: GhidraResult, digest: Option<string>): Manifest {
    Manifest(m.toolVersions["ghidra" := result.version],
             m.imageDigests[ANALYZER := if digest.Some? && digest.value != "" then digest.value else "unknown"])
  }

  predicate IsOurs(s: StageRow, stageId: string) {
    s.id == stageId && s.analyzer == ANALYZER
  }

  /** `enrich_run` after its first commit, for the stage it added. */
  function End(db: Store, runId: string, stageId: string, selected: Selection, a: Attempt, now: int,
        redact: string -> string): Store {
    var wanted := if a.Ran? && a.payload.Some? then Wanted(a.payload.value, selected.targets, redact) else map[];
    var resolved := ResolvedCount(db.locations, runId, wanted);
    db.(
      stages := seq(|db.stages|, i requires 0 <= i < |db.stages| =>
        if IsOurs(db.stages[i], stageId) then Ended(db.stages[i], a, selected, resolved, now, redact)
        else db.stages[i]),
      locations := ResolveAll(db.locations, runId, wanted),
      manifests := if a.Ran? && a.payload.Some? && runId in db.manifests
                   then db.manifests[runId := NoteVersions(db.manifests[runId], a.payload.value, a.imageDigest)]
                   else db.manifests)
  }

  // ----- the cleanup

  predicate IsStale(s: StageRow, now: int, timeout: int) {
    s.analyzer in ENRICHMENT_ANALYZERS && (s.status.Pending? || s.status.Running?)
    && now - (if s.startedAt.Some? then s.startedAt.value else s.createdAt) >= timeout
  }

  const ORPHANED := "orphaned: the worker running this stage stopped before recording a result"

  function CloseIfStale(s: StageRow, now: int, timeout: int): StageRow {
    if IsStale(s, now, timeout) then s.(status := Failed, finishedAt := Some(now), error := Some(ORPHANED)) else s
  }

  /** `fail_stale_enrichment_stages`. */
  function CloseStale(db: Store, now: int, timeout: int): Store {
    db.(stages := seq(|db.stages|, i requires 0 <= i < |db.stages| => CloseIfStale(db.stages[i], now, timeout)))
  }

  function StaleIds(stages: seq<StageRow>, now: int, timeout: int): seq<string> {
    if stages == [] then []
    else
      var last := stages[|stages| - 1];
      StaleIds(stages[..|stages| - 1], now, timeout) + if IsStale(last, now, timeout) then [last.id] else []
  }

  // ----- the code

  function WriteOurs(stages: seq<StageRow>, stageId: string, write: StageRow -> StageRow): (r: seq<StageRow>)
    ensures |r| == |stages|
    ensures forall i :: 0 <= i < |r| ==> r[i] == if IsOurs(stages[i], stageId) then write(stages[i]) else stages[i]
  {
    seq(|stages|, i requires 0 <= i < |stages| => if IsOurs(stages[i], stageId) then write(stages[i]) else stages[i])
  }

  lemma NothingResolves(ls: seq<LocationRow>, runId: string)
    ensures ResolveAll(ls, runId, map[]) == ls
  {
  }

  method ReadXrefs(binaries: seq<Binary>) returns (resolved: map<Site, string>)
    ensures resolved == XrefFunctions(binaries)
  {
    resolved := map[];
    for i := 0 to |binaries|
      invariant resolved == XrefFunctions(binaries[..i])
    {
      assert binaries[..i + 1][..i] == binaries[..i];
      var path, targets := binaries[i].path, binaries[i].targets;
      ghost var before := resolved;
      for j := 0 to |targets|
        invariant resolved == TargetXrefs(path, targets[..j], before)
      {
        assert targets[..j + 1][..j] == targets[..j];
        var name := BestFunction(targets[j].functions);
        if name.Some? && name.value != "" {
          resolved := resolved[(path, targets[j].fileOffset) := name.value];
        }
      }
      assert targets[..|targets|] == targets;
    }
    assert binaries[..|binaries|] == binaries;
  }

  /** The tables enrichment writes. */
  class Session {
    var db: Store

    constructor (db: Store)
      ensures this.db == db
    {
      this.db := db;
    }

    method BeginEnrichment(runId: string, stageId: string, selected: Selection, now: int, redact: string -> string)
        returns (outcome: BeginOutcome)
      modifies this
      ensures outcome == BeginVerdict(old(db), runId, selected)
      ensures db == Begin(old(db), runId, stageId, selected, now, redact)
    {
      hide Join, Cut;
      outcome := BeginVerdict(db, runId, selected);
      if outcome.Started? || outcome.SkippedStage? {
        var stage := NewStage(db, runId, stageId, now);
        if selected.targets == [] {
          var text := Cut(redact(Join(["no executable has a finding at a file offset"] + selected.notes)), 2000);
          stage := stage.(status := Skipped, finishedAt := Some(now), error := Some(text));
        } else {
          stage := stage.(status := Running);
        }
        db := db.(stages := db.stages + [stage]);
      }
    }

    /** `apply_xrefs`: only `xrefFunction` is written. */
    method ApplyXrefs(runId: string, result: GhidraResult, targets: seq<string>, redact: string -> string)
        returns (resolved: nat)
      modifies this
      ensures var wanted := Wanted(result, targets, redact);
              && db == old(db).(locations := ResolveAll(old(db).locations, runId, wanted))
              && resolved == ResolvedCount(old(db).locations, runId, wanted)
    {
      hide Wanted, Resolves, Resolve;
      var wanted := Wanted(result, targets, redact);
      resolved := 0;
      var locations := db.locations;
      var written := [];
      for i := 0 to |locations|
        invariant |written| == i
        invariant forall k :: 0 <= k < i ==> written[k] == Resolve(locations[k], runId, wanted)
        invariant resolved == ResolvedCount(locations[..i], runId, wanted)
      {
        assert locations[..i + 1][..i] == locations[..i];
        written := written + [Resolve(locations[i], runId, wanted)];
        if Resolves(locations[i], runId, wanted) {
          resolved := resolved + 1;
        }
      }
      assert locations[..|locations|] == locations;
      assert written == ResolveAll(locations, runId, wanted);
      db := db.(locations := written);
    }

    method WriteStage(stageId: string, write: StageRow -> StageRow)
      modifies this
      ensures db == old(db).(stages := WriteOurs(old(db).stages, stageId, write))
    {
      db := db.(stages := WriteOurs(db.stages, stageId, write));
    }

    /** The rest of `enrich_run`: record the container, then its result. */
    method FinishEnrichment(runId: string, stageId: string, selected: Selection, a: Attempt, now: int,
          redact: string -> string)
        returns (resolved: nat)
      modifies this
      ensures db == End(old(db), runId, stageId, selected, a, now, redact)
      ensures a.Ran? && a.payload.Some? ==>
                resolved == ResolvedCount(old(db).locations, runId, Wanted(a.payload.value, selected.targets, redact))
    {
      hide Summarise, Wanted, Cut, Join, ResolvedCount;
      resolved := 0;
      ghost var before := db;
      if a.Raised? {
        WriteStage(stageId, (s: StageRow) =>
            s.(status := Failed, finishedAt := Some(now), error := Some(Cut(redact(a.message), 2000))));
        NothingResolves(before.locations, runId);
        assert db.stages == End(before, runId, stageId, selected, a, now, redact).stages;
        return;
      }
      WriteStage(stageId, (s: StageRow) => Recorded(s, a, now));
      if a.payload.None? {
        if a.status.Completed? {
          WriteStage(stageId, (s: StageRow) =>
            s.(status := Failed, error := Some("the analyzer exited without writing a result")));
        }
        NothingResolves(before.locations, runId);
        assert db.stages == End(before, runId, stageId, selected, a, now, redact).stages;
        return;
      }
      var result := a.payload.value;
      resolved := ApplyXrefs(runId, result, selected.targets, redact);
      WriteStage(stageId, (s: StageRow) => Summarise(s.(evidenceCount := resolved), result, selected, redact));
      if runId in db.manifests {
        db := db.(manifests := db.manifests[runId := NoteVersions(db.manifests[runId], result, a.imageDigest)]);
      }
      assert db.stages == End(before, runId, stageId, selected, a, now, redact).stages;
    }

    method CloseStaleStages(now: int, timeout: int) returns (closed: seq<string>)
      modifies this
      ensures db == CloseStale(old(db), now, timeout)
      ensures closed == Sort(StaleIds(old(db).stages, now, timeout), StrLe)
    {
      hide IsStale, CloseIfStale, Sort;
      var stages := db.stages;
      closed := [];
      for i := 0 to |stages|
        invariant |db.stages| == |stages| && db == old(db).(stages := db.stages)
        invariant forall k :: 0 <= k < |stages| ==>
                    db.stages[k] == if k < i then CloseIfStale(stages[k], now, timeout) else stages[k]
        invariant closed == StaleIds(stages[..i], now, timeout)
      {
        assert stages[..i + 1][..i] == stages[..i];
        CloseCases(stages[i], now, timeout);
        if IsStale(stages[i], now, timeout) {
          var ended := stages[i].(status := Failed, finishedAt := Some(now), error := Some(ORPHANED));
          db := db.(stages := db.stages[i := ended]);
          closed := closed + [stages[i].id];
        }
      }
      assert stages[..|stages|] == stages;
      assert db.stages == CloseStale(old(db), now, timeout).stages;
      closed := Sort(closed, StrLe);
    }
  }

  lemma CloseCases(s: StageRow, now: int, timeout: int)
    ensures CloseIfStale(s, now, timeout)
         == if IsStale(s, now, timeout) then s.(status := Failed, finishedAt := Some(now), error := Some(ORPHANED))
            else s
  {
  }

  // ----- what reaches a location

  lemma {:induction false} TargetXrefsAreReported(path: string, targets: seq<Target>, before: map<Site, string>,
        site: Site)
    ensures var found := TargetXrefs(path, targets, before);
            site in found && !(site in before && found[site] == before[site]) ==>
              site.0 == path && exists j :: 0 <= j < |targets| && targets[j].fileOffset == site.1
                                            && BestFunction(targets[j].functions) == Some(found[site])
  {
    hide BestFunction;
    if targets != [] {
      var n := |targets| - 1;
      TargetXrefsAreReported(path, targets[..n], before, site);
      assert forall j :: 0 <= j < n ==> targets[..n][j] == targets[j];
    }
  }

  ghost predicate Reports(b: Binary, site: Site, name: string) {
    b.path == site.0
    && exists j :: 0 <= j < |b.targets| && b.targets[j].fileOffset == site.1
        && BestFunction(b.targets[j].functions) == Some(name)
  }

  lemma {:induction false} XrefsAreReported(binaries: seq<Binary>, site: Site)
    requires site in XrefFunctions(binaries)
    ensures exists b :: b in binaries && Reports(b, site, XrefFunctions(binaries)[site])
  {
    hide TargetXrefs, BestFunction;
    var n := |binaries| - 1;
    assert binaries != [];
    var before, found := XrefFunctions(binaries[..n]), XrefFunctions(binaries);
    TargetXrefsAreReported(binaries[n].path, binaries[n].targets, before, site);
    if site in before && found[site] == before[site] {
      XrefsAreReported(binaries[..n], site);
      var b :| b in binaries[..n] && Reports(b, site, before[site]);
      assert b in binaries;
    } else {
      assert Reports(binaries[n], site, found[site]);
    }
  }

  /**
   Enrichment only ever fills in a function name, and only one the analyzer reported for that
   very artifact and offset, redacted and cut; every other field of every location stays.
   */
  lemma OnlyReportedNames(ls: seq<LocationRow>, runId: string, result: GhidraResult, targets: seq<string>,
        redact: string -> string, i: nat)
    requires i < |ls|
    ensures var after := ResolveAll(ls, runId, Wanted(result, targets, redact))[i];
            && after.(xrefFunction := ls[i].xrefFunction) == ls[i]
            && (after != ls[i] ==>
                  && ls[i].runId == runId && ls[i].artifactId in targets && ls[i].offset.Some?
                  && exists b, name :: b in result.binaries && Reports(b, (ls[i].artifactId, ls[i].offset.value), name)
                                       && after.xrefFunction == Some(Cut(redact(name), 255)))
  {
    hide XrefFunctions, Reports, Cut;
    var wanted := Wanted(result, targets, redact);
    if Resolves(ls[i], runId, wanted) {
      XrefsAreReported(result.binaries, (ls[i].artifactId, ls[i].offset.value));
    }
  }

  // ----- what the gate reads

  ghost predicate PathsCovered(a: seq<LocationRow>, b: seq<LocationRow>) {
    forall l :: l in a ==> exists m :: m in b && m.runId == l.runId && m.findingId == l.findingId && m.path == l.path
  }

  ghost predicate ScanStagesCovered(a: seq<StageRow>, b: seq<StageRow>) {
    forall s :: s in a && s.analyzer !in ENRICHMENT_ANALYZERS ==>
      exists t :: t in b && t.runId == s.runId && t.analyzer == s.analyzer && t.status == s.status
  }

  /** Same runs and findings; same paths per finding; same scan stages, in any order and any number of times. */
  ghost predicate SameForGate(a: Store, b: Store) {
    && a.runs == b.runs && a.findings == b.findings
    && PathsCovered(a.locations, b.locations) && PathsCovered(b.locations, a.locations)
    && ScanStagesCovered(a.stages, b.stages) && ScanStagesCovered(b.stages, a.stages)
  }

  lemma SamePath(a: Store, b: Store, runId: string, ids: set<string>, id: string)
    requires SameForGate(a, b) && id in ids
    ensures var pa, pb := ArtifactPaths(a, runId, ids), ArtifactPaths(b, runId, ids);
            (id in pa <==> id in pb) && (id in pa ==> pa[id] == pb[id])
  {
    hide ArtifactPaths, StrLe, ScanStagesCovered;
    ShownPathIsLeast(a, runId, ids, id);
    ShownPathIsLeast(b, runId, ids, id);
    var pa, pb := ArtifactPaths(a, runId, ids), ArtifactPaths(b, runId, ids);
    if id in pa && id in pb {
      StrTotal(pa[id], pb[id]);
    }
  }

  lemma SameFindings(a: Store, b: Store, runId: string, baseline: BaselineRef)
    requires SameForGate(a, b)
    ensures GateFindings(a, runId, baseline) == GateFindings(b, runId, baseline)
  {
    hide ArtifactPaths, RowsOf;
    var rows := RowsOf(a.findings, runId);
    assert rows == RowsOf(b.findings, runId);
    forall i | 0 <= i < |rows|
      ensures GateFindings(a, runId, baseline)[i] == GateFindings(b, runId, baseline)[i]
    {
      assert rows[i].id in IdsOf(rows);
      SamePath(a, b, runId, IdsOf(rows), rows[i].id);
    }
  }

  lemma DegradedCovered(a: Store, b: Store, runId: string, text: string)
    requires ScanStagesCovered(a.stages, b.stages) && text in DegradedStages(a, runId)
    ensures text in DegradedStages(b, runId)
  {
    hide DegradedStages, StatusText;
    DegradedStageMembers(a, runId, text);
    DegradedStageMembers(b, runId, text);
    var s :| s in a.stages && CountsAsDegraded(s, runId) && text == Describe(s);
    var t :| t in b.stages && t.runId == s.runId && t.analyzer == s.analyzer && t.status == s.status;
    assert CountsAsDegraded(t, runId) && text == Describe(t);
  }

  lemma SameDegraded(a: Store, b: Store, runId: string)
    requires SameForGate(a, b)
    ensures Policy.SortStages(DegradedStages(a, runId)) == Policy.SortStages(DegradedStages(b, runId))
  {
    hide DegradedStages, PathsCovered;
    forall text
      ensures text in DegradedStages(a, runId) <==> text in DegradedStages(b, runId)
    {
      if text in DegradedStages(a, runId) {
        DegradedCovered(a, b, runId, text);
      }
      if text in DegradedStages(b, runId) {
        DegradedCovered(b, a, runId, text);
      }
    }
    Policy.StagesIgnoreOrder(DegradedStages(a, runId), DegradedStages(b, runId));
  }

  lemma SameVerdict(
      fs: seq<Policy.GateFinding>, p: Policy.GatePolicy, ws: seq<Policy.Waiver>, a: seq<string>, b: seq<string>,
          today: int)
    requires Policy.SortStages(a) == Policy.SortStages(b)
    ensures Policy.Evaluation(fs, p, ws, a, today) == Policy.Evaluation(fs, p, ws, b, today)
  {
    hide Policy.SortStages, Policy.SortFindings;
  }

  /** The gate's whole answer for any run is the same over both. */
  lemma GateCannotTell(a: Store, b: Store, runId: string, q: Request)
    requires SameForGate(a, b)
    ensures GateRunOf(a, runId, q) == GateRunOf(b, runId, q)
  {
    if runId in a.runs {
      var baseline := ResolveBaseline(a, a.runs[runId], q.baselineRun, q.baselineIds);
      assert baseline == ResolveBaseline(b, a.runs[runId], q.baselineRun, q.baselineIds);
      SameFindings(a, b, runId, baseline);
      SameDegraded(a, b, runId);
      hide SameForGate, GateFindings, DegradedStages, Policy.Evaluation, Policy.SortStages;
      SameVerdict(GateFindings(a, runId, baseline), q.policy, q.waivers, DegradedStages(a, runId),
          DegradedStages(b, runId), q.today);
    }
  }

  // ----- every step of enrichment

  lemma RowwiseInvisible(a: seq<StageRow>, b: seq<StageRow>)
    requires |a| == |b|
    requires forall i :: 0 <= i < |a| ==> a[i].analyzer == b[i].analyzer
    requires forall i :: 0 <= i < |a| && a[i].analyzer !in ENRICHMENT_ANALYZERS ==> a[i] == b[i]
    ensures ScanStagesCovered(a, b)
  {
    forall s | s in a && s.analyzer !in ENRICHMENT_ANALYZERS
      ensures s in b
    {
      var i :| 0 <= i < |a| && a[i] == s;
      assert b[i] == s;
    }
  }

  lemma BeginIsInvisible(db: Store, runId: string, stageId: string, selected: Selection, now: int,
        redact: string -> string)
    ensures SameForGate(db, Begin(db, runId, stageId, selected, now, redact))
  {
    hide BeginVerdict, Join, Cut;
  }

  lemma ResolveKeepsPaths(ls: seq<LocationRow>, runId: string, wanted: map<Site, string>)
    ensures PathsCovered(ls, ResolveAll(ls, runId, wanted))
    ensures PathsCovered(ResolveAll(ls, runId, wanted), ls)
  {
    var r := ResolveAll(ls, runId, wanted);
    forall l | l in ls
      ensures exists m :: m in r && m.runId == l.runId && m.findingId == l.findingId && m.path == l.path
    {
      var i :| 0 <= i < |ls| && ls[i] == l;
      assert r[i] in r;
    }
  }

  lemma EndedKeepsAnalyzer(s: StageRow, a: Attempt, selected: Selection, resolved: nat, now: int,
        redact: string -> string)
    ensures var e := Ended(s, a, selected, resolved, now, redact);
            e.analyzer == s.analyzer && e.runId == s.runId && e.artifactId == s.artifactId && e.id == s.id
  {
    hide Cut, Join, Problems;
  }

  lemma EndIsInvisible(db: Store, runId: string, stageId: string, selected: Selection, a: Attempt, now: int,
        redact: string -> string)
    ensures SameForGate(db, End(db, runId, stageId, selected, a, now, redact))
  {
    hide Wanted, Ended, PathsCovered, ScanStagesCovered, ResolvedCount;
    var after := End(db, runId, stageId, selected, a, now, redact);
    var wanted := if a.Ran? && a.payload.Some? then Wanted(a.payload.value, selected.targets, redact) else map[];
    ResolveKeepsPaths(db.locations, runId, wanted);
    var resolved := ResolvedCount(db.locations, runId, wanted);
    forall i | 0 <= i < |db.stages|
      ensures after.stages[i].analyzer == db.stages[i].analyzer
      ensures db.stages[i].analyzer !in ENRICHMENT_ANALYZERS ==> after.stages[i] == db.stages[i]
    {
      EndedKeepsAnalyzer(db.stages[i], a, selected, resolved, now, redact);
    }
    RowwiseInvisible(db.stages, after.stages);
    RowwiseInvisible(after.stages, db.stages);
  }

  lemma CloseIsInvisible(db: Store, now: int, timeout: int)
    ensures SameForGate(db, CloseStale(db, now, timeout))
  {
    hide ScanStagesCovered;
    var after := CloseStale(db, now, timeout);
    RowwiseInvisible(db.stages, after.stages);
    RowwiseInvisible(after.stages, db.stages);
  }

  /** One committed step of some enrichment task or cleanup. */
  datatype Action =
    | BeginAction(runId: string, stageId: string, selected: Selection, now: int)
    | EndAction(runId: string, stageId: string, selected: Selection, attempt: Attempt, now: int)
    | CloseAction(now: int, timeout: int)

  function Do(db: Store, a: Action, redact: string -> string): Store {
    match a
    case BeginAction(runId, stageId, selected, now) => Begin(db, runId, stageId, selected, now, redact)
    case EndAction(runId, stageId, selected, attempt, now) => End(db, runId, stageId, selected, attempt, now, redact)
    case CloseAction(now, timeout) => CloseStale(db, now, timeout)
  }

  function DoAll(db: Store, actions: seq<Action>, redact: string -> string): Store {
    if actions == [] then db else Do(DoAll(db, actions[..|actions| - 1], redact), actions[|actions| - 1], redact)
  }

  lemma ActionIsInvisible(db: Store, a: Action, redact: string -> string)
    ensures SameForGate(db, Do(db, a, redact))
  {
    hide SameForGate, Begin, End, CloseStale;
    match a
    case BeginAction(runId, stageId, selected, now) => BeginIsInvisible(db, runId, stageId, selected, now, redact);
    case EndAction(runId, stageId, selected, attempt, now) =>
      EndIsInvisible(db, runId, stageId, selected, attempt, now, redact);
    case CloseAction(now, timeout) => CloseIsInvisible(db, now, timeout);
  }

  /**
   After any steps of enrichment and cleanup, of any runs and in any order, finished or not, the
   gate answers every request about every run as it would have before them.
   */
  lemma {:induction false} EnrichmentNeverMovesTheGate(
      db: Store, actions: seq<Action>, redact: string -> string, runId: string, q: Request)
    ensures GateRunOf(DoAll(db, actions, redact), runId, q) == GateRunOf(db, runId, q)
  {
    hide GateRunOf, Do, SameForGate;
    if actions != [] {
      var n := |actions| - 1;
      EnrichmentNeverMovesTheGate(db, actions[..n], redact, runId, q);
      var before := DoAll(db, actions[..n], redact);
      ActionIsInvisible(before, actions[n], redact);
      GateCannotTell(before, Do(before, actions[n], redact), runId, q);
    }
  }

  // ----- at most one enrichment of a run

  ghost predicate HasStage(db: Store, runId: string) {
    exists i :: 0 <= i < |db.stages| && SameStage(db.stages[i], runId, RootOf(db, runId), ANALYZER)
  }

  lemma StageStays(a: Store, b: Store, runId: string)
    requires HasStage(a, runId) && a.roots == b.roots && |a.stages| <= |b.stages|
    requires forall i :: 0 <= i < |a.stages| ==>
               && b.stages[i].runId == a.stages[i].runId && b.stages[i].artifactId == a.stages[i].artifactId
               && b.stages[i].analyzer == a.stages[i].analyzer
    ensures HasStage(b, runId)
  {
    var i :| 0 <= i < |a.stages| && SameStage(a.stages[i], runId, RootOf(a, runId), ANALYZER);
    assert SameStage(b.stages[i], runId, RootOf(b, runId), ANALYZER);
  }

  lemma ActionKeepsStage(db: Store, a: Action, redact: string -> string, runId: string)
    requires HasStage(db, runId)
    ensures HasStage(Do(db, a, redact), runId)
  {
    hide Wanted, Ended, HasStage, Summarise, Join, Cut, BeginVerdict;
    var after := Do(db, a, redact);
    forall i | 0 <= i < |db.stages|
      ensures after.stages[i].runId == db.stages[i].runId && after.stages[i].artifactId == db.stages[i].artifactId
      ensures after.stages[i].analyzer == db.stages[i].analyzer
    {
      if a.EndAction? {
        var wanted := if a.attempt.Ran? && a.attempt.payload.Some?
                      then Wanted(a.attempt.payload.value, a.selected.targets, redact) else map[];
        EndedKeepsAnalyzer(db.stages[i], a.attempt, a.selected, ResolvedCount(db.locations, a.runId, wanted),
            a.now, redact);
      }
    }
    StageStays(db, after, runId);
  }

  lemma StageRefusesAnother(db: Store, runId: string, selected: Selection)
    requires HasStage(db, runId)
    ensures !BeginVerdict(db, runId, selected).Started? && !BeginVerdict(db, runId, selected).SkippedStage?
  {
  }

  /**
   Once a run with a root artifact has a Ghidra stage, whatever became of it, no later delivery
   starts another: the running, completed and truncated ones are recognised, and the row of a
   failed or skipped one collides with the table's unique key.
   */
  lemma EnrichedAtMostOnce(
      db: Store, actions: seq<Action>, redact: string -> string, runId: string, selected: Selection)
    requires HasStage(db, runId)
    ensures var v := BeginVerdict(DoAll(db, actions, redact), runId, selected);
            !v.Started? && !v.SkippedStage?
  {
    StageSurvives(db, actions, redact, runId);
    StageRefusesAnother(DoAll(db, actions, redact), runId, selected);
  }

  lemma {:induction false} StageSurvives(db: Store, actions: seq<Action>, redact: string -> string, runId: string)
    requires HasStage(db, runId)
    ensures HasStage(DoAll(db, actions, redact), runId)
  {
    hide HasStage, Do;
    if actions != [] {
      var n := |actions| - 1;
      StageSurvives(db, actions[..n], redact, runId);
      ActionKeepsStage(DoAll(db, actions[..n], redact), actions[n], redact, runId);
    }
  }
}
