/**
 The gate over a stored run: what it reads and how it chooses what to compare with
 (core/pipeline/gate.py, core/pipeline/stages.py).
 */
module GateRun {
  import opened Options
  import opened Order
  import opened Policy
  import opened PolicyMeaning
  import RunLifecycle
  import Strings = Text
  import Triage
  import Vocab

  datatype StageStatus = Pending | Running | Completed | TimedOut | OutOfMemory | Failed | Truncated | Skipped

  function StatusText(s: StageStatus): string {
    match s
    case Pending => "pending"
    case Running => "running"
    case Completed => "completed"
    case TimedOut => "timeout"
    case OutOfMemory => "oom"
    case Failed => "failed"
    case Truncated => "truncated"
    case Skipped => "skipped"
  }

  predicate IsDegraded(s: StageStatus) {
    s.TimedOut? || s.OutOfMemory? || s.Failed? || s.Truncated?
  }

  // ----- tables; a table is the list of its rows in whatever order the database returns them

  datatype RunRow = RunRow(status: RunLifecycle.Status, previousRunId: Option<string>, error: Option<string>)

  datatype StageRow = StageRow(
    id: string, runId: string, artifactId: Option<string>, analyzer: string, status: StageStatus, createdAt: int,
    startedAt: Option<int>, finishedAt: Option<int>, error: Option<string>, imageDigest: Option<string>,
        evidenceCount: nat)

  datatype FindingRow = FindingRow(runId: string, row: Triage.Row)

  datatype LocationRow = LocationRow(
    findingId: string, runId: string, artifactId: string, path: string, offset: Option<int>,
    xrefFunction: Option<string>)

  datatype Manifest = Manifest(toolVersions: map<string, string>, imageDigests: map<string, string>)

  datatype Store = Store(
    runs: map<string, RunRow>, roots: map<string, string>, findings: seq<FindingRow>, locations: seq<LocationRow>,
    stages: seq<StageRow>, manifests: map<string, Manifest>)

  // ----- stages.py

  const ENRICHMENT_ANALYZERS := {"ghidra"}

  predicate CountsAsDegraded(stage: StageRow, runId: string) {
    stage.runId == runId && IsDegraded(stage.status) && stage.analyzer !in ENRICHMENT_ANALYZERS
  }

  function DegradedRows(stages: seq<StageRow>, runId: string): seq<StageRow> {
    if stages == [] then []
    else
      var last := stages[|stages| - 1];
      DegradedRows(stages[..|stages| - 1], runId) + if CountsAsDegraded(last, runId) then [last] else []
  }

  predicate StageLe(a: StageRow, b: StageRow) {
    StrLe(a.analyzer, b.analyzer)
  }

  function Describe(stage: StageRow): string {
    stage.analyzer + " (" + StatusText(stage.status) + ")"
  }

  function DescribeAll(stages: seq<StageRow>): (r: seq<string>)
    ensures |r| == |stages| && forall i :: 0 <= i < |r| ==> r[i] == Describe(stages[i])
  {
    seq(|stages|, i requires 0 <= i < |stages| => Describe(stages[i]))
  }

  /** `degraded_stages`, described. */
  function DegradedStages(db: Store, runId: string): seq<string> {
    DescribeAll(Sort(DegradedRows(db.stages, runId), StageLe))
  }

  /** A description tells analyzers, whose names have no blank, and statuses apart. */
  lemma DescriptionTells(a: StageRow, b: StageRow)
    requires ' ' !in a.analyzer && ' ' !in b.analyzer && Describe(a) == Describe(b)
    ensures a.analyzer == b.analyzer && a.status == b.status
  {
    BeforeBlank(a);
    BeforeBlank(b);
    var n := |a.analyzer|;
    assert Describe(a)[..n] == Describe(b)[..n];
    assert Describe(a)[n + 2..|Describe(a)| - 1] == Describe(b)[n + 2..|Describe(a)| - 1];
    StatusTextsDiffer(a.status, b.status);
  }

  lemma BeforeBlank(s: StageRow)
    requires ' ' !in s.analyzer
    ensures var d, n := Describe(s), |s.analyzer|;
            && Strings.Find(d, " ", 0) == n && d[..n] == s.analyzer
            && n + 3 <= |d| && d[n + 2..|d| - 1] == StatusText(s.status)
  {
    var rest := "(" + StatusText(s.status) + ")";
    Strings.FirstChar(s.analyzer, ' ', rest);
    hide StatusText, Strings.Find;
    assert " (" == " " + "(";
    assert Describe(s) == s.analyzer + [' '] + rest;
  }

  lemma StatusTextsDiffer(a: StageStatus, b: StageStatus)
    ensures StatusText(a) == StatusText(b) ==> a == b
  {
    assert StatusText(Pending)[0] == 'p' && StatusText(Running)[0] == 'r' && StatusText(Completed)[0] == 'c';
    assert |StatusText(TimedOut)| == 7 && StatusText(OutOfMemory)[0] == 'o' && StatusText(Failed)[0] == 'f';
    assert |StatusText(Truncated)| == 9 && StatusText(Skipped)[0] == 's';
  }

  // ----- gate.py

  datatype BaselineSource = NoBaseline | SuppliedIds | ExplicitRun | PreviousRun

  datatype BaselineRef = BaselineRef(runId: Option<string>, findingIds: set<string>, source: BaselineSource)

  const UNRESOLVED := BaselineRef(None, {}, NoBaseline)

  function RowsOf(findings: seq<FindingRow>, runId: string): seq<Triage.Row> {
    if findings == [] then []
    else
      var last := findings[|findings| - 1];
      RowsOf(findings[..|findings| - 1], runId) + if last.runId == runId then [last.row] else []
  }

  function IdsOf(rows: seq<Triage.Row>): set<string> {
    set i | 0 <= i < |rows| :: rows[i].id
  }

  /** `resolve_baseline`; an empty run id counts as none given. */
  function ResolveBaseline(db: Store, run: RunRow, explicitRun: Option<string>,
        supplied: Option<set<string>>): BaselineRef {
    if supplied.Some? then BaselineRef(None, supplied.value, SuppliedIds)
    else
      var given := explicitRun.Some? && explicitRun.value != "";
      var candidate := if given then explicitRun else run.previousRunId;
      if candidate.None? then UNRESOLVED
      else if candidate.value !in db.runs then UNRESOLVED
      else if !db.runs[candidate.value].status.Completed? then UNRESOLVED
      else
        BaselineRef(candidate, IdsOf(RowsOf(db.findings, candidate.value)), if given then ExplicitRun else PreviousRun)
  }

  /** What the path query returns of a location. */
  datatype PathRow = PathRow(findingId: string, path: string, offset: Option<int>)

  predicate OffsetLe(a: Option<int>, b: Option<int>) {
    b.None? || (a.Some? && a.value <= b.value)
  }

  predicate PathRowLe(a: PathRow, b: PathRow) {
    if a.findingId != b.findingId then StrLe(a.findingId, b.findingId)
    else if a.path != b.path then StrLe(a.path, b.path)
    else OffsetLe(a.offset, b.offset)
  }

  function PathRows(locations: seq<LocationRow>, runId: string, ids: set<string>): seq<PathRow> {
    if locations == [] then []
    else
      var l := locations[|locations| - 1];
      PathRows(locations[..|locations| - 1], runId, ids)
        + if l.runId == runId && l.findingId in ids then [PathRow(l.findingId, l.path, l.offset)] else []
  }

  /** `paths.setdefault`, row by row. */
  function FirstPaths(rows: seq<PathRow>): map<string, string> {
    if rows == [] then map[]
    else
      var last, paths := rows[|rows| - 1], FirstPaths(rows[..|rows| - 1]);
      if last.findingId in paths then paths else paths[last.findingId := last.path]
  }

  function ArtifactPaths(db: Store, runId: string, ids: set<string>): map<string, string> {
    FirstPaths(Sort(PathRows(db.locations, runId, ids), PathRowLe))
  }

  function GateFindings(db: Store, runId: string, baseline: BaselineRef): seq<GateFinding> {
    var rows := RowsOf(db.findings, runId);
    Triage.ProjectAll(rows, baseline.findingIds, ArtifactPaths(db, runId, IdsOf(rows)))
  }

  datatype Request = Request(
    policy: GatePolicy, waivers: seq<Waiver>, baselineRun: Option<string>, baselineIds: Option<set<string>>, today: int)

  datatype GateResult = NoSuchRun | NotFinished(status: RunLifecycle.Status) | Judged(verdict: Verdict,
        baseline: BaselineRef)

  function FailureStage(run: RunRow): string {
    "run failed: " + if run.error.Some? && run.error.value != "" then run.error.value else "unknown error"
  }

  /** `gate_run`. */
  function GateRunOf(db: Store, runId: string, q: Request): GateResult {
    if runId !in db.runs then NoSuchRun
    else
      var run := db.runs[runId];
      if !RunLifecycle.IsTerminal(run.status) then NotFinished(run.status)
      else if run.status.Failed? then
        Judged(Evaluation([], q.policy, q.waivers, [FailureStage(run)], q.today), UNRESOLVED)
      else
        var baseline := ResolveBaseline(db, run, q.baselineRun, q.baselineIds);
        Judged(Evaluation(GateFindings(db, runId, baseline), q.policy, q.waivers, DegradedStages(db, runId),
            q.today), baseline)
  }

  // ----- the code

  method ArtifactPathsByQuery(locations: seq<LocationRow>, runId: string,
        ids: set<string>) returns (paths: map<string, string>)
    ensures paths == FirstPaths(Sort(PathRows(locations, runId, ids), PathRowLe))
  {
    hide PathRowLe;
    paths := map[];
    if ids == {} {
      NoIdsNoRows(locations, runId);
      return;
    }
    var rows := Sort(PathRows(locations, runId, ids), PathRowLe);
    for i := 0 to |rows|
      invariant paths == FirstPaths(rows[..i])
    {
      assert rows[..i + 1][..i] == rows[..i];
      if rows[i].findingId !in paths {
        paths := paths[rows[i].findingId := rows[i].path];
      }
    }
    assert rows[..|rows|] == rows;
  }

  lemma {:induction false} NoIdsNoRows(locations: seq<LocationRow>, runId: string)
    ensures PathRows(locations, runId, {}) == []
  {
    if locations != [] {
      NoIdsNoRows(locations[..|locations| - 1], runId);
    }
  }

  method CollectGateFindings(db: Store, runId: string, baseline: BaselineRef) returns (projected: seq<GateFinding>)
    ensures projected == GateFindings(db, runId, baseline)
  {
    hide RowsOf, FirstPaths, PathRows;
    var rows := RowsOf(db.findings, runId);
    projected := [];
    if rows == [] {
      return;
    }
    var paths := ArtifactPathsByQuery(db.locations, runId, IdsOf(rows));
    for i := 0 to |rows|
      invariant |projected| == i
      invariant forall k :: 0 <= k < i ==> projected[k] == Triage.Project(rows[k], baseline.findingIds, paths)
    {
      projected := projected + [Triage.Project(rows[i], baseline.findingIds, paths)];
    }
  }

  method RunGate(db: Store, runId: string, q: Request) returns (result: GateResult)
    ensures result == GateRunOf(db, runId, q)
  {
    hide Evaluation, GateFindings, DegradedStages;
    if runId !in db.runs {
      return NoSuchRun;
    }
    var run := db.runs[runId];
    if !RunLifecycle.IsTerminal(run.status) {
      return NotFinished(run.status);
    }
    if run.status.Failed? {
      var failed := Evaluate([], q.policy, q.waivers, [FailureStage(run)], q.today);
      return Judged(failed, UNRESOLVED);
    }
    var baseline := ResolveBaseline(db, run, q.baselineRun, q.baselineIds);
    var findings := CollectGateFindings(db, runId, baseline);
    var verdict := Evaluate(findings, q.policy, q.waivers, DegradedStages(db, runId), q.today);
    result := Judged(verdict, baseline);
  }

  // ----- what it means

  lemma {:induction false} PathRowMembers(locations: seq<LocationRow>, runId: string, ids: set<string>, r: PathRow)
    ensures r in PathRows(locations, runId, ids)
       <==> exists l :: l in locations && l.runId == runId && l.findingId in ids && r == PathRow(l.findingId,
           l.path, l.offset)
  {
    if locations != [] {
      var n := |locations| - 1;
      PathRowMembers(locations[..n], runId, ids, r);
      assert locations == locations[..n] + [locations[n]];
    }
  }

  lemma PathRowTransitive(a: PathRow, b: PathRow, c: PathRow)
    requires PathRowLe(a, b) && PathRowLe(b, c)
    ensures PathRowLe(a, c)
  {
    hide StrLe;
    if StrLe(a.findingId, b.findingId) && StrLe(b.findingId, c.findingId) {
      StrTransitive(a.findingId, b.findingId, c.findingId);
    }
    if StrLe(a.path, b.path) && StrLe(b.path, c.path) {
      StrTransitive(a.path, b.path, c.path);
    }
    StrTotal(a.findingId, b.findingId);
    StrTotal(a.path, b.path);
  }

  lemma PathRowOrder()
    ensures Preorder(PathRowLe)
  {
    forall a, b
      ensures PathRowLe(a, b) || PathRowLe(b, a)
    {
      StrTotal(a.findingId, b.findingId);
      StrTotal(a.path, b.path);
    }
    forall a, b, c | PathRowLe(a, b) && PathRowLe(b, c)
      ensures PathRowLe(a, c)
    {
      PathRowTransitive(a, b, c);
    }
  }

  lemma {:induction false} FirstPathIsLeast(rows: seq<PathRow>, id: string)
    requires Sorted(rows, PathRowLe)
    ensures var paths := FirstPaths(rows);
            && (id in paths <==> exists r :: r in rows && r.findingId == id)
            && (id in paths ==> exists r :: r in rows && r.findingId == id && r.path == paths[id])
            && (id in paths ==> forall r :: r in rows && r.findingId == id ==> StrLe(paths[id], r.path))
  {
    hide StrLe;
    if rows != [] {
      var n := |rows| - 1;
      FirstPathIsLeast(rows[..n], id);
      assert rows == rows[..n] + [rows[n]];
      StrTotal(rows[n].path, rows[n].path);
      forall r | r in rows[..n] && r.findingId == id && rows[n].findingId == id
        ensures StrLe(r.path, rows[n].path)
      {
        assert PathRowLe(r, rows[n]);
        StrTotal(r.path, rows[n].path);
      }
    }
  }

  /** The path shown for a finding is the least path among its locations in the run. */
  lemma ShownPathIsLeast(db: Store, runId: string, ids: set<string>, id: string)
    requires id in ids
    ensures var paths := ArtifactPaths(db, runId, ids);
            && (id in paths <==> exists l :: l in db.locations && l.runId == runId && l.findingId == id)
            && (id in paths ==> exists l ::
                  l in db.locations && l.runId == runId && l.findingId == id && l.path == paths[id])
            && (id in paths ==>
                  forall l :: l in db.locations && l.runId == runId && l.findingId == id ==> StrLe(paths[id], l.path))
  {
    hide PathRows, FirstPaths, StrLe, PathRowLe, Sort;
    var rows := PathRows(db.locations, runId, ids);
    PathRowOrder();
    SortSorted(rows, PathRowLe);
    SortElements(rows, PathRowLe);
    FirstPathIsLeast(Sort(rows, PathRowLe), id);
    forall r
      ensures r in rows
         <==> exists l :: l in db.locations && l.runId == runId && l.findingId in ids && r == PathRow(l.findingId,
             l.path, l.offset)
    {
      PathRowMembers(db.locations, runId, ids, r);
    }
    forall l | l in db.locations && l.runId == runId && l.findingId == id
      ensures PathRow(id, l.path, l.offset) in rows
    {
      PathRowMembers(db.locations, runId, ids, PathRow(id, l.path, l.offset));
    }
  }

  lemma {:induction false} DegradedRowMembers(stages: seq<StageRow>, runId: string)
    ensures forall s :: s in DegradedRows(stages, runId) <==> s in stages && CountsAsDegraded(s, runId)
  {
    hide CountsAsDegraded;
    if stages != [] {
      var n := |stages| - 1;
      DegradedRowMembers(stages[..n], runId);
      assert stages == stages[..n] + [stages[n]];
    }
  }

  /** The gate is told of exactly the analyzers of the run that did not finish, enrichment aside. */
  lemma DegradedStageMembers(db: Store, runId: string, text: string)
    ensures text in DegradedStages(db, runId)
       <==> exists s :: s in db.stages && CountsAsDegraded(s, runId) && text == Describe(s)
  {
    hide DegradedRows, StageLe, Describe, CountsAsDegraded;
    var rows := DegradedRows(db.stages, runId);
    DegradedRowMembers(db.stages, runId);
    SortElements(rows, StageLe);
    var sorted := Sort(rows, StageLe);
    if s :| s in db.stages && CountsAsDegraded(s, runId) && text == Describe(s) {
      var i :| 0 <= i < |sorted| && sorted[i] == s;
      assert DescribeAll(sorted)[i] == text;
    }
    if text in DescribeAll(sorted) {
      var i :| 0 <= i < |sorted| && DescribeAll(sorted)[i] == text;
      assert sorted[i] in sorted;
    }
  }

  /**
   A failed run is never a clean one: its verdict is inconclusive unless the posture is to let
   degraded scans pass.
   */
  lemma FailedRunIsInconclusive(db: Store, runId: string, q: Request)
    requires runId in db.runs && db.runs[runId].status.Failed?
    ensures var r := GateRunOf(db, runId, q);
            r.Judged? && r.verdict.decision == if q.policy.onDegraded == LetPass then Pass else Inconclusive
  {
    var stages := [FailureStage(db.runs[runId])];
    DecisionMeaning([], q.policy, q.waivers, stages, q.today);
    NothingBlocks(Case(q.policy, Index(q.waivers), q.today));
    hide Evaluation, Index;
  }

  lemma NothingBlocks(c: Case)
    ensures !SomeViolate(c, []) && !SomeOverspent(c, [])
  {
  }

  // ----- the baseline

  lemma SmallerBaselineDisposes(c: Case, r: Triage.Row, big: set<string>, small: set<string>,
                                paths: map<string, string>)
    requires small <= big
    ensures var a, b := Triage.Project(r, big, paths), Triage.Project(r, small, paths);
            && a.severity == b.severity
            && (Violates(c, a) ==> Violates(c, b))
            && (DisposeIn(c, a).UnderFloor? ==> DisposeIn(c, b).UnderFloor?)
  {
  }

  lemma {:induction false} SmallerBaselineCounts(c: Case, fa: seq<GateFinding>, fb: seq<GateFinding>, s: Vocab.Severity)
    requires |fa| == |fb|
    requires forall i :: 0 <= i < |fa| ==> fa[i].severity == fb[i].severity
    requires forall i :: 0 <= i < |fa| ==> DisposeIn(c, fa[i]).UnderFloor? ==> DisposeIn(c, fb[i]).UnderFloor?
    ensures UnderFloorCount(c, fa, s) <= UnderFloorCount(c, fb, s)
  {
    hide DisposeIn;
    if fa != [] {
      var n := |fa| - 1;
      SmallerBaselineCounts(c, fa[..n], fb[..n], s);
    }
  }

  /** Losing part of the baseline, or all of it, never unblocks a release. */
  lemma SmallerBaselineKeepsBlocked(
      rows: seq<Triage.Row>, big: set<string>, small: set<string>, paths: map<string, string>, p: GatePolicy,
      waivers: seq<Waiver>, degraded: seq<string>, today: int)
    requires small <= big
    requires Evaluation(Triage.ProjectAll(rows, big, paths), p, waivers, degraded, today).decision == Blocked
    ensures Evaluation(Triage.ProjectAll(rows, small, paths), p, waivers, degraded, today).decision == Blocked
  {
    var fa, fb := Triage.ProjectAll(rows, big, paths), Triage.ProjectAll(rows, small, paths);
    var c := Case(p, Index(waivers), today);
    DecisionMeaning(fa, p, waivers, degraded, today);
    DecisionMeaning(fb, p, waivers, degraded, today);
    hide Evaluation, Dispose, DisposeIn, Violates, UnderFloorCount;
    forall i | 0 <= i < |rows|
      ensures fa[i].severity == fb[i].severity
      ensures Violates(c, fa[i]) ==> Violates(c, fb[i])
      ensures DisposeIn(c, fa[i]).UnderFloor? ==> DisposeIn(c, fb[i]).UnderFloor?
    {
      SmallerBaselineDisposes(c, rows[i], big, small, paths);
    }
    forall s
      ensures UnderFloorCount(c, fa, s) <= UnderFloorCount(c, fb, s)
    {
      SmallerBaselineCounts(c, fa, fb, s);
    }
    StaysBlocked(c, fa, fb);
  }

  lemma StaysBlocked(c: Case, fa: seq<GateFinding>, fb: seq<GateFinding>)
    requires |fa| == |fb| && (SomeViolate(c, fa) || SomeOverspent(c, fa))
    requires forall i :: 0 <= i < |fa| ==> Violates(c, fa[i]) ==> Violates(c, fb[i])
    requires forall s :: UnderFloorCount(c, fa, s) <= UnderFloorCount(c, fb, s)
    ensures SomeViolate(c, fb) || SomeOverspent(c, fb)
  {
    hide Violates, UnderFloorCount;
    if f :| f in fa && Violates(c, f) {
      var i :| 0 <= i < |fa| && fa[i] == f;
      assert fb[i] in fb;
    } else {
      var s :| Overspent(c, fa, s);
      assert Overspent(c, fb, s);
    }
  }

  // ----- what the gate reads of the database

  /** `at` are the places of a run's findings in the table, and `rows` those findings. */
  ghost predicate AreRowsOf(findings: seq<FindingRow>, runId: string, at: seq<nat>, rows: seq<Triage.Row>) {
    && Increasing(at) && |rows| == |at|
    && (forall i: nat :: i in at <==> i < |findings| && findings[i].runId == runId)
    && forall k :: 0 <= k < |at| ==> at[k] < |findings| && rows[k] == findings[at[k]].row
  }

  /** The rows of a run are its own findings, every one of them once. */
  lemma {:induction false} RowsOfRun(findings: seq<FindingRow>, runId: string) returns (at: seq<nat>)
    ensures AreRowsOf(findings, runId, at, RowsOf(findings, runId))
  {
    at := [];
    if findings != [] {
      var n := |findings| - 1;
      var before := RowsOfRun(findings[..n], runId);
      at := if findings[n].runId == runId then before + [n] else before;
      MoreRows(findings, runId, before, RowsOf(findings[..n], runId));
      assert RowsOf(findings[..n], runId) + [] == RowsOf(findings[..n], runId);
    }
  }

  lemma MoreRows(findings: seq<FindingRow>, runId: string, at: seq<nat>, rows: seq<Triage.Row>)
    requires findings != []
    requires AreRowsOf(findings[..|findings| - 1], runId, at, rows)
    ensures var n := |findings| - 1;
            if findings[n].runId == runId then AreRowsOf(findings, runId, at + [n], rows + [findings[n].row])
            else AreRowsOf(findings, runId, at, rows)
  {
    var n := |findings| - 1;
    assert n !in at;
    forall i: nat
      ensures i in at <==> i < n && findings[i].runId == runId
    {
      if i < n {
        assert findings[..n][i] == findings[i];
      }
    }
    forall k | 0 <= k < |at|
      ensures at[k] < n && rows[k] == findings[at[k]].row
    {
      assert at[k] in at;
    }
  }

  /** The ids a run's finding rows carry. */
  lemma IdsOfRun(db: Store, runId: string, id: string)
    ensures id in IdsOf(RowsOf(db.findings, runId))
       <==> exists i :: 0 <= i < |db.findings| && db.findings[i].runId == runId && db.findings[i].row.id == id
  {
    var at := RowsOfRun(db.findings, runId);
    var rows := RowsOf(db.findings, runId);
    hide RowsOf;
    if id in IdsOf(rows) {
      var k :| 0 <= k < |rows| && rows[k].id == id;
      assert at[k] in at;
    }
    if i: nat :| i < |db.findings| && db.findings[i].runId == runId && db.findings[i].row.id == id {
      assert i in at;
      var k :| 0 <= k < |at| && at[k] == i;
      assert rows[k].id == id;
    }
  }

  /** The run a gated run is compared with: the one the caller names, else its recorded predecessor. */
  function Chosen(run: RunRow, explicitRun: Option<string>): Option<string> {
    if explicitRun.None? || explicitRun.value == "" then run.previousRunId else explicitRun
  }

  /**
   The baseline: supplied ids before anything else; otherwise the ids of exactly the findings of the
   chosen run, provided it exists and completed; otherwise nothing.
   */
  lemma BaselineMeaning(db: Store, run: RunRow, explicitRun: Option<string>, supplied: Option<set<string>>)
    ensures var b, chosen := ResolveBaseline(db, run, explicitRun, supplied), Chosen(run, explicitRun);
            && (supplied.Some? ==> b == BaselineRef(None, supplied.value, SuppliedIds))
            && (supplied.None? ==>
                  if chosen.Some? && chosen.value in db.runs && db.runs[chosen.value].status == RunLifecycle.Completed
                  then && b.runId == chosen
                       && (b.source == ExplicitRun <==> explicitRun.Some? && explicitRun.value != "")
                       && (b.source == ExplicitRun || b.source == PreviousRun)
                       && forall id :: id in b.findingIds
                            <==> exists i :: && 0 <= i < |db.findings| && db.findings[i].runId == chosen.value
                                             && db.findings[i].row.id == id
                  else b.runId.None? && b.findingIds == {} && b.source == NoBaseline)
  {
    var chosen := Chosen(run, explicitRun);
    if chosen.Some? {
      forall id
        ensures id in IdsOf(RowsOf(db.findings, chosen.value))
           <==> exists i :: && 0 <= i < |db.findings| && db.findings[i].runId == chosen.value
                            && db.findings[i].row.id == id
      {
        IdsOfRun(db, chosen.value, id);
      }
    }
    hide RowsOf, IdsOf;
  }

  /** What the gate sees of a finding row: its own fields, its newness, and its least path in the run. */
  ghost predicate Shows(f: GateFinding, db: Store, runId: string, r: Triage.Row, baseline: set<string>) {
    && f.id == r.id && f.ruleId == r.ruleId && f.category == r.category && f.title == r.title
    && f.severity == r.severity && f.status == r.status && f.valueMasked == r.valueMasked
    && (f.isNew <==> r.id !in baseline) && (f.llmDismissed <==> r.llmVerdict == Some(Triage.SaysFalse))
    && (forall l :: Locates(db, runId, r.id, l) ==> StrLe(f.artifactPath, l.path))
    && (if exists l :: Locates(db, runId, r.id, l)
        then exists l :: Locates(db, runId, r.id, l) && l.path == f.artifactPath
        else f.artifactPath == "")
  }

  predicate Locates(db: Store, runId: string, id: string, l: LocationRow) {
    l in db.locations && l.runId == runId && l.findingId == id
  }

  /** The gate judges exactly the run's own finding rows, each once. */
  ghost predicate AreFindingsOf(fs: seq<GateFinding>, db: Store, runId: string, at: seq<nat>, baseline: set<string>) {
    && Increasing(at) && |fs| == |at|
    && (forall i: nat :: i in at <==> i < |db.findings| && db.findings[i].runId == runId)
    && forall k :: 0 <= k < |at| ==> at[k] < |db.findings| && Shows(fs[k], db, runId, db.findings[at[k]].row, baseline)
  }

  lemma ProjectionShows(db: Store, runId: string, r: Triage.Row, ids: set<string>, baseline: set<string>)
    requires r.id in ids
    ensures Shows(Triage.Project(r, baseline, ArtifactPaths(db, runId, ids)), db, runId, r, baseline)
  {
    ShownPathIsLeast(db, runId, ids, r.id);
    hide ArtifactPaths, StrLe;
    if l :| l in db.locations && l.runId == runId && l.findingId == r.id
            && l.path == Triage.Project(r, baseline, ArtifactPaths(db, runId, ids)).artifactPath {
      assert Locates(db, runId, r.id, l);
    }
  }

  lemma GateJudgesItsOwnFindings(db: Store, runId: string, baseline: BaselineRef) returns (at: seq<nat>)
    ensures AreFindingsOf(GateFindings(db, runId, baseline), db, runId, at, baseline.findingIds)
  {
    at := RowsOfRun(db.findings, runId);
    var rows := RowsOf(db.findings, runId);
    var ids := IdsOf(rows);
    hide RowsOf, ArtifactPaths, Shows, Triage.Project;
    forall k | 0 <= k < |at|
      ensures Shows(GateFindings(db, runId, baseline)[k], db, runId, db.findings[at[k]].row, baseline.findingIds)
    {
      assert rows[k].id in ids;
      ProjectionShows(db, runId, rows[k], ids, baseline.findingIds);
    }
  }

  // ----- the gate from end to end

  /** A stage of the run that an analyzer did not finish; enrichment does not count. */
  ghost predicate Unfinished(db: Store, runId: string) {
    exists s :: && s in db.stages && s.runId == runId && s.analyzer != "ghidra"
                && (s.status == TimedOut || s.status == OutOfMemory || s.status == Failed || s.status == Truncated)
  }

  lemma UnfinishedIsDegraded(db: Store, runId: string)
    ensures DegradedStages(db, runId) != [] <==> Unfinished(db, runId)
  {
    hide DegradedStages, Describe;
    if s :| s in db.stages && CountsAsDegraded(s, runId) {
      DegradedStageMembers(db, runId, Describe(s));
    }
    if DegradedStages(db, runId) != [] {
      DegradedStageMembers(db, runId, DegradedStages(db, runId)[0]);
    }
  }

  /**
   The gate on a finished run that did not fail: BLOCKED exactly when one of the run's own findings
   blocks or its findings overdraw a budget; PASS exactly when neither, and every analyzer of the run
   finished or the policy lets degraded scans pass.
   */
  lemma RunIsBlockedExactly(db: Store, runId: string, q: Request) returns (fs: seq<GateFinding>, at: seq<nat>)
    requires runId in db.runs
    requires var status := db.runs[runId].status;
             status == RunLifecycle.Completed || status == RunLifecycle.Degraded || status == RunLifecycle.Cancelled
    ensures var r, b := GateRunOf(db, runId, q), ResolveBaseline(db, db.runs[runId], q.baselineRun, q.baselineIds);
            && AreFindingsOf(fs, db, runId, at, b.findingIds) && r.Judged? && r.baseline == b
            && var stop := (exists i :: 0 <= i < |fs| && Blocking(fs[i], q.policy, q.waivers, q.today))
                           || exists s :: Overdrawn(fs, q.policy, s);
               && (r.verdict.decision == Blocked <==> stop)
               && (r.verdict.decision == Pass <==>
                     !stop && (!Unfinished(db, runId) || q.policy.onDegraded == LetPass))
  {
    var b := ResolveBaseline(db, db.runs[runId], q.baselineRun, q.baselineIds);
    hide Evaluation, GateFindings, DegradedStages, ResolveBaseline, Blocking, Overdrawn, AreFindingsOf, Unfinished;
    fs := GateFindings(db, runId, b);
    at := GateJudgesItsOwnFindings(db, runId, b);
    UnfinishedIsDegraded(db, runId);
    DecisionInPlainTerms(fs, q.policy, q.waivers, DegradedStages(db, runId), q.today);
  }

  lemma OpenCriticalIsBlocking(f: GateFinding, db: Store, runId: string, r: Triage.Row, baseline: set<string>,
                               p: GatePolicy, today: int)
    requires Shows(f, db, runId, r, baseline) && r.id !in baseline && p.blockAtOrAbove.Some?
    requires r.severity == Vocab.Critical && r.status == Open
    ensures Blocking(f, p, [], today)
  {
  }

  /**
   An open critical finding of the run that is not in its baseline blocks it, under any policy with a
   severity floor and without a waiver, whatever else the database holds.
   */
  lemma OpenCriticalBlocks(db: Store, runId: string, q: Request, i: nat)
    requires runId in db.runs && q.waivers == [] && q.policy.blockAtOrAbove.Some?
    requires var status := db.runs[runId].status;
             status == RunLifecycle.Completed || status == RunLifecycle.Degraded || status == RunLifecycle.Cancelled
    requires i < |db.findings| && db.findings[i].runId == runId
    requires db.findings[i].row.severity == Vocab.Critical && db.findings[i].row.status == Open
    requires db.findings[i].row.id
             !in ResolveBaseline(db, db.runs[runId], q.baselineRun, q.baselineIds).findingIds
    ensures GateRunOf(db, runId, q).Judged? && GateRunOf(db, runId, q).verdict.decision == Blocked
  {
    var ids := ResolveBaseline(db, db.runs[runId], q.baselineRun, q.baselineIds).findingIds;
    hide GateRunOf, ResolveBaseline, Overdrawn, Unfinished, Blocking, Shows;
    var fs, at := RunIsBlockedExactly(db, runId, q);
    assert i in at;
    var k :| 0 <= k < |at| && at[k] == i;
    OpenCriticalIsBlocking(fs[k], db, runId, db.findings[i].row, ids, q.policy, q.today);
  }

  /** The gate refuses unknown runs and runs that are still queued or running, and no others. */
  lemma GateRefusesUnfinishedRuns(db: Store, runId: string, q: Request)
    ensures GateRunOf(db, runId, q).NoSuchRun? <==> runId !in db.runs
    ensures GateRunOf(db, runId, q).NotFinished?
       <==> runId in db.runs && (db.runs[runId].status.Queued? || db.runs[runId].status.Running?)
  {
    hide Evaluation, ResolveBaseline;
  }
}
