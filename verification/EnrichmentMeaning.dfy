/**
 What enrichment does to the tables, case by case (core/pipeline/ghidra.py,
 core/analyzers/ghidra_result.py, core/pipeline/recovery.py): when it starts, which function name each
 location gets, how each ending leaves the stage, and which stages the cleanup closes.
 */
module EnrichmentMeaning {
  import opened Enrichment
  import opened GateRun
  import opened Options
  import opened Order
  import RunLifecycle

  // ----- function names

  predicate Unnamed(f: Option<string>) {
    f.None? || f.value == ""
  }

  /** The first function with a name is called `name`. */
  ghost predicate FirstNamed(functions: seq<Option<string>>, name: string) {
    exists k :: && 0 <= k < |functions| && functions[k] == Some(name) && name != ""
                && forall i :: 0 <= i < k ==> Unnamed(functions[i])
  }

  predicate AllUnnamed(functions: seq<Option<string>>) {
    forall i :: 0 <= i < |functions| ==> Unnamed(functions[i])
  }

  lemma {:induction false} BestIsFirstNamed(functions: seq<Option<string>>)
    ensures BestFunction(functions).None? <==> AllUnnamed(functions)
    ensures BestFunction(functions).Some? ==> FirstNamed(functions, BestFunction(functions).value)
  {
    if functions != [] && Unnamed(functions[0]) {
      BestIsFirstNamed(functions[1..]);
      if BestFunction(functions[1..]).Some? {
        var name := BestFunction(functions[1..]).value;
        var k :| 0 <= k < |functions[1..]| && functions[1..][k] == Some(name) && name != ""
                 && forall i :: 0 <= i < k ==> Unnamed(functions[1..][i]);
        assert forall i :: 0 < i < k + 1 ==> functions[i] == functions[1..][i - 1];
        assert functions[k + 1] == Some(name);
      } else {
        assert forall i :: 0 < i < |functions| ==> functions[i] == functions[1..][i - 1];
      }
    }
  }

  /** No target at the offset has a named function. */
  ghost predicate NoneIn(targets: seq<Target>, offset: int) {
    forall j :: 0 <= j < |targets| && targets[j].fileOffset == offset ==> AllUnnamed(targets[j].functions)
  }

  /** The last target at the offset with a named function names `name` first. */
  ghost predicate LastIn(targets: seq<Target>, offset: int, name: string) {
    exists j :: && 0 <= j < |targets| && targets[j].fileOffset == offset && FirstNamed(targets[j].functions, name)
                && forall i :: j < i < |targets| && targets[i].fileOffset == offset ==> AllUnnamed(targets[i].functions)
  }

  lemma {:induction false} LastTargetNames(path: string, targets: seq<Target>, before: map<Site, string>, site: Site)
    ensures var found := TargetXrefs(path, targets, before);
            if path != site.0 || NoneIn(targets, site.1)
            then (site in found <==> site in before) && (site in before ==> found[site] == before[site])
            else site in found && LastIn(targets, site.1, found[site])
  {
    hide BestFunction, FirstNamed, AllUnnamed;
    if targets != [] {
      var n := |targets| - 1;
      LastTargetNames(path, targets[..n], before, site);
      BestIsFirstNamed(targets[n].functions);
      NamedIsNotEmpty(targets[n].functions);
      var found := TargetXrefs(path, targets, before);
      if targets[n].fileOffset == site.1 && BestFunction(targets[n].functions).Some? {
        assert !NoneIn(targets, site.1);
      } else if path == site.0 && !NoneIn(targets[..n], site.1) {
        LastStays(targets, site.1, found[site]);
      }
    }
  }

  lemma NamedIsNotEmpty(functions: seq<Option<string>>)
    ensures BestFunction(functions).Some? ==> BestFunction(functions).value != ""
  {
    BestIsFirstNamed(functions);
  }

  lemma LastStays(targets: seq<Target>, offset: int, name: string)
    requires targets != [] && LastIn(targets[..|targets| - 1], offset, name)
    requires targets[|targets| - 1].fileOffset == offset ==> AllUnnamed(targets[|targets| - 1].functions)
    ensures LastIn(targets, offset, name)
  {
    hide FirstNamed, AllUnnamed;
    var n := |targets| - 1;
    var init := targets[..n];
    var j :| && 0 <= j < n && init[j].fileOffset == offset && FirstNamed(init[j].functions, name)
             && forall i :: j < i < n && init[i].fileOffset == offset ==> AllUnnamed(init[i].functions);
    assert forall i :: 0 <= i < n ==> targets[i] == init[i];
  }

  /** The last binary of the result that names a function at the site names this one. */
  ghost predicate LastAmong(binaries: seq<Binary>, site: Site, name: string) {
    exists b :: && 0 <= b < |binaries| && binaries[b].path == site.0 && LastIn(binaries[b].targets, site.1, name)
                && forall i :: b < i < |binaries| && binaries[i].path == site.0 ==> NoneIn(binaries[i].targets, site.1)
  }

  ghost predicate SomeName(binaries: seq<Binary>, site: Site) {
    exists b :: 0 <= b < |binaries| && binaries[b].path == site.0 && !NoneIn(binaries[b].targets, site.1)
  }

  /** The map of function names holds the last name the result gives for each site. */
  lemma {:induction false} XrefsMeaning(binaries: seq<Binary>, site: Site)
    ensures var xrefs := XrefFunctions(binaries);
            && (site in xrefs <==> SomeName(binaries, site))
            && (site in xrefs ==> LastAmong(binaries, site, xrefs[site]))
  {
    hide TargetXrefs, LastIn, NoneIn;
    if binaries != [] {
      var n := |binaries| - 1;
      XrefsMeaning(binaries[..n], site);
      var before, xrefs := XrefFunctions(binaries[..n]), XrefFunctions(binaries);
      LastTargetNames(binaries[n].path, binaries[n].targets, before, site);
      assert forall i :: 0 <= i < n ==> binaries[..n][i] == binaries[i];
      if binaries[n].path != site.0 || NoneIn(binaries[n].targets, site.1) {
        if SomeName(binaries, site) {
          var b :| 0 <= b < |binaries| && binaries[b].path == site.0 && !NoneIn(binaries[b].targets, site.1);
          assert binaries[..n][b] == binaries[b];
        }
        if site in before {
          LastAmongStays(binaries, site, before[site]);
        }
      }
    }
  }

  lemma LastAmongStays(binaries: seq<Binary>, site: Site, name: string)
    requires binaries != [] && LastAmong(binaries[..|binaries| - 1], site, name)
    requires var last := binaries[|binaries| - 1];
             last.path != site.0 || NoneIn(last.targets, site.1)
    ensures LastAmong(binaries, site, name)
  {
    hide LastIn, NoneIn;
    var init := binaries[..|binaries| - 1];
    var b :| && 0 <= b < |init| && init[b].path == site.0 && LastIn(init[b].targets, site.1, name)
             && forall i :: b < i < |init| && init[i].path == site.0 ==> NoneIn(init[i].targets, site.1);
    assert forall i :: 0 <= i < |init| ==> binaries[i] == init[i];
  }

  function SiteOf(l: LocationRow): Site
    requires l.offset.Some?
  {
    (l.artifactId, l.offset.value)
  }

  /** The name that the result gives a location of the run, redacted and cut to the column. */
  ghost predicate Gets(l: LocationRow, runId: string, result: GhidraResult, targets: seq<string>,
                       redact: string -> string, name: string) {
    && l.runId == runId && l.offset.Some? && l.artifactId in targets
    && exists given :: LastAmong(result.binaries, SiteOf(l), given) && name == Cut(redact(given), 255) && name != ""
  }

  lemma LastIsOne(binaries: seq<Binary>, site: Site)
    ensures forall a, b :: LastAmong(binaries, site, a) && LastAmong(binaries, site, b) ==> a == b
    ensures (exists a :: LastAmong(binaries, site, a)) ==> SomeName(binaries, site)
  {
    forall a, b | LastAmong(binaries, site, a) && LastAmong(binaries, site, b)
      ensures a == b
    {
      LastIsUnique(binaries, site, a, b);
    }
    if a :| LastAmong(binaries, site, a) {
      LastIsSome(binaries, site, a);
    }
  }

  lemma LastInIsSome(targets: seq<Target>, offset: int, name: string)
    requires LastIn(targets, offset, name)
    ensures !NoneIn(targets, offset)
  {
  }

  lemma LastIsSome(binaries: seq<Binary>, site: Site, name: string)
    requires LastAmong(binaries, site, name)
    ensures SomeName(binaries, site)
  {
    hide LastIn, NoneIn;
    var b :| && 0 <= b < |binaries| && binaries[b].path == site.0 && LastIn(binaries[b].targets, site.1, name)
             && forall i :: b < i < |binaries| && binaries[i].path == site.0 ==> NoneIn(binaries[i].targets, site.1);
    LastInIsSome(binaries[b].targets, site.1, name);
  }

  lemma FirstIsUnique(functions: seq<Option<string>>, a: string, b: string)
    requires FirstNamed(functions, a) && FirstNamed(functions, b)
    ensures a == b && !AllUnnamed(functions)
  {
  }

  lemma LastInIsUnique(targets: seq<Target>, offset: int, a: string, b: string)
    requires LastIn(targets, offset, a) && LastIn(targets, offset, b)
    ensures a == b
  {
    hide FirstNamed, AllUnnamed;
    var j :| && 0 <= j < |targets| && targets[j].fileOffset == offset && FirstNamed(targets[j].functions, a)
             && forall i :: j < i < |targets| && targets[i].fileOffset == offset ==> AllUnnamed(targets[i].functions);
    var k :| && 0 <= k < |targets| && targets[k].fileOffset == offset && FirstNamed(targets[k].functions, b)
             && forall i :: k < i < |targets| && targets[i].fileOffset == offset ==> AllUnnamed(targets[i].functions);
    FirstIsUnique(targets[j].functions, a, a);
    FirstIsUnique(targets[k].functions, b, b);
    assert j == k;
    FirstIsUnique(targets[j].functions, a, b);
  }

  lemma LastIsUnique(binaries: seq<Binary>, site: Site, a: string, b: string)
    requires LastAmong(binaries, site, a) && LastAmong(binaries, site, b)
    ensures a == b
  {
    hide LastIn, NoneIn;
    var j :| && 0 <= j < |binaries| && binaries[j].path == site.0 && LastIn(binaries[j].targets, site.1, a)
             && forall i :: j < i < |binaries| && binaries[i].path == site.0 ==> NoneIn(binaries[i].targets, site.1);
    var k :| && 0 <= k < |binaries| && binaries[k].path == site.0 && LastIn(binaries[k].targets, site.1, b)
             && forall i :: k < i < |binaries| && binaries[i].path == site.0 ==> NoneIn(binaries[i].targets, site.1);
    LastInIsSome(binaries[j].targets, site.1, a);
    LastInIsSome(binaries[k].targets, site.1, b);
    assert j == k;
    LastInIsUnique(binaries[j].targets, site.1, a, b);
  }

  lemma WantedMeans(l: LocationRow, runId: string, result: GhidraResult, targets: seq<string>,
                    redact: string -> string)
    ensures var wanted := Wanted(result, targets, redact);
            && (Resolves(l, runId, wanted) <==> exists name :: Gets(l, runId, result, targets, redact, name))
            && (forall name :: Gets(l, runId, result, targets, redact, name) ==>
                  Resolve(l, runId, wanted) == l.(xrefFunction := Some(name)))
  {
    if l.offset.Some? {
      var site, xrefs := SiteOf(l), XrefFunctions(result.binaries);
      XrefsMeaning(result.binaries, site);
      LastIsOne(result.binaries, site);
      hide XrefFunctions, LastAmong, SomeName, Cut;
      if site in xrefs && l.artifactId in targets && l.runId == runId && Cut(redact(xrefs[site]), 255) != "" {
        assert Gets(l, runId, result, targets, redact, Cut(redact(xrefs[site]), 255));
      }
    }
  }

  /** The locations that a result names, by their place in the table. */
  ghost function NamedLocations(ls: seq<LocationRow>, runId: string, result: GhidraResult, targets: seq<string>,
                                redact: string -> string): set<nat> {
    set i: nat | i < |ls| && Resolves(ls[i], runId, Wanted(result, targets, redact))
  }

  lemma {:induction false} CountIsOfLocations(ls: seq<LocationRow>, runId: string, result: GhidraResult,
                                              targets: seq<string>, redact: string -> string)
    ensures ResolvedCount(ls, runId, Wanted(result, targets, redact))
         == |NamedLocations(ls, runId, result, targets, redact)|
  {
    hide Resolves, Wanted;
    if ls == [] {
      assert NamedLocations(ls, runId, result, targets, redact) == {};
    } else {
      var n := |ls| - 1;
      CountIsOfLocations(ls[..n], runId, result, targets, redact);
      OneMorePlace(NamedLocations(ls[..n], runId, result, targets, redact),
                   NamedLocations(ls, runId, result, targets, redact), n,
                   Resolves(ls[n], runId, Wanted(result, targets, redact)));
    }
  }

  /**
   Exactly the locations the result names get that name and change in nothing else, every other
   location stays, and the count is of those named.
   */
  lemma EveryNameIsStored(ls: seq<LocationRow>, runId: string, result: GhidraResult, targets: seq<string>,
                          redact: string -> string)
    ensures var wanted := Wanted(result, targets, redact);
            var after, named := ResolveAll(ls, runId, wanted), NamedLocations(ls, runId, result, targets, redact);
            && (forall i: nat :: i in named
                  <==> i < |ls| && exists name :: Gets(ls[i], runId, result, targets, redact, name))
            && (forall i: nat, name :: i < |ls| && Gets(ls[i], runId, result, targets, redact, name) ==>
                  after[i] == ls[i].(xrefFunction := Some(name)))
            && (forall i: nat :: i < |ls| && i !in named ==> after[i] == ls[i])
            && ResolvedCount(ls, runId, wanted) == |named|
  {
    CountIsOfLocations(ls, runId, result, targets, redact);
    hide Wanted, Gets, ResolvedCount, Resolves;
    var wanted := Wanted(result, targets, redact);
    forall i: nat | i < |ls|
      ensures Resolves(ls[i], runId, wanted) <==> exists name :: Gets(ls[i], runId, result, targets, redact, name)
      ensures forall name :: Gets(ls[i], runId, result, targets, redact, name) ==>
                Resolve(ls[i], runId, wanted) == ls[i].(xrefFunction := Some(name))
      ensures !Resolves(ls[i], runId, wanted) ==> Resolve(ls[i], runId, wanted) == ls[i]
    {
      WantedMeans(ls[i], runId, result, targets, redact);
    }
  }

  // ----- when enrichment starts

  ghost predicate HasStage(db: Store, runId: string, s: StageRow) {
    s in db.stages && s.runId == runId && s.analyzer == "ghidra"
  }

  /**
   Enrichment adds a stage exactly when the run completed or degraded, has no Ghidra stage running,
   completed or truncated, and none at all for its root; the stage runs if there is anything to analyse
   and is skipped with a note otherwise.
   */
  lemma WhenEnrichmentStarts(db: Store, runId: string, stageId: string, selected: Selection, now: int,
                             redact: string -> string)
    ensures var outcome, after := BeginVerdict(db, runId, selected), Begin(db, runId, stageId, selected, now, redact);
            var root := if runId in db.roots then Some(db.roots[runId]) else None;
            var fits := runId in db.runs
                        && (db.runs[runId].status == RunLifecycle.Completed
                            || db.runs[runId].status == RunLifecycle.Degraded);
            var handled := exists s :: HasStage(db, runId, s)
                                       && (s.status == Running || s.status == Completed || s.status == Truncated);
            var taken := root.Some? && exists s :: HasStage(db, runId, s) && s.artifactId == root;
            && (outcome == RunNotFound <==> runId !in db.runs)
            && (outcome == NotApplicable <==> runId in db.runs && !fits)
            && (outcome == AlreadyHandled <==> fits && handled)
            && (outcome == DuplicateStage <==> fits && !handled && taken)
            && (outcome == SkippedStage <==> fits && !handled && !taken && selected.targets == [])
            && (outcome == Started <==> fits && !handled && !taken && selected.targets != [])
            && after == db.(stages := after.stages)
            && (outcome == Started ==>
                  after.stages == db.stages + [StageRow(stageId, runId, root, "ghidra", Running, now, Some(now), None,
                                                        None, None, 0)])
            && (outcome == SkippedStage ==>
                  && |after.stages| == |db.stages| + 1 && db.stages <= after.stages
                  && var s := after.stages[|db.stages|];
                     s == StageRow(stageId, runId, root, "ghidra", Skipped, now, Some(now), Some(now), s.error,
                                   None, 0))
            && (outcome != Started && outcome != SkippedStage ==> after == db)
  {
    StagesByPlace(db, runId);
    hide Join, Cut;
  }

  lemma StagesByPlace(db: Store, runId: string)
    ensures forall s :: HasStage(db, runId, s) ==>
              exists i :: 0 <= i < |db.stages| && db.stages[i] == s
    ensures forall i :: 0 <= i < |db.stages| && db.stages[i].runId == runId && db.stages[i].analyzer == "ghidra" ==>
              HasStage(db, runId, db.stages[i])
  {
  }

  // ----- how a stage ends

  ghost predicate SomeNeither(binaries: seq<Binary>) {
    exists b :: b in binaries && b.status != "analyzed" && b.status != "skipped"
  }

  ghost predicate SomeAnalyzed(binaries: seq<Binary>) {
    exists b :: b in binaries && b.status == "analyzed"
  }

  /** What an ending makes of the stage's status. */
  ghost function EndStatus(a: Attempt): StageStatus {
    match a
    case Raised(_) => Failed
    case Ran(status, _, _, None) => if status == Completed then Failed else status
    case Ran(status, _, _, Some(result)) =>
      if status != Completed then status
      else if SomeNeither(result.binaries) && !SomeAnalyzed(result.binaries) then Failed
      else if result.truncated then Truncated
      else Completed
  }

  lemma {:induction false} NoProblems(binaries: seq<Binary>, labels: map<string, string>)
    ensures Problems(binaries, labels) == [] <==> forall b :: b in binaries ==> b.status == "analyzed"
  {
    if binaries != [] {
      var n := |binaries| - 1;
      NoProblems(binaries[..n], labels);
      assert binaries == binaries[..n] + [binaries[n]];
    }
  }

  lemma BinariesByPlace(binaries: seq<Binary>)
    ensures SomeDegraded(binaries) <==> SomeNeither(binaries)
    ensures NoneAnalyzed(binaries) <==> !SomeAnalyzed(binaries)
  {
    if SomeNeither(binaries) {
      var b :| b in binaries && b.status != "analyzed" && b.status != "skipped";
      var i :| 0 <= i < |binaries| && binaries[i] == b;
    }
    if SomeAnalyzed(binaries) {
      var b :| b in binaries && b.status == "analyzed";
      var i :| 0 <= i < |binaries| && binaries[i] == b;
    }
  }

  /**
   A stage ends failed on an exception, or without a result, or with binaries that all went wrong;
   truncated if the result is; and otherwise as its container did. It carries the number of locations
   named, and an error unless every binary was analysed and nothing was left out.
   */
  lemma HowAStageEnds(stage: StageRow, a: Attempt, selected: Selection, resolved: nat, now: int,
                      redact: string -> string)
    ensures var e := Ended(stage, a, selected, resolved, now, redact);
            && e.id == stage.id && e.runId == stage.runId && e.artifactId == stage.artifactId
            && e.analyzer == stage.analyzer && e.createdAt == stage.createdAt && e.startedAt == stage.startedAt
            && e.finishedAt == Some(now) && e.status == EndStatus(a)
            && e.evidenceCount == (if a.Ran? && a.payload.Some? then resolved else stage.evidenceCount)
            && (a.Ran? ==> e.imageDigest == a.imageDigest)
            && (a.Raised? ==> e.error.Some? && |e.error.value| <= 2000 && e.error.value <= redact(a.message)
                              && (|redact(a.message)| <= 2000 ==> e.error.value == redact(a.message)))
            && (a.Ran? && a.status != Completed ==> e.error == a.error)
            && (a.Ran? && a.status == Completed && a.payload.None? ==> e.error.Some?)
            && (a.Ran? && a.status == Completed && a.payload.Some? ==>
                  (e.error.None? <==>
                     (forall b :: b in a.payload.value.binaries ==> b.status == "analyzed") && selected.notes == []))
  {
    if a.Ran? && a.payload.Some? {
      BinariesByPlace(a.payload.value.binaries);
      NoProblems(a.payload.value.binaries, selected.labels);
    }
    hide Join, Problems, SomeDegraded, NoneAnalyzed, SomeNeither, SomeAnalyzed;
  }

  /** The manifest notes the analyzer's version and image, and keeps the rest. */
  predicate Notes(before: Manifest, after: Manifest, version: string, image: string) {
    && after.toolVersions == before.toolVersions["ghidra" := version]
    && after.imageDigests == before.imageDigests["ghidra" := image]
  }

  /**
   The end of an enrichment writes its own stage, function names, and the run's manifest if there is
   one and a result; runs, roots, findings and every other row stay.
   */
  lemma WhatAnEndingWrites(db: Store, runId: string, stageId: string, selected: Selection, a: Attempt, now: int,
                           redact: string -> string)
    ensures var after := End(db, runId, stageId, selected, a, now, redact);
            && after.runs == db.runs && after.roots == db.roots && after.findings == db.findings
            && |after.stages| == |db.stages|
            && (forall i :: && 0 <= i < |db.stages|
                            && (db.stages[i].id != stageId || db.stages[i].analyzer != "ghidra") ==>
                  after.stages[i] == db.stages[i])
            && (!a.Ran? || a.payload.None? ==> after.locations == db.locations && after.manifests == db.manifests)
            && (a.Ran? && a.payload.Some? ==>
                  var result, image := a.payload.value, if a.imageDigest.Some? && a.imageDigest.value != ""
                                                        then a.imageDigest.value else "unknown";
                  && after.locations == ResolveAll(db.locations, runId, Wanted(result, selected.targets, redact))
                  && (runId !in db.manifests ==> after.manifests == db.manifests)
                  && (runId in db.manifests ==>
                        && runId in after.manifests && after.manifests - {runId} == db.manifests - {runId}
                        && Notes(db.manifests[runId], after.manifests[runId], result.version, image)))
  {
    NothingResolves(db.locations, runId);
    hide Ended, Wanted, ResolvedCount, Resolve;
  }

  // ----- what an ending says

  /** A binary's line in the error: its label, its status and the reason it gives, if any. */
  predicate IsProblem(text: string, b: Binary, labels: map<string, string>) {
    var name := if b.path in labels then labels[b.path] else b.path;
    if b.reason == None || b.reason == Some("") then text == name + ": " + b.status
    else text == name + ": " + b.status + " (" + b.reason.value + ")"
  }

  /** The error has one line, in order, for each binary that was not analysed. */
  lemma {:induction false} ProblemsMeaning(binaries: seq<Binary>, labels: map<string, string>) returns (at: seq<nat>)
    ensures Increasing(at) && |at| == |Problems(binaries, labels)|
    ensures forall i: nat :: i in at <==> i < |binaries| && binaries[i].status != "analyzed"
    ensures forall k :: 0 <= k < |at| ==>
              at[k] < |binaries| && IsProblem(Problems(binaries, labels)[k], binaries[at[k]], labels)
  {
    at := [];
    if binaries != [] {
      var n := |binaries| - 1;
      at := ProblemsMeaning(binaries[..n], labels);
      assert forall k :: 0 <= k < |at| ==> at[k] in at;
      LastProblem(binaries, labels);
      hide Problems, IsProblem;
      if binaries[n].status != "analyzed" {
        at := at + [n];
      }
    }
  }

  lemma LastProblem(binaries: seq<Binary>, labels: map<string, string>)
    requires binaries != []
    ensures var n := |binaries| - 1;
            var before, all := Problems(binaries[..n], labels), Problems(binaries, labels);
            && before <= all
            && (binaries[n].status == "analyzed" ==> all == before)
            && (binaries[n].status != "analyzed" ==>
                  |all| == |before| + 1 && IsProblem(all[|before|], binaries[n], labels))
  {
  }

  /** Joined, the lines stand in their order, two characters apart. */
  lemma {:induction false} JoinCons(parts: seq<string>)
    requires |parts| >= 2
    ensures Join(parts) == parts[0] + "; " + Join(parts[1..])
  {
    var n := |parts| - 1;
    if n > 1 {
      JoinCons(parts[..n]);
      assert parts[..n][0] == parts[0] && parts[..n][1..] == parts[1..][..n - 1];
      ThreeParts(parts[0] + "; ", Join(parts[1..][..n - 1]), "; ", parts[n]);
    } else {
      assert parts[..1] == [parts[0]] && parts[1..] == [parts[1]];
    }
  }

  lemma ThreeParts(a: string, b: string, c: string, d: string)
    ensures a + b + c + d == a + (b + c + d)
  {
  }

  /** The error of a stage that ended with a result: the problems and the notes, cut to 2000 characters. */
  lemma WhatTheErrorSays(stage: StageRow, a: Attempt, selected: Selection, resolved: nat, now: int,
                         redact: string -> string)
    requires a.Ran? && a.status == Completed && a.payload.Some?
    ensures var e := Ended(stage, a, selected, resolved, now, redact);
            e.error.Some? ==>
              var text := redact(Join(Problems(a.payload.value.binaries, selected.labels) + selected.notes));
              && e.error.value <= text && |e.error.value| <= 2000
              && (|text| <= 2000 ==> e.error.value == text)
  {
    hide Join, Problems, SomeDegraded, NoneAnalyzed;
  }

  // ----- the cleanup

  /** A Ghidra stage that is still open although its time is up. */
  predicate TimedOutOpen(s: StageRow, now: int, timeout: int) {
    && s.analyzer == "ghidra" && (s.status == Pending || s.status == Running)
    && now - (if s.startedAt.Some? then s.startedAt.value else s.createdAt) >= timeout
  }

  lemma {:induction false} StaleMembers(stages: seq<StageRow>, now: int, timeout: int, id: string)
    ensures id in StaleIds(stages, now, timeout)
       <==> exists s :: s in stages && TimedOutOpen(s, now, timeout) && s.id == id
  {
    if stages != [] {
      var n := |stages| - 1;
      StaleMembers(stages[..n], now, timeout, id);
      assert stages == stages[..n] + [stages[n]];
    }
  }

  /** The cleanup fails exactly the Ghidra stages whose time is up, names them, and touches nothing else. */
  lemma WhatTheCleanupCloses(db: Store, now: int, timeout: int)
    ensures var after := CloseStale(db, now, timeout);
            && after == db.(stages := after.stages) && |after.stages| == |db.stages|
            && (forall i :: 0 <= i < |db.stages| && !TimedOutOpen(db.stages[i], now, timeout) ==>
                  after.stages[i] == db.stages[i])
            && (forall i :: 0 <= i < |db.stages| && TimedOutOpen(db.stages[i], now, timeout) ==>
                  && after.stages[i].status == Failed && after.stages[i].finishedAt == Some(now)
                  && after.stages[i].error.Some?
                  && after.stages[i].(status := db.stages[i].status, finishedAt := db.stages[i].finishedAt,
                                      error := db.stages[i].error) == db.stages[i])
    ensures forall id :: id in Sort(StaleIds(db.stages, now, timeout), StrLe)
                    <==> exists s :: s in db.stages && TimedOutOpen(s, now, timeout) && s.id == id
    ensures Sorted(Sort(StaleIds(db.stages, now, timeout), StrLe), StrLe)
  {
    var ids := StaleIds(db.stages, now, timeout);
    StringOrder();
    SortSorted(ids, StrLe);
    SortElements(ids, StrLe);
    hide Sort, StrLe, StaleIds, Preorder, Sorted;
    forall id
      ensures id in ids <==> exists s :: s in db.stages && TimedOutOpen(s, now, timeout) && s.id == id
    {
      StaleMembers(db.stages, now, timeout, id);
    }
  }
}
