/**
 The release gate: findings and a policy in, a decision out
 (core/policy/engine.py, core/policy/model.py, core/policy/policy.py).
 */
module Policy {
  import opened Options
  import opened Order
  import opened Vocab

  datatype FindingStatus = Open | Confirmed | FalsePositive | AcceptedRisk | Fixed | NeedsReview

  datatype GateFinding = GateFinding(
    id: string, ruleId: string, category: string, title: string, severity: Severity, status: FindingStatus,
    isNew: bool, llmDismissed: bool, artifactPath: string, valueMasked: string)

  /** Dates are day numbers. */
  datatype Waiver = Waiver(findingId: string, reason: string, owner: string, expires: int)

  datatype Budgets = Budgets(critical: int, high: int, medium: int, low: int, info: int)

  const UNLIMITED := -1

  function LimitFor(b: Budgets, s: Severity): int {
    match s
    case Critical => b.critical
    case High => b.high
    case Medium => b.medium
    case Low => b.low
    case Info => b.info
  }

  datatype BaselineMode = NewOnly | All
  datatype DegradedPosture = FailClosed | Warn | LetPass

  datatype GatePolicy = GatePolicy(
    name: string, blockAtOrAbove: Option<Severity>, blockCategories: set<string>, blockRules: set<string>,
    budgets: Budgets, baselineMode: BaselineMode, onDegraded: DegradedPosture, trustLlmDismissals: bool,
    maxWaiverDays: int)

  predicate Blocks(p: GatePolicy, s: Severity) {
    p.blockAtOrAbove.Some? && Rank(s) <= Rank(p.blockAtOrAbove.value)
  }

  datatype Decision = Pass | Blocked | Inconclusive

  /** Why a finding blocks. */
  datatype Reason = BlockedRule | BlockedCategory | SeverityFloor

  datatype Violation =
    | FindingBlocks(reason: Reason, finding: GateFinding)
    | ExpiredWaiver(waiver: Waiver, finding: GateFinding)
    | BudgetExceeded(severity: Severity, count: nat, limit: int)
    | DegradedScan(stages: seq<string>)

  datatype WaivedFinding = WaivedFinding(findingId: string, title: string, severity: Severity, waiver: Waiver)

  datatype Warning = ScanIncomplete(stages: seq<string>) | WaiverTooLong(findingId: string, expires: int)

  datatype Verdict = Verdict(
    decision: Decision, policyName: string, violations: seq<Violation>, waived: seq<WaivedFinding>,
    inherited: seq<GateFinding>, stages: seq<string>, counts: map<Severity, nat>, newCounts: map<Severity, nat>,
    total: nat, warnings: seq<Warning>)

  // ----- one finding

  predicate IsOpen(f: GateFinding) {
    f.status != FalsePositive && f.status != AcceptedRisk && f.status != Fixed
  }

  predicate IsActionable(f: GateFinding, p: GatePolicy) {
    IsOpen(f) || (f.llmDismissed && !p.trustLlmDismissals)
  }

  function BlockingReason(f: GateFinding, p: GatePolicy): Option<Reason> {
    if f.ruleId in p.blockRules then Some(BlockedRule)
    else if f.category in p.blockCategories then Some(BlockedCategory)
    else if Blocks(p, f.severity) then Some(SeverityFloor)
    else None
  }

  type Waivers = map<string, Waiver>

  predicate IsExpired(w: Waiver, today: int) {
    today > w.expires
  }

  /** The five ways a finding can go, each for its own list. */
  datatype Disposition =
    NotActionable | Inherited | UnderFloor | Waived(waiver: Waiver) | Violating(violation: Violation)

  function Dispose(f: GateFinding, p: GatePolicy, waivers: Waivers, today: int): Disposition {
    if !IsActionable(f, p) then NotActionable
    else if p.baselineMode == NewOnly && !f.isNew then Inherited
    else
      var reason := BlockingReason(f, p);
      if reason.None? then UnderFloor
      else if f.id !in waivers then Violating(FindingBlocks(reason.value, f))
      else if IsExpired(waivers[f.id], today) then Violating(ExpiredWaiver(waivers[f.id], f))
      else Waived(waivers[f.id])
  }

  // ----- all findings, in order

  predicate FindingLe(a: GateFinding, b: GateFinding) {
    Rank(a.severity) < Rank(b.severity) || (Rank(a.severity) == Rank(b.severity) && (
      (a.ruleId != b.ruleId && StrLe(a.ruleId, b.ruleId)) || (a.ruleId == b.ruleId && StrLe(a.id, b.id))))
  }

  function SortFindings(fs: seq<GateFinding>): seq<GateFinding> {
    Sort(fs, FindingLe)
  }

  /** `sorted(set(...))`. */
  function SortStages(stages: seq<string>): seq<string> {
    Sort(FirstOnes(stages), StrLe)
  }

  function FirstOnes(stages: seq<string>): seq<string> {
    if stages == [] then []
    else
      var n := |stages| - 1;
      FirstOnes(stages[..n]) + if stages[n] in stages[..n] then [] else [stages[n]]
  }

  /** `{w.finding_id: w for w in waivers}`: the last waiver of a finding wins. */
  function Index(waivers: seq<Waiver>): Waivers {
    if waivers == [] then map[]
    else
      var w := waivers[|waivers| - 1];
      Index(waivers[..|waivers| - 1])[w.findingId := w]
  }

  datatype Case = Case(policy: GatePolicy, waivers: Waivers, today: int)

  function DisposeIn(c: Case, f: GateFinding): Disposition {
    Dispose(f, c.policy, c.waivers, c.today)
  }

  function ViolationsOf(c: Case, fs: seq<GateFinding>): seq<Violation> {
    if fs == [] then []
    else
      var d := DisposeIn(c, fs[|fs| - 1]);
      ViolationsOf(c, fs[..|fs| - 1]) + if d.Violating? then [d.violation] else []
  }

  function WaivedOf(c: Case, fs: seq<GateFinding>): seq<WaivedFinding> {
    if fs == [] then []
    else
      var f := fs[|fs| - 1];
      var d := DisposeIn(c, f);
      WaivedOf(c, fs[..|fs| - 1])
        + if d.Waived? then [WaivedFinding(f.id, f.title, f.severity, d.waiver)] else []
  }

  function InheritedOf(c: Case, fs: seq<GateFinding>): seq<GateFinding> {
    if fs == [] then []
    else
      var f := fs[|fs| - 1];
      InheritedOf(c, fs[..|fs| - 1]) + if DisposeIn(c, f).Inherited? then [f] else []
  }

  function ConsideredOf(c: Case, fs: seq<GateFinding>): seq<GateFinding> {
    if fs == [] then []
    else
      var f := fs[|fs| - 1];
      ConsideredOf(c, fs[..|fs| - 1]) + if DisposeIn(c, f).UnderFloor? then [f] else []
  }

  function WarningsOf(c: Case, fs: seq<GateFinding>): seq<Warning> {
    if fs == [] then []
    else
      var f := fs[|fs| - 1];
      var d := DisposeIn(c, f);
      WarningsOf(c, fs[..|fs| - 1])
        + if d.Waived? && d.waiver.expires - c.today > c.policy.maxWaiverDays
          then [WaiverTooLong(f.id, d.waiver.expires)] else []
  }

  function Tally(fs: seq<GateFinding>, s: Severity): nat {
    if fs == [] then 0 else Tally(fs[..|fs| - 1], s) + if fs[|fs| - 1].severity == s then 1 else 0
  }

  function Counts(fs: seq<GateFinding>): map<Severity, nat> {
    map s: Severity | Tally(fs, s) > 0 :: Tally(fs, s)
  }

  function NewOnes(fs: seq<GateFinding>): seq<GateFinding> {
    if fs == [] then []
    else NewOnes(fs[..|fs| - 1]) + if fs[|fs| - 1].isNew then [fs[|fs| - 1]] else []
  }

  const BY_RANK := [Critical, High, Medium, Low, Info]

  predicate OverBudget(p: GatePolicy, considered: seq<GateFinding>, s: Severity) {
    var count := Tally(considered, s);
    count > 0 && LimitFor(p.budgets, s) != UNLIMITED && count > LimitFor(p.budgets, s)
  }

  function BudgetViolations(p: GatePolicy, considered: seq<GateFinding>, severities: seq<Severity>): seq<Violation> {
    if severities == [] then []
    else
      var s := severities[|severities| - 1];
      BudgetViolations(p, considered, severities[..|severities| - 1])
        + if OverBudget(p, considered, s)
          then [BudgetExceeded(s, Tally(considered, s), LimitFor(p.budgets, s))] else []
  }

  function Decide(violations: seq<Violation>, stages: seq<string>, p: GatePolicy): Decision {
    if violations != [] && forall i :: 0 <= i < |violations| ==> violations[i].DegradedScan? then Inconclusive
    else if violations != [] then Blocked
    else if stages != [] && p.onDegraded == Warn then Inconclusive
    else Pass
  }

  function DegradedViolations(p: GatePolicy, stages: seq<string>): seq<Violation> {
    if stages != [] && p.onDegraded == FailClosed then [DegradedScan(stages)] else []
  }

  /** `evaluate`. */
  function Evaluation(findings: seq<GateFinding>, p: GatePolicy, waivers: seq<Waiver>, degraded: seq<string>,
        today: int): Verdict {
    var all, stages := SortFindings(findings), SortStages(degraded);
    var c := Case(p, Index(waivers), today);
    var violations := DegradedViolations(p, stages) + ViolationsOf(c, all)
                      + BudgetViolations(p, ConsideredOf(c, all), BY_RANK);
    Verdict(Decide(violations, stages, p), p.name, violations, WaivedOf(c, all), InheritedOf(c, all), stages,
            Counts(all), Counts(NewOnes(all)), |all|,
            (if stages != [] && p.onDegraded == Warn then [ScanIncomplete(stages)] else []) + WarningsOf(c, all))
  }

  // ----- the code

  method CountBySeverity(fs: seq<GateFinding>) returns (counts: map<Severity, nat>)
    ensures counts == Counts(fs)
  {
    counts := map[];
    for i := 0 to |fs|
      invariant counts == Counts(fs[..i])
    {
      assert fs[..i + 1][..i] == fs[..i];
      var s := fs[i].severity;
      counts := counts[s := (if s in counts then counts[s] else 0) + 1];
    }
    assert fs[..|fs|] == fs;
  }

  method CheckBudgets(considered: seq<GateFinding>, p: GatePolicy) returns (violations: seq<Violation>)
    ensures violations == BudgetViolations(p, considered, BY_RANK)
  {
    var counts := CountBySeverity(considered);
    violations := [];
    for i := 0 to |BY_RANK|
      invariant violations == BudgetViolations(p, considered, BY_RANK[..i])
    {
      assert BY_RANK[..i + 1][..i] == BY_RANK[..i];
      var s := BY_RANK[i];
      if s in counts {
        var limit := LimitFor(p.budgets, s);
        if limit == UNLIMITED {
          continue;
        }
        if counts[s] > limit {
          violations := violations + [BudgetExceeded(s, counts[s], limit)];
        }
      }
    }
    assert BY_RANK[..|BY_RANK|] == BY_RANK;
  }

  method BuildIndex(waivers: seq<Waiver>) returns (index: Waivers)
    ensures index == Index(waivers)
  {
    index := map[];
    for i := 0 to |waivers|
      invariant index == Index(waivers[..i])
    {
      assert waivers[..i + 1][..i] == waivers[..i];
      index := index[waivers[i].findingId := waivers[i]];
    }
    assert waivers[..|waivers|] == waivers;
  }

  lemma CountsSnoc(fs: seq<GateFinding>, f: GateFinding)
    ensures var s := f.severity;
            Counts(fs + [f]) == Counts(fs)[s := (if s in Counts(fs) then Counts(fs)[s] else 0) + 1]
  {
    assert (fs + [f])[..|fs|] == fs;
  }

  lemma NewOnesSnoc(fs: seq<GateFinding>, i: nat)
    requires i < |fs|
    ensures NewOnes(fs[..i + 1]) == if fs[i].isNew then NewOnes(fs[..i]) + [fs[i]] else NewOnes(fs[..i])
  {
    assert fs[..i + 1][..i] == fs[..i];
  }

  method CountAll(fs: seq<GateFinding>) returns (counts: map<Severity, nat>, newCounts: map<Severity, nat>)
    ensures counts == Counts(fs) && newCounts == Counts(NewOnes(fs))
  {
    counts, newCounts := map[], map[];
    for i := 0 to |fs|
      invariant counts == Counts(fs[..i]) && newCounts == Counts(NewOnes(fs[..i]))
    {
      assert fs[..i + 1] == fs[..i] + [fs[i]] && fs[..i + 1][..i] == fs[..i];
      NewOnesSnoc(fs, i);
      hide Counts, NewOnes;
      CountsSnoc(fs[..i], fs[i]);
      CountsSnoc(NewOnes(fs[..i]), fs[i]);
      var s := fs[i].severity;
      counts := counts[s := (if s in counts then counts[s] else 0) + 1];
      if fs[i].isNew {
        newCounts := newCounts[s := (if s in newCounts then newCounts[s] else 0) + 1];
      }
    }
    assert fs[..|fs|] == fs;
  }

  /** Each finding extends exactly the lists of its disposition. */
  lemma OneMore(c: Case, fs: seq<GateFinding>, i: nat)
    requires i < |fs|
    ensures var f := fs[i];
            var d := DisposeIn(c, f);
            && ViolationsOf(c, fs[..i + 1]) == ViolationsOf(c, fs[..i]) + (if d.Violating? then [d.violation] else [])
            && WaivedOf(c, fs[..i + 1]) == WaivedOf(c, fs[..i])
                 + (if d.Waived? then [WaivedFinding(f.id, f.title, f.severity, d.waiver)] else [])
            && InheritedOf(c, fs[..i + 1]) == InheritedOf(c, fs[..i]) + (if d.Inherited? then [f] else [])
            && ConsideredOf(c, fs[..i + 1]) == ConsideredOf(c, fs[..i]) + (if d.UnderFloor? then [f] else [])
            && WarningsOf(c, fs[..i + 1]) == WarningsOf(c, fs[..i])
                 + (if d.Waived? && d.waiver.expires - c.today > c.policy.maxWaiverDays
                    then [WaiverTooLong(f.id, d.waiver.expires)] else [])
  {
    hide Dispose;
    assert fs[..i + 1][..i] == fs[..i];
  }

  /** The per-finding part of `evaluate`. */
  method DisposeAll(all: seq<GateFinding>, p: GatePolicy, index: Waivers, today: int)
      returns (violations: seq<Violation>, waived: seq<WaivedFinding>, inherited: seq<GateFinding>,
               considered: seq<GateFinding>, warnings: seq<Warning>)
    ensures var c := Case(p, index, today);
            && violations == ViolationsOf(c, all) && waived == WaivedOf(c, all) && inherited == InheritedOf(c, all)
            && considered == ConsideredOf(c, all) && warnings == WarningsOf(c, all)
  {
    ghost var c := Case(p, index, today);
    violations, waived, inherited, considered, warnings := [], [], [], [], [];
    assert all[..0] == [];
    assert ViolationsOf(c, []) == [] && WaivedOf(c, []) == [] && InheritedOf(c, []) == []
        && ConsideredOf(c, []) == [] && WarningsOf(c, []) == [];
    hide ViolationsOf, WaivedOf, InheritedOf, ConsideredOf, WarningsOf;
    for i := 0 to |all|
      invariant violations == ViolationsOf(c, all[..i])
      invariant warnings == WarningsOf(c, all[..i])
      invariant waived == WaivedOf(c, all[..i])
      invariant inherited == InheritedOf(c, all[..i])
      invariant considered == ConsideredOf(c, all[..i])
    {
      OneMore(c, all, i);
      var f := all[i];
      if !IsActionable(f, p) {
        continue;
      }
      if p.baselineMode == NewOnly && !f.isNew {
        inherited := inherited + [f];
        continue;
      }
      var reason := BlockingReason(f, p);
      if reason.None? {
        considered := considered + [f];
        continue;
      }
      if f.id !in index {
        violations := violations + [FindingBlocks(reason.value, f)];
        continue;
      }
      var waiver := index[f.id];
      if IsExpired(waiver, today) {
        violations := violations + [ExpiredWaiver(waiver, f)];
        continue;
      }
      if waiver.expires - today > p.maxWaiverDays {
        warnings := warnings + [WaiverTooLong(f.id, waiver.expires)];
      }
      waived := waived + [WaivedFinding(f.id, f.title, f.severity, waiver)];
    }
    assert all[..|all|] == all;
  }

  /** `evaluate`, loop by loop. */
  method Evaluate(findings: seq<GateFinding>, p: GatePolicy, waivers: seq<Waiver>, degraded: seq<string>, today: int)
      returns (verdict: Verdict)
    ensures verdict == Evaluation(findings, p, waivers, degraded, today)
  {
    var all, stages := SortFindings(findings), SortStages(degraded);
    var index := BuildIndex(waivers);
    var counts, newCounts := CountAll(all);
    var violations: seq<Violation>, warnings: seq<Warning> := [], [];
    if stages != [] && p.onDegraded == FailClosed {
      violations := [DegradedScan(stages)];
    } else if stages != [] && p.onDegraded == Warn {
      warnings := [ScanIncomplete(stages)];
    }
    hide SortStages, Index, Counts, NewOnes, Decide;
    var found, waived, inherited, considered, notes := DisposeAll(all, p, index, today);
    var over := CheckBudgets(considered, p);
    violations, warnings := violations + found + over, warnings + notes;
    verdict := Verdict(Decide(violations, stages, p), p.name, violations, waived, inherited, stages, counts,
                       newCounts, |all|, warnings);
  }

  // ----- the partition

  /** Findings the gate does not consider at all. */
  function ClosedOf(c: Case, fs: seq<GateFinding>): seq<GateFinding> {
    if fs == [] then []
    else
      var f := fs[|fs| - 1];
      ClosedOf(c, fs[..|fs| - 1]) + if DisposeIn(c, f).NotActionable? then [f] else []
  }

  /** The findings behind the waived list. */
  function WaivedSources(c: Case, fs: seq<GateFinding>): seq<GateFinding> {
    if fs == [] then []
    else
      var f := fs[|fs| - 1];
      WaivedSources(c, fs[..|fs| - 1]) + if DisposeIn(c, f).Waived? then [f] else []
  }

  /** The findings behind the per-finding violations. */
  function ViolatingSources(c: Case, fs: seq<GateFinding>): seq<GateFinding> {
    if fs == [] then []
    else
      var f := fs[|fs| - 1];
      ViolatingSources(c, fs[..|fs| - 1]) + if Violates(c, f) then [f] else []
  }

  lemma {:induction false} WaivedBySource(c: Case, fs: seq<GateFinding>)
    ensures |WaivedOf(c, fs)| == |WaivedSources(c, fs)|
    ensures forall i :: 0 <= i < |WaivedOf(c, fs)| ==> ShowsWaiver(c, WaivedSources(c, fs)[i], WaivedOf(c, fs)[i])
  {
    hide Dispose;
    if fs != [] {
      WaivedBySource(c, fs[..|fs| - 1]);
    }
  }

  /** `w` is what the waived list shows of `f`. */
  predicate ShowsWaiver(c: Case, f: GateFinding, w: WaivedFinding) {
    DisposeIn(c, f) == Waived(w.waiver) && w == WaivedFinding(f.id, f.title, f.severity, w.waiver)
  }

  lemma {:induction false} ViolationsBySource(c: Case, fs: seq<GateFinding>)
    ensures |ViolationsOf(c, fs)| == |ViolatingSources(c, fs)|
    ensures forall i :: 0 <= i < |ViolationsOf(c, fs)| ==>
              DisposeIn(c, ViolatingSources(c, fs)[i]) == Violating(ViolationsOf(c, fs)[i])
  {
    hide Dispose;
    if fs != [] {
      ViolationsBySource(c, fs[..|fs| - 1]);
    }
  }

  /** Every occurrence of a finding goes into exactly one of the five lists. */
  ghost predicate Partitioned(c: Case, fs: seq<GateFinding>) {
    multiset(ClosedOf(c, fs)) + multiset(InheritedOf(c, fs)) + multiset(ConsideredOf(c, fs))
    + multiset(WaivedSources(c, fs)) + multiset(ViolatingSources(c, fs)) == multiset(fs)
  }

  lemma {:induction false} SourcesPartition(c: Case, fs: seq<GateFinding>)
    ensures Partitioned(c, fs)
  {
    hide *;
    if fs == [] {
      NothingPartitioned(c);
    } else {
      var init, f := fs[..|fs| - 1], fs[|fs| - 1];
      SourcesPartition(c, init);
      SourcesGrow(c, init, f);
      assert fs == init + [f];
    }
  }

  lemma NothingPartitioned(c: Case)
    ensures Partitioned(c, [])
  {
  }

  lemma SourcesGrow(c: Case, fs: seq<GateFinding>, f: GateFinding)
    requires Partitioned(c, fs)
    ensures Partitioned(c, fs + [f])
  {
    hide ClosedOf, InheritedOf, ConsideredOf, WaivedSources, ViolatingSources, Once, DisposeIn;
    SourcesSnoc(c, fs, f);
    Disposed(c, f);
    var d := DisposeIn(c, f);
    Regroup(multiset(ClosedOf(c, fs)), multiset(InheritedOf(c, fs)), multiset(ConsideredOf(c, fs)),
            multiset(WaivedSources(c, fs)), multiset(ViolatingSources(c, fs)), Once(d.NotActionable?, f),
            Once(d.Inherited?, f), Once(d.UnderFloor?, f), Once(d.Waived?, f), Once(d.Violating?, f));
  }

  lemma Regroup<T>(
      a: multiset<T>, b: multiset<T>, c: multiset<T>, d: multiset<T>, e: multiset<T>,
      a1: multiset<T>, b1: multiset<T>, c1: multiset<T>, d1: multiset<T>, e1: multiset<T>)
    ensures (a + a1) + (b + b1) + (c + c1) + (d + d1) + (e + e1) == (a + b + c + d + e) + (a1 + b1 + c1 + d1 + e1)
  {
  }

  function Once(take: bool, f: GateFinding): multiset<GateFinding> {
    if take then multiset{f} else multiset{}
  }

  lemma SourcesSnoc(c: Case, fs: seq<GateFinding>, f: GateFinding)
    ensures var d, more := DisposeIn(c, f), fs + [f];
            && multiset(ClosedOf(c, more)) == multiset(ClosedOf(c, fs)) + Once(d.NotActionable?, f)
            && multiset(InheritedOf(c, more)) == multiset(InheritedOf(c, fs)) + Once(d.Inherited?, f)
            && multiset(ConsideredOf(c, more)) == multiset(ConsideredOf(c, fs)) + Once(d.UnderFloor?, f)
            && multiset(WaivedSources(c, more)) == multiset(WaivedSources(c, fs)) + Once(d.Waived?, f)
            && multiset(ViolatingSources(c, more)) == multiset(ViolatingSources(c, fs)) + Once(d.Violating?, f)
  {
    hide Dispose;
    assert (fs + [f])[..|fs|] == fs;
  }

  /** Exactly one disposition applies. */
  lemma Disposed(c: Case, f: GateFinding)
    ensures var d := DisposeIn(c, f);
            Once(d.NotActionable?, f) + Once(d.Inherited?, f) + Once(d.UnderFloor?, f) + Once(d.Waived?, f)
            + Once(d.Violating?, f) == multiset{f}
  {
    hide Dispose;
  }

  /**
   The five lists split the findings: occurrence by occurrence, every finding is on exactly one of
   them, the one of its own disposition, and the waived and violating entries show their findings.
   */
  lemma ListsPartitionFindings(c: Case, fs: seq<GateFinding>)
    ensures Partitioned(c, fs)
    ensures forall f :: f in ClosedOf(c, fs) <==> f in fs && DisposeIn(c, f) == NotActionable
    ensures forall f :: f in InheritedOf(c, fs) <==> f in fs && DisposeIn(c, f) == Inherited
    ensures forall f :: f in ConsideredOf(c, fs) <==> f in fs && DisposeIn(c, f) == UnderFloor
    ensures |WaivedOf(c, fs)| == |WaivedSources(c, fs)| && |ViolationsOf(c, fs)| == |ViolatingSources(c, fs)|
    ensures forall i :: 0 <= i < |WaivedOf(c, fs)| ==> ShowsWaiver(c, WaivedSources(c, fs)[i], WaivedOf(c, fs)[i])
    ensures forall i :: 0 <= i < |ViolationsOf(c, fs)| ==>
              DisposeIn(c, ViolatingSources(c, fs)[i]) == Violating(ViolationsOf(c, fs)[i])
  {
    hide *;
    SourcesPartition(c, fs);
    WaivedBySource(c, fs);
    ViolationsBySource(c, fs);
    forall f
      ensures f in ClosedOf(c, fs) <==> f in fs && DisposeIn(c, f) == NotActionable
      ensures f in InheritedOf(c, fs) <==> f in fs && DisposeIn(c, f) == Inherited
      ensures f in ConsideredOf(c, fs) <==> f in fs && DisposeIn(c, f) == UnderFloor
    {
      ClosedMembers(c, fs, f);
      InheritedMembers(c, fs, f);
      ConsideredMembers(c, fs, f);
    }
  }

  lemma {:induction false} ClosedMembers(c: Case, fs: seq<GateFinding>, f: GateFinding)
    ensures f in ClosedOf(c, fs) <==> f in fs && DisposeIn(c, f) == NotActionable
  {
    hide Dispose;
    if fs != [] {
      var n := |fs| - 1;
      ClosedMembers(c, fs[..n], f);
      assert fs == fs[..n] + [fs[n]];
    }
  }

  lemma {:induction false} ViolationMembers(c: Case, fs: seq<GateFinding>, v: Violation)
    ensures v in ViolationsOf(c, fs) <==> exists f :: f in fs && DisposeIn(c, f) == Violating(v)
  {
    hide Dispose;
    if fs != [] {
      var n := |fs| - 1;
      ViolationMembers(c, fs[..n], v);
      assert fs == fs[..n] + [fs[n]];
    }
  }

  lemma {:induction false} InheritedMembers(c: Case, fs: seq<GateFinding>, f: GateFinding)
    ensures f in InheritedOf(c, fs) <==> f in fs && DisposeIn(c, f) == Inherited
  {
    hide Dispose;
    if fs != [] {
      var n := |fs| - 1;
      InheritedMembers(c, fs[..n], f);
      assert fs == fs[..n] + [fs[n]];
    }
  }

  lemma {:induction false} ConsideredMembers(c: Case, fs: seq<GateFinding>, f: GateFinding)
    ensures f in ConsideredOf(c, fs) <==> f in fs && DisposeIn(c, f) == UnderFloor
  {
    hide Dispose;
    if fs != [] {
      var n := |fs| - 1;
      ConsideredMembers(c, fs[..n], f);
      assert fs == fs[..n] + [fs[n]];
    }
  }

  // ----- when the gate blocks

  /** Findings of one severity that went under the floor. */
  function UnderFloorCount(c: Case, fs: seq<GateFinding>, s: Severity): nat {
    if fs == [] then 0
    else
      var f := fs[|fs| - 1];
      UnderFloorCount(c, fs[..|fs| - 1], s) + if f.severity == s && DisposeIn(c, f).UnderFloor? then 1 else 0
  }

  predicate Violates(c: Case, f: GateFinding) {
    DisposeIn(c, f).Violating?
  }

  ghost predicate SomeViolate(c: Case, fs: seq<GateFinding>) {
    exists f :: f in fs && Violates(c, f)
  }

  predicate Overspent(c: Case, fs: seq<GateFinding>, s: Severity) {
    var count, limit := UnderFloorCount(c, fs, s), LimitFor(c.policy.budgets, s);
    count > 0 && limit != UNLIMITED && count > limit
  }

  ghost predicate SomeOverspent(c: Case, fs: seq<GateFinding>) {
    exists s :: Overspent(c, fs, s)
  }

  lemma {:induction false} ConsideredTally(c: Case, fs: seq<GateFinding>, s: Severity)
    ensures Tally(ConsideredOf(c, fs), s) == UnderFloorCount(c, fs, s)
  {
    hide Dispose;
    if fs != [] {
      var n := |fs| - 1;
      var before := ConsideredOf(c, fs[..n]);
      ConsideredTally(c, fs[..n], s);
      assert (before + [fs[n]])[..|before|] == before;
      assert before + [] == before;
    }
  }

  lemma {:induction false} BudgetMembers(p: GatePolicy, considered: seq<GateFinding>, severities: seq<Severity>)
    ensures BudgetViolations(p, considered, severities) != []
       <==> exists i :: 0 <= i < |severities| && OverBudget(p, considered, severities[i])
    ensures forall v :: v in BudgetViolations(p, considered, severities) ==> v.BudgetExceeded?
  {
    hide OverBudget;
    if severities != [] {
      var n := |severities| - 1;
      BudgetMembers(p, considered, severities[..n]);
      assert forall i :: 0 <= i < n ==> severities[..n][i] == severities[i];
    }
  }

  lemma EveryRank(s: Severity)
    ensures s in BY_RANK
  {
  }

  lemma AllBudgets(c: Case, fs: seq<GateFinding>)
    ensures BudgetViolations(c.policy, ConsideredOf(c, fs), BY_RANK) != [] <==> SomeOverspent(c, fs)
  {
    hide Tally, UnderFloorCount, ConsideredOf;
    BudgetMembers(c.policy, ConsideredOf(c, fs), BY_RANK);
    forall s
      ensures Overspent(c, fs, s) == OverBudget(c.policy, ConsideredOf(c, fs), s)
    {
      ConsideredTally(c, fs, s);
    }
    if s :| Overspent(c, fs, s) {
      EveryRank(s);
      var i :| 0 <= i < |BY_RANK| && BY_RANK[i] == s;
    }
  }

  lemma ViolationsAreFindings(c: Case, fs: seq<GateFinding>)
    ensures ViolationsOf(c, fs) != [] <==> SomeViolate(c, fs)
    ensures forall v :: v in ViolationsOf(c, fs) ==> v.FindingBlocks? || v.ExpiredWaiver?
  {
    hide ViolationsOf;
    if ViolationsOf(c, fs) != [] {
      var v := ViolationsOf(c, fs)[0];
      ViolationMembers(c, fs, v);
      var f :| f in fs && DisposeIn(c, f) == Violating(v);
      assert Violates(c, f);
    }
    if f :| f in fs && Violates(c, f) {
      ViolationMembers(c, fs, DisposeIn(c, f).violation);
    }
    forall v | v in ViolationsOf(c, fs)
      ensures v.FindingBlocks? || v.ExpiredWaiver?
    {
      ViolationMembers(c, fs, v);
    }
  }

  /** The per-finding and budget parts of a verdict's violations. */
  lemma DecideByParts(p: GatePolicy, stages: seq<string>, found: seq<Violation>, over: seq<Violation>)
    requires forall v :: v in found + over ==> !v.DegradedScan?
    ensures var d := Decide(DegradedViolations(p, stages) + found + over, stages, p);
            && (d == Blocked <==> found + over != [])
            && (d == Pass <==> found + over == [] && (stages == [] || p.onDegraded == LetPass))
  {
    var violations := DegradedViolations(p, stages) + found + over;
    if found + over != [] {
      var v := (found + over)[0];
      assert v in found + over;
      assert violations[|DegradedViolations(p, stages)|] == v;
    }
  }

  lemma SortedDecision(all: seq<GateFinding>, c: Case, stages: seq<string>)
    ensures var d := Decide(DegradedViolations(c.policy, stages) + ViolationsOf(c, all)
                            + BudgetViolations(c.policy, ConsideredOf(c, all), BY_RANK), stages, c.policy);
            && (d == Blocked <==> SomeViolate(c, all) || SomeOverspent(c, all))
            && (d == Pass <==> && !SomeViolate(c, all) && !SomeOverspent(c, all)
                               && (stages == [] || c.policy.onDegraded == LetPass))
  {
    hide SomeViolate, SomeOverspent, ViolationsOf, BudgetViolations, ConsideredOf, Decide, DegradedViolations;
    ViolationsAreFindings(c, all);
    AllBudgets(c, all);
    BudgetMembers(c.policy, ConsideredOf(c, all), BY_RANK);
    DecideByParts(c.policy, stages, ViolationsOf(c, all), BudgetViolations(c.policy, ConsideredOf(c, all), BY_RANK));
  }

  lemma BlockingIgnoresOrder(c: Case, a: seq<GateFinding>, b: seq<GateFinding>)
    requires multiset(a) == multiset(b)
    ensures SomeViolate(c, a) <==> SomeViolate(c, b)
    ensures SomeOverspent(c, a) <==> SomeOverspent(c, b)
  {
    hide Dispose, Overspent;
    SameElements(a, b);
    forall s
      ensures Overspent(c, a, s) == Overspent(c, b, s)
    {
      OverspentIgnoresOrder(c, a, b, s);
    }
  }

  /**
   The gate blocks exactly when some finding violates the policy or some budget is overspent,
   and passes exactly when neither holds and the scan was complete or its posture is to let pass.
   */
  lemma DecisionMeaning(findings: seq<GateFinding>, p: GatePolicy, waivers: seq<Waiver>, degraded: seq<string>,
        today: int)
    ensures var d := Evaluation(findings, p, waivers, degraded, today).decision;
            var c := Case(p, Index(waivers), today);
            && (d == Blocked <==> SomeViolate(c, findings) || SomeOverspent(c, findings))
            && (d == Pass <==> && !SomeViolate(c, findings) && !SomeOverspent(c, findings)
                               && (degraded == [] || p.onDegraded == LetPass))
  {
    hide SomeViolate, SomeOverspent, Sort, SortStages, Index;
    var all, c := SortFindings(findings), Case(p, Index(waivers), today);
    SortedDecision(all, c, SortStages(degraded));
    StagesEmpty(degraded);
    BlockingIgnoresOrder(c, all, findings);
  }

  lemma {:induction false} StagesEmpty(stages: seq<string>)
    ensures SortStages(stages) == [] <==> stages == []
  {
    if stages != [] {
      assert stages[..|stages|] == stages;
      FirstOnesEmpty(stages);
    }
  }

  lemma {:induction false} FirstOnesEmpty(stages: seq<string>)
    requires stages != []
    ensures FirstOnes(stages) != []
  {
    if |stages| > 1 {
      FirstOnesEmpty(stages[..|stages| - 1]);
    }
  }

  // ----- counting does not depend on order

  /** How often `f` occurs is all the count depends on. */
  lemma {:induction false} UnderFloorRemove(c: Case, fs: seq<GateFinding>, i: nat, s: Severity)
    requires i < |fs|
    ensures UnderFloorCount(c, fs, s)
         == UnderFloorCount(c, fs[..i] + fs[i + 1..], s)
            + if fs[i].severity == s && DisposeIn(c, fs[i]).UnderFloor? then 1 else 0
  {
    hide Dispose;
    var n := |fs| - 1;
    var rest := fs[..i] + fs[i + 1..];
    if i == n {
      assert rest == fs[..n];
    } else {
      UnderFloorRemove(c, fs[..n], i, s);
      assert rest[..|rest| - 1] == fs[..n][..i] + fs[..n][i + 1..];
      assert rest[|rest| - 1] == fs[n];
    }
  }

  lemma WithoutOneElement(a: seq<GateFinding>, b: seq<GateFinding>, i: nat)
    requires multiset(a) == multiset(b) && a != [] && i < |b| && b[i] == a[|a| - 1]
    ensures multiset(a[..|a| - 1]) == multiset(b[..i] + b[i + 1..])
  {
    var n := |a| - 1;
    assert a == a[..n] + [a[n]];
    assert b == b[..i] + [b[i]] + b[i + 1..];
    assert multiset(a[..n]) == multiset(a) - multiset{a[n]};
    assert multiset(b[..i] + b[i + 1..]) == multiset(b) - multiset{b[i]};
  }

  lemma {:induction false} CountIgnoresOrder(c: Case, a: seq<GateFinding>, b: seq<GateFinding>, s: Severity)
    requires multiset(a) == multiset(b)
    ensures UnderFloorCount(c, a, s) == UnderFloorCount(c, b, s)
    decreases |a|
  {
    hide Dispose, UnderFloorCount;
    SameElements(a, b);
    if a != [] {
      var n := |a| - 1;
      assert a[n] in b;
      var i :| 0 <= i < |b| && b[i] == a[n];
      var rest := b[..i] + b[i + 1..];
      UnderFloorRemove(c, a, n, s);
      UnderFloorRemove(c, b, i, s);
      assert a[..n] + a[n + 1..] == a[..n];
      WithoutOneElement(a, b, i);
      CountIgnoresOrder(c, a[..n], rest, s);
    } else {
      assert b == [];
    }
  }

  lemma OverspentIgnoresOrder(c: Case, a: seq<GateFinding>, b: seq<GateFinding>, s: Severity)
    requires multiset(a) == multiset(b)
    ensures Overspent(c, a, s) == Overspent(c, b, s)
  {
    CountIgnoresOrder(c, a, b, s);
  }

  // ----- order independence

  lemma FindingOrder()
    ensures Preorder(FindingLe)
  {
    forall x, y
      ensures FindingLe(x, y) || FindingLe(y, x)
    {
      StrTotal(x.ruleId, y.ruleId);
      StrTotal(x.id, y.id);
    }
    forall x, y, z | FindingLe(x, y) && FindingLe(y, z)
      ensures FindingLe(x, z)
    {
      FindingTransitive(x, y, z);
    }
  }

  lemma FindingTransitive(x: GateFinding, y: GateFinding, z: GateFinding)
    requires FindingLe(x, y) && FindingLe(y, z)
    ensures FindingLe(x, z)
  {
    hide StrLe;
    if StrLe(x.ruleId, y.ruleId) && StrLe(y.ruleId, z.ruleId) {
      StrTransitive(x.ruleId, y.ruleId, z.ruleId);
      StrTotal(x.ruleId, y.ruleId);
      StrTotal(y.ruleId, z.ruleId);
    }
    if StrLe(x.id, y.id) && StrLe(y.id, z.id) {
      StrTransitive(x.id, y.id, z.id);
    }
  }

  predicate DistinctFindings(fs: seq<GateFinding>) {
    forall i, j :: 0 <= i < j < |fs| ==> fs[i].id != fs[j].id
  }

  lemma DistinctIsDistinguished(fs: seq<GateFinding>)
    requires DistinctFindings(fs)
    ensures Distinguished(fs, FindingLe)
  {
    forall x, y | x in fs && y in fs && FindingLe(x, y) && FindingLe(y, x)
      ensures x == y
    {
      StrTotal(x.ruleId, y.ruleId);
      StrTotal(x.id, y.id);
      var i :| 0 <= i < |fs| && fs[i] == x;
      var j :| 0 <= j < |fs| && fs[j] == y;
    }
  }

  predicate DistinctWaivers(ws: seq<Waiver>) {
    forall i, j :: 0 <= i < j < |ws| ==> ws[i].findingId != ws[j].findingId
  }

  lemma {:induction false} IndexMembers(ws: seq<Waiver>)
    ensures forall id :: id in Index(ws) ==> Index(ws)[id] in ws && Index(ws)[id].findingId == id
    ensures forall w :: w in ws ==> w.findingId in Index(ws)
    ensures DistinctWaivers(ws) ==> forall w :: w in ws ==> Index(ws)[w.findingId] == w
  {
    if ws != [] {
      var n := |ws| - 1;
      IndexMembers(ws[..n]);
      assert ws == ws[..n] + [ws[n]];
    }
  }

  lemma IndexIgnoresOrder(a: seq<Waiver>, b: seq<Waiver>)
    requires multiset(a) == multiset(b) && DistinctWaivers(a) && DistinctWaivers(b)
    ensures Index(a) == Index(b)
  {
    SameElements(a, b);
    IndexMembers(a);
    IndexMembers(b);
    assert Index(a).Keys == Index(b).Keys;
  }

  lemma {:induction false} FirstOnesMembers(stages: seq<string>)
    ensures forall x :: x in FirstOnes(stages) <==> x in stages
    ensures NoDuplicates(FirstOnes(stages))
  {
    if stages != [] {
      var n := |stages| - 1;
      FirstOnesMembers(stages[..n]);
      assert stages == stages[..n] + [stages[n]];
    }
  }

  lemma {:induction false} SameMembersSameMultiset(a: seq<string>, b: seq<string>)
    requires NoDuplicates(a) && NoDuplicates(b) && forall x :: x in a <==> x in b
    ensures multiset(a) == multiset(b)
  {
    CountsOfDistinct(a);
    CountsOfDistinct(b);
    forall x
      ensures multiset(a)[x] == multiset(b)[x]
    {
      assert x in multiset(a) <==> x in a;
      assert x in multiset(b) <==> x in b;
    }
  }

  lemma StagesIgnoreOrder(a: seq<string>, b: seq<string>)
    requires forall x :: x in a <==> x in b
    ensures SortStages(a) == SortStages(b)
  {
    FirstOnesMembers(a);
    FirstOnesMembers(b);
    SameMembersSameMultiset(FirstOnes(a), FirstOnes(b));
    StringOrder();
    forall x, y | StrLe(x, y) && StrLe(y, x)
      ensures x == y
    {
      StrTotal(x, y);
    }
    SortIgnoresOrder(FirstOnes(a), FirstOnes(b), StrLe);
  }

  /**
   The whole verdict, not only its decision, is independent of the order of findings, waivers and
   stages, and of how often a stage is named.
   */
  lemma VerdictIgnoresOrder(
      fa: seq<GateFinding>, fb: seq<GateFinding>, wa: seq<Waiver>, wb: seq<Waiver>, sa: seq<string>, sb: seq<string>,
      p: GatePolicy, today: int)
    requires multiset(fa) == multiset(fb) && DistinctFindings(fa)
    requires multiset(wa) == multiset(wb) && DistinctWaivers(wa) && DistinctWaivers(wb)
    requires forall x :: x in sa <==> x in sb
    ensures Evaluation(fa, p, wa, sa, today) == Evaluation(fb, p, wb, sb, today)
  {
    hide FindingLe, Index, SortStages, Sort, Distinguished, DistinctFindings, DistinctWaivers;
    FindingOrder();
    DistinctIsDistinguished(fa);
    SortIgnoresOrder(fa, fb, FindingLe);
    IndexIgnoresOrder(wa, wb);
    StagesIgnoreOrder(sa, sb);
  }

  // ----- monotonicity

  /** A degraded scan passes only under the posture that says so. */
  lemma DegradedNeverPasses(findings: seq<GateFinding>, p: GatePolicy, waivers: seq<Waiver>, degraded: seq<string>,
        today: int)
    requires degraded != [] && p.onDegraded != LetPass
    ensures Evaluation(findings, p, waivers, degraded, today).decision != Pass
  {
    DecisionMeaning(findings, p, waivers, degraded, today);
  }

  /** What `b` must keep of `a` for a block to stay a block. */
  lemma BlockCarriesOver(a: Case, fa: seq<GateFinding>, b: Case, fb: seq<GateFinding>)
    requires SomeViolate(a, fa) || SomeOverspent(a, fa)
    requires forall f :: f in fa ==> f in fb
    requires forall f :: f in fa && Violates(a, f) ==> Violates(b, f)
    requires SomeViolate(b, fb) || forall s :: Overspent(a, fa, s) ==> Overspent(b, fb, s)
    ensures SomeViolate(b, fb) || SomeOverspent(b, fb)
  {
  }

  lemma {:induction false} CountWithOneMore(c: Case, fs: seq<GateFinding>, f: GateFinding, s: Severity)
    ensures UnderFloorCount(c, fs + [f], s) >= UnderFloorCount(c, fs, s)
  {
    assert (fs + [f])[..|fs|] == fs;
  }

  /** One more finding never unblocks a release. */
  lemma AddingAFindingKeepsBlocked(
      findings: seq<GateFinding>, f: GateFinding, p: GatePolicy, waivers: seq<Waiver>, degraded: seq<string>,
      today: int)
    requires Evaluation(findings, p, waivers, degraded, today).decision == Blocked
    ensures Evaluation(findings + [f], p, waivers, degraded, today).decision == Blocked
  {
    DecisionMeaning(findings, p, waivers, degraded, today);
    DecisionMeaning(findings + [f], p, waivers, degraded, today);
    hide Evaluation, Dispose, UnderFloorCount;
    var c := Case(p, Index(waivers), today);
    forall s | Overspent(c, findings, s)
      ensures Overspent(c, findings + [f], s)
    {
      CountWithOneMore(c, findings, f, s);
    }
    BlockCarriesOver(c, findings, c, findings + [f]);
  }

  lemma {:induction false} SameUnderFloor(a: Case, b: Case, fs: seq<GateFinding>, s: Severity)
    requires forall f :: f in fs ==> (DisposeIn(a, f).UnderFloor? ==> DisposeIn(b, f).UnderFloor?)
    ensures UnderFloorCount(a, fs, s) <= UnderFloorCount(b, fs, s)
  {
    hide Dispose;
    if fs != [] {
      SameUnderFloor(a, b, fs[..|fs| - 1], s);
    }
  }

  // ----- taking a waiver away

  function Without(waivers: seq<Waiver>, i: nat): seq<Waiver>
    requires i < |waivers|
  {
    waivers[..i] + waivers[i + 1..]
  }

  predicate Names(waivers: seq<Waiver>, id: string) {
    exists k :: 0 <= k < |waivers| && waivers[k].findingId == id
  }

  /** The last waiver of its finding, and the one before it for that finding, at `j`, expires later. */
  predicate RevealsAt(waivers: seq<Waiver>, i: nat, j: nat)
    requires i < |waivers|
  {
    && j < i && waivers[j].findingId == waivers[i].findingId
    && !Names(waivers[i + 1..], waivers[i].findingId) && !Names(waivers[j + 1..i], waivers[i].findingId)
    && waivers[j].expires > waivers[i].expires
  }

  ghost predicate Reveals(waivers: seq<Waiver>, i: nat)
    requires i < |waivers|
  {
    exists j: nat :: RevealsAt(waivers, i, j)
  }

  lemma {:induction false} IndexConcat(a: seq<Waiver>, b: seq<Waiver>)
    ensures Index(a + b) == Index(a) + Index(b)
  {
    if b == [] {
      assert a + b == a;
    } else {
      var n := |b| - 1;
      IndexConcat(a, b[..n]);
      assert (a + b)[..|a + b| - 1] == a + b[..n];
    }
  }

  lemma {:induction false} IndexNames(ws: seq<Waiver>, id: string)
    ensures id in Index(ws) <==> Names(ws, id)
  {
    IndexMembers(ws);
    hide Index;
    if Names(ws, id) {
      var k :| 0 <= k < |ws| && ws[k].findingId == id;
      assert ws[k] in ws;
    }
  }

  lemma IndexSnoc(ws: seq<Waiver>, w: Waiver)
    ensures Index(ws + [w]) == Index(ws)[w.findingId := w]
  {
    assert (ws + [w])[..|ws|] == ws;
  }

  lemma LastCountsBetween(init: seq<Waiver>, w: Waiver, rest: seq<Waiver>)
    requires !Names(rest, w.findingId)
    ensures var index := Index(init + [w] + rest);
            w.findingId in index && index[w.findingId] == w
  {
    hide *;
    IndexConcat(init + [w], rest);
    IndexSnoc(init, w);
    IndexNames(rest, w.findingId);
  }

  /** The waiver that counts is the last one. */
  lemma LastCounts(ws: seq<Waiver>, j: nat)
    requires j < |ws| && !Names(ws[j + 1..], ws[j].findingId)
    ensures ws[j].findingId in Index(ws) && Index(ws)[ws[j].findingId] == ws[j]
  {
    hide *;
    assert ws == ws[..j] + [ws[j]] + ws[j + 1..];
    LastCountsBetween(ws[..j], ws[j], ws[j + 1..]);
  }

  lemma IndexAround(ws: seq<Waiver>, i: nat)
    requires i < |ws|
    ensures Index(ws) == Index(ws[..i]) + map[ws[i].findingId := ws[i]] + Index(ws[i + 1..])
    ensures Index(Without(ws, i)) == Index(ws[..i]) + Index(ws[i + 1..])
  {
    hide Index;
    var w := ws[i];
    assert ws == ws[..i] + [w] + ws[i + 1..];
    IndexConcat(ws[..i] + [w], ws[i + 1..]);
    IndexSnoc(ws[..i], w);
    IndexConcat(ws[..i], ws[i + 1..]);
    assert Index(ws[..i]) + map[w.findingId := w] == Index(ws[..i])[w.findingId := w];
  }

  lemma {:induction false} LastNamed(ws: seq<Waiver>, id: string) returns (j: nat)
    requires Names(ws, id)
    ensures j < |ws| && ws[j].findingId == id && !Names(ws[j + 1..], id)
  {
    var n := |ws| - 1;
    if ws[n].findingId == id {
      j := n;
    } else {
      var k :| 0 <= k < |ws| && ws[k].findingId == id;
      assert ws[..n][k].findingId == id;
      j := LastNamed(ws[..n], id);
      assert forall k :: j < k < n ==> ws[k] == ws[..n][j + 1..][k - j - 1];
    }
  }

  /** Where nothing is revealed, what is left in force for the finding expires no later. */
  lemma LeftExpiresNoLater(ws: seq<Waiver>, i: nat)
    requires i < |ws| && !Reveals(ws, i)
    ensures var id, all, rest := ws[i].findingId, Index(ws), Index(Without(ws, i));
            && (forall x :: x != id ==> (x in rest <==> x in all) && (x in rest ==> rest[x] == all[x]))
            && id in all && (id in rest ==> rest[id].expires <= all[id].expires)
  {
    var id := ws[i].findingId;
    IndexAround(ws, i);
    IndexNames(ws[..i], id);
    IndexNames(ws[i + 1..], id);
    hide Index;
    if Names(ws[..i], id) && !Names(ws[i + 1..], id) {
      var j := LastNamed(ws[..i], id);
      LastCounts(ws[..i], j);
      assert ws[..i][j + 1..] == ws[j + 1..i];
      assert ws[..i][j] == ws[j];
      assert !RevealsAt(ws, i, j);
    }
  }

  lemma ShorterWaivers(a: Case, b: Case, f: GateFinding, id: string)
    requires b == a.(waivers := b.waivers)
    requires f.id != id ==> (f.id in b.waivers <==> f.id in a.waivers)
    requires f.id != id && f.id in b.waivers ==> b.waivers[f.id] == a.waivers[f.id]
    requires id in a.waivers && (id in b.waivers ==> b.waivers[id].expires <= a.waivers[id].expires)
    ensures Violates(a, f) ==> Violates(b, f)
    ensures DisposeIn(a, f).UnderFloor? <==> DisposeIn(b, f).UnderFloor?
  {
  }

  /** Taking a waiver away unblocks no release, unless an earlier one of its finding that expires later takes over. */
  lemma RemovingAWaiverKeepsBlocked(
      findings: seq<GateFinding>, p: GatePolicy, waivers: seq<Waiver>, i: nat, degraded: seq<string>, today: int)
    requires i < |waivers| && !Reveals(waivers, i)
    requires Evaluation(findings, p, waivers, degraded, today).decision == Blocked
    ensures Evaluation(findings, p, Without(waivers, i), degraded, today).decision == Blocked
  {
    var rest := Without(waivers, i);
    LeftExpiresNoLater(waivers, i);
    DecisionMeaning(findings, p, waivers, degraded, today);
    DecisionMeaning(findings, p, rest, degraded, today);
    var a, b := Case(p, Index(waivers), today), Case(p, Index(rest), today);
    hide Evaluation, Index, Dispose, Reveals, Without;
    forall f
      ensures Violates(a, f) ==> Violates(b, f)
      ensures DisposeIn(a, f).UnderFloor? <==> DisposeIn(b, f).UnderFloor?
    {
      ShorterWaivers(a, b, f, waivers[i].findingId);
    }
    KeptUnderFloor(a, b, findings);
  }

  /** If nothing stops violating and nothing leaves the budgets, a block stays a block. */
  lemma KeptUnderFloor(a: Case, b: Case, fs: seq<GateFinding>)
    requires a.policy.budgets == b.policy.budgets
    requires forall f :: f in fs && Violates(a, f) ==> Violates(b, f)
    requires forall f :: f in fs && DisposeIn(a, f).UnderFloor? ==> DisposeIn(b, f).UnderFloor?
    requires SomeViolate(a, fs) || SomeOverspent(a, fs)
    ensures SomeViolate(b, fs) || SomeOverspent(b, fs)
  {
    hide Dispose, UnderFloorCount;
    forall s | Overspent(a, fs, s)
      ensures Overspent(b, fs, s)
    {
      SameUnderFloor(a, b, fs, s);
    }
    BlockCarriesOver(a, fs, b, fs);
  }

  const STRICT := GatePolicy("strict", Some(High), {}, {}, Budgets(-1, -1, -1, -1, -1), All, FailClosed, false, 90)

  /** Otherwise it can: on the day after the last waiver expires, the revealed one still holds. */
  lemma RevealingAWaiverUnblocks(f: GateFinding, waivers: seq<Waiver>, i: nat)
    requires i < |waivers| && Reveals(waivers, i)
    requires f.severity == Critical && f.status == Open && f.id == waivers[i].findingId
    ensures var today := waivers[i].expires + 1;
            && Evaluation([f], STRICT, waivers, [], today).decision == Blocked
            && Evaluation([f], STRICT, Without(waivers, i), [], today).decision == Pass
  {
    var today := waivers[i].expires + 1;
    var j: nat :| RevealsAt(waivers, i, j);
    LastCounts(waivers, i);
    assert waivers[..i][j + 1..] == waivers[j + 1..i] && waivers[..i][j] == waivers[j];
    LastCounts(waivers[..i], j);
    IndexAround(waivers, i);
    IndexNames(waivers[i + 1..], f.id);
    hide Evaluation, Index, Names, Without;
    StrictOnOne(f, waivers, today);
    StrictOnOne(f, Without(waivers, i), today);
  }

  /** Every decision that is BLOCKED with these waivers is BLOCKED without the `i`th. */
  ghost predicate RemovalKeepsBlocked(waivers: seq<Waiver>, i: nat)
    requires i < |waivers|
  {
    forall findings, p, degraded, today :: RemovalKeepsThisBlocked(waivers, i, findings, p, degraded, today)
  }

  ghost predicate RemovalKeepsThisBlocked(
      waivers: seq<Waiver>, i: nat, findings: seq<GateFinding>, p: GatePolicy, degraded: seq<string>, today: int)
    requires i < |waivers|
  {
    Evaluation(findings, p, waivers, degraded, today).decision == Blocked ==>
      Evaluation(findings, p, Without(waivers, i), degraded, today).decision == Blocked
  }

  /** Exactly which waivers can be taken away without unblocking anything, whatever the findings and the policy. */
  lemma WhenRemovingAWaiverIsSafe(waivers: seq<Waiver>, i: nat)
    requires i < |waivers|
    ensures RemovalKeepsBlocked(waivers, i) <==> !Reveals(waivers, i)
  {
    hide Evaluation, Reveals, Without;
    if Reveals(waivers, i) {
      var f := GateFinding(waivers[i].findingId, "", "", "", Critical, Open, true, false, "", "");
      RevealingAWaiverUnblocks(f, waivers, i);
      assert !RemovalKeepsThisBlocked(waivers, i, [f], STRICT, [], waivers[i].expires + 1);
    } else {
      forall findings, p, degraded, today
        ensures RemovalKeepsThisBlocked(waivers, i, findings, p, degraded, today)
      {
        if Evaluation(findings, p, waivers, degraded, today).decision == Blocked {
          RemovingAWaiverKeepsBlocked(findings, p, waivers, i, degraded, today);
        }
      }
    }
  }

  lemma StrictOnOne(f: GateFinding, waivers: seq<Waiver>, today: int)
    requires f.severity == Critical && f.status == Open && f.id in Index(waivers)
    ensures Evaluation([f], STRICT, waivers, [], today).decision
         == if IsExpired(Index(waivers)[f.id], today) then Blocked else Pass
  {
    DecisionMeaning([f], STRICT, waivers, [], today);
    hide Evaluation, Index, IsExpired;
    var c := Case(STRICT, Index(waivers), today);
    StrictDisposes(c, f);
    hide DisposeIn, Violates;
    OneFindingBlocks(c, f);
  }

  lemma StrictDisposes(c: Case, f: GateFinding)
    requires c.policy == STRICT && f.severity == Critical && f.status == Open && f.id in c.waivers
    ensures Violates(c, f) == IsExpired(c.waivers[f.id], c.today)
    ensures !DisposeIn(c, f).UnderFloor?
  {
  }

  /** With one finding that is not under the floor, only the finding itself can block. */
  lemma OneFindingBlocks(c: Case, f: GateFinding)
    requires !DisposeIn(c, f).UnderFloor?
    ensures SomeViolate(c, [f]) <==> Violates(c, f)
    ensures !SomeOverspent(c, [f])
  {
    hide Dispose;
    assert f in [f] && [f][..0] == [];
    assert forall s :: UnderFloorCount(c, [f], s) == 0;
  }

  // ----- tightening a policy

  /** `b` blocks whatever `a` blocks, counts whatever `a` counts, and allows no more. */
  predicate Tighter(a: GatePolicy, b: GatePolicy) {
    && (a.blockAtOrAbove.Some? ==>
          b.blockAtOrAbove.Some? && Rank(a.blockAtOrAbove.value) <= Rank(b.blockAtOrAbove.value))
    && a.blockRules <= b.blockRules && a.blockCategories <= b.blockCategories
    && (b.baselineMode == NewOnly ==> a.baselineMode == NewOnly)
    && (b.trustLlmDismissals ==> a.trustLlmDismissals)
    && forall s :: TighterLimit(LimitFor(a.budgets, s), LimitFor(b.budgets, s))
  }

  predicate TighterLimit(a: int, b: int) {
    a == UNLIMITED || (b != UNLIMITED && b <= a)
  }

  /** One thing a policy can block by. */
  datatype Selector = OnRule(rule: string) | OnCategory(category: string) | OnFloor(floor: Severity)

  predicate Selects(pick: Selector, f: GateFinding) {
    match pick
    case OnRule(rule) => f.ruleId == rule
    case OnCategory(category) => f.category == category
    case OnFloor(floor) => Rank(f.severity) <= Rank(floor)
  }

  /** Actionable, and not inherited, under this trust and baseline setting. */
  predicate InView(f: GateFinding, trust: bool, mode: BaselineMode) {
    (IsOpen(f) || (f.llmDismissed && !trust)) && (mode == NewOnly ==> f.isNew)
  }

  predicate ValidlyWaived(f: GateFinding, waivers: Waivers, today: int) {
    f.id in waivers && !IsExpired(waivers[f.id], today)
  }

  /** Under the setting, `pick` picks out some finding, and only validly waived ones. */
  ghost predicate Slips(
      fs: seq<GateFinding>, waivers: Waivers, today: int, trust: bool, mode: BaselineMode, pick: Selector)
  {
    && (exists f :: f in fs && InView(f, trust, mode) && Selects(pick, f))
    && (forall f :: f in fs && InView(f, trust, mode) && Selects(pick, f) ==> ValidlyWaived(f, waivers, today))
  }

  ghost predicate CanSlip(fs: seq<GateFinding>, waivers: Waivers, today: int) {
    exists trust, mode, pick :: Slips(fs, waivers, today, trust, mode, pick)
  }

  predicate Selected(p: GatePolicy, f: GateFinding) {
    BlockingReason(f, p).Some?
  }

  lemma DisposedBySelection(c: Case, f: GateFinding)
    ensures var p := c.policy;
            var seen := InView(f, p.trustLlmDismissals, p.baselineMode);
            && (Violates(c, f) <==> seen && Selected(p, f) && !ValidlyWaived(f, c.waivers, c.today))
            && (DisposeIn(c, f).UnderFloor? <==> seen && !Selected(p, f))
  {
  }

  lemma TighterSelects(p: GatePolicy, q: GatePolicy, f: GateFinding)
    requires Tighter(p, q)
    ensures Selected(p, f) ==> Selected(q, f)
    ensures InView(f, p.trustLlmDismissals, p.baselineMode) ==> InView(f, q.trustLlmDismissals, q.baselineMode)
  {
  }

  /** The selector of `q` that selects `f`; whatever it selects, `q` does. */
  lemma SelectorOf(q: GatePolicy, f: GateFinding) returns (pick: Selector)
    requires Selected(q, f)
    ensures Selects(pick, f) && forall g :: Selects(pick, g) ==> Selected(q, g)
  {
    if f.ruleId in q.blockRules {
      pick := OnRule(f.ruleId);
    } else if f.category in q.blockCategories {
      pick := OnCategory(f.category);
    } else {
      pick := OnFloor(q.blockAtOrAbove.value);
    }
  }

  /** Where nothing slips and nothing violates, a policy selects nothing it has in view. */
  lemma NothingSelected(fs: seq<GateFinding>, b: Case, f: GateFinding)
    requires !CanSlip(fs, b.waivers, b.today) && !SomeViolate(b, fs)
    requires f in fs && InView(f, b.policy.trustLlmDismissals, b.policy.baselineMode)
    ensures !Selected(b.policy, f)
  {
    hide Violates, Selected, Selects, InView, ValidlyWaived, IsExpired;
    if Selected(b.policy, f) {
      var pick := SelectorOf(b.policy, f);
      var trust, mode := b.policy.trustLlmDismissals, b.policy.baselineMode;
      forall g | g in fs && InView(g, trust, mode) && Selects(pick, g)
        ensures ValidlyWaived(g, b.waivers, b.today)
      {
        DisposedBySelection(b, g);
      }
      SlippingCan(fs, b.waivers, b.today, trust, mode, pick, f);
    }
  }

  lemma SlippingCan(
      fs: seq<GateFinding>, waivers: Waivers, today: int, trust: bool, mode: BaselineMode, pick: Selector,
      f: GateFinding)
    requires f in fs && InView(f, trust, mode) && Selects(pick, f)
    requires forall g :: g in fs && InView(g, trust, mode) && Selects(pick, g) ==> ValidlyWaived(g, waivers, today)
    ensures CanSlip(fs, waivers, today)
  {
    hide InView, Selects, ValidlyWaived;
    assert Slips(fs, waivers, today, trust, mode, pick);
  }

  /**
   Where nothing can slip, a stricter floor, rule list, category list, budget, baseline or trust
   setting never unblocks a release.
   */
  lemma TighteningKeepsBlocked(
      findings: seq<GateFinding>, p: GatePolicy, q: GatePolicy, waivers: seq<Waiver>, degraded: seq<string>, today: int)
    requires Tighter(p, q) && !CanSlip(findings, Index(waivers), today)
    requires Evaluation(findings, p, waivers, degraded, today).decision == Blocked
    ensures Evaluation(findings, q, waivers, degraded, today).decision == Blocked
  {
    DecisionMeaning(findings, p, waivers, degraded, today);
    DecisionMeaning(findings, q, waivers, degraded, today);
    hide Evaluation, Index, CanSlip;
    TightenedBlocks(Case(p, Index(waivers), today), Case(q, Index(waivers), today), findings);
  }

  lemma TightenedBlocks(a: Case, b: Case, fs: seq<GateFinding>)
    requires Tighter(a.policy, b.policy) && b == a.(policy := b.policy) && !CanSlip(fs, b.waivers, b.today)
    requires SomeViolate(a, fs) || SomeOverspent(a, fs)
    ensures SomeViolate(b, fs) || SomeOverspent(b, fs)
  {
    hide DisposeIn, Violates, UnderFloorCount, CanSlip, Selected, InView, ValidlyWaived;
    if f :| f in fs && Violates(a, f) {
      DisposedBySelection(a, f);
      DisposedBySelection(b, f);
      TighterSelects(a.policy, b.policy, f);
      assert Violates(b, f);
    } else if !SomeViolate(b, fs) {
      forall f | f in fs && DisposeIn(a, f).UnderFloor?
        ensures DisposeIn(b, f).UnderFloor?
      {
        DisposedBySelection(a, f);
        DisposedBySelection(b, f);
        TighterSelects(a.policy, b.policy, f);
        NothingSelected(fs, b, f);
      }
      var s :| Overspent(a, fs, s);
      SameUnderFloor(a, b, fs, s);
      assert TighterLimit(LimitFor(a.policy.budgets, s), LimitFor(b.policy.budgets, s));
      assert Overspent(b, fs, s);
    }
  }

  const NO_BUDGETS := Budgets(-1, -1, -1, -1, -1)

  function OnlyLimit(s: Severity, limit: int): Budgets {
    match s
    case Critical => NO_BUDGETS.(critical := limit)
    case High => NO_BUDGETS.(high := limit)
    case Medium => NO_BUDGETS.(medium := limit)
    case Low => NO_BUDGETS.(low := limit)
    case Info => NO_BUDGETS.(info := limit)
  }

  /** A policy with one budget and no selectors. */
  function Loose(trust: bool, mode: BaselineMode, s: Severity, limit: int): GatePolicy {
    GatePolicy("loose", None, {}, {}, OnlyLimit(s, limit), mode, FailClosed, trust, 90)
  }

  function With(p: GatePolicy, pick: Selector): GatePolicy {
    match pick
    case OnRule(rule) => p.(blockRules := {rule})
    case OnCategory(category) => p.(blockCategories := {category})
    case OnFloor(floor) => p.(blockAtOrAbove := Some(floor))
  }

  lemma LooseSelects(trust: bool, mode: BaselineMode, s: Severity, limit: int, pick: Selector, f: GateFinding)
    ensures var p := Loose(trust, mode, s, limit);
            Tighter(p, With(p, pick)) && !Selected(p, f) && (Selected(With(p, pick), f) <==> Selects(pick, f))
  {
  }

  lemma OnlyLimitFor(s: Severity, limit: int, t: Severity)
    ensures LimitFor(OnlyLimit(s, limit), t) == if s == t then limit else UNLIMITED
  {
  }

  lemma {:induction false} CountDrops(a: Case, b: Case, fs: seq<GateFinding>, f: GateFinding, s: Severity)
    requires f in fs && f.severity == s && DisposeIn(a, f).UnderFloor? && !DisposeIn(b, f).UnderFloor?
    requires forall g :: g in fs && DisposeIn(b, g).UnderFloor? ==> DisposeIn(a, g).UnderFloor?
    ensures UnderFloorCount(b, fs, s) < UnderFloorCount(a, fs, s)
  {
    hide DisposeIn;
    var n := |fs| - 1;
    assert fs == fs[..n] + [fs[n]];
    if f in fs[..n] {
      CountDrops(a, b, fs[..n], f, s);
    } else {
      SameUnderFloor(b, a, fs[..n], s);
    }
  }

  /** Whatever slips can be made to: block by a budget one short, then select it away into its waivers. */
  lemma TighteningAWaivedFindingCanUnblock(
      fs: seq<GateFinding>, waivers: seq<Waiver>, degraded: seq<string>, today: int, trust: bool, mode: BaselineMode,
      pick: Selector)
      returns (p: GatePolicy, q: GatePolicy)
    requires Slips(fs, Index(waivers), today, trust, mode, pick)
    ensures Tighter(p, q)
    ensures Evaluation(fs, p, waivers, degraded, today).decision == Blocked
    ensures Evaluation(fs, q, waivers, degraded, today).decision != Blocked
  {
    var index := Index(waivers);
    var f :| f in fs && InView(f, trust, mode) && Selects(pick, f);
    var count: int := UnderFloorCount(Case(Loose(trust, mode, f.severity, 0), index, today), fs, f.severity);
    p := Loose(trust, mode, f.severity, count - 1);
    q := With(p, pick);
    LooseSelects(trust, mode, f.severity, count - 1, pick, f);
    DecisionMeaning(fs, p, waivers, degraded, today);
    DecisionMeaning(fs, q, waivers, degraded, today);
    hide *;
    SlippedCases(fs, index, today, trust, mode, pick, f, count);
  }

  lemma SlippedCases(
      fs: seq<GateFinding>, index: Waivers, today: int, trust: bool, mode: BaselineMode, pick: Selector,
      f: GateFinding, count: nat)
    requires Slips(fs, index, today, trust, mode, pick) && f in fs && InView(f, trust, mode) && Selects(pick, f)
    requires count == UnderFloorCount(Case(Loose(trust, mode, f.severity, 0), index, today), fs, f.severity)
    ensures var p := Loose(trust, mode, f.severity, count - 1);
            var a, b := Case(p, index, today), Case(With(p, pick), index, today);
            SomeOverspent(a, fs) && !SomeViolate(b, fs) && !SomeOverspent(b, fs)
  {
    var s := f.severity;
    var p := Loose(trust, mode, s, count - 1);
    var zero := Case(Loose(trust, mode, s, 0), index, today);
    var a, b := Case(p, index, today), Case(With(p, pick), index, today);
    forall g
      ensures DisposeIn(zero, g).UnderFloor? <==> InView(g, trust, mode)
      ensures DisposeIn(a, g).UnderFloor? <==> InView(g, trust, mode)
      ensures DisposeIn(b, g).UnderFloor? <==> InView(g, trust, mode) && !Selects(pick, g)
      ensures Violates(b, g) <==> InView(g, trust, mode) && Selects(pick, g) && !ValidlyWaived(g, index, today)
    {
      LooseSelects(trust, mode, s, 0, pick, g);
      LooseSelects(trust, mode, s, count - 1, pick, g);
      WithKeeps(p, pick);
      DisposedBySelection(zero, g);
      DisposedBySelection(a, g);
      DisposedBySelection(b, g);
      hide *;
    }
    hide DisposeIn, Violates, UnderFloorCount, InView, Selects, ValidlyWaived, Loose, With, OnlyLimit;
    SameUnderFloor(zero, a, fs, s);
    SameUnderFloor(a, zero, fs, s);
    CountDrops(a, b, fs, f, s);
    SlippedBudgets(trust, mode, s, count, pick, a, b, fs);
  }

  lemma WithKeeps(p: GatePolicy, pick: Selector)
    ensures var q := With(p, pick);
            q.trustLlmDismissals == p.trustLlmDismissals && q.baselineMode == p.baselineMode && q.budgets == p.budgets
  {
  }

  lemma SlippedBudgets(
      trust: bool, mode: BaselineMode, s: Severity, count: nat, pick: Selector, a: Case, b: Case, fs: seq<GateFinding>)
    requires a.policy == Loose(trust, mode, s, count - 1) && b.policy == With(a.policy, pick)
    requires UnderFloorCount(b, fs, s) < UnderFloorCount(a, fs, s) == count
    ensures Overspent(a, fs, s) && !SomeOverspent(b, fs)
  {
    WithKeeps(a.policy, pick);
    hide With, UnderFloorCount;
    forall t
      ensures LimitFor(a.policy.budgets, t) == if s == t then count - 1 else UNLIMITED
    {
      OnlyLimitFor(s, count - 1, t);
    }
    hide OnlyLimit, LimitFor;
  }

  ghost predicate TighteningKeeps(
      fs: seq<GateFinding>, p: GatePolicy, q: GatePolicy, waivers: seq<Waiver>, degraded: seq<string>, today: int)
  {
    Tighter(p, q) && Evaluation(fs, p, waivers, degraded, today).decision == Blocked ==>
      Evaluation(fs, q, waivers, degraded, today).decision == Blocked
  }

  /**
   Exactly when no tightening of any policy can unblock: when under no trust and baseline setting a
   rule, category or severity floor picks out some findings and only validly waived ones.
   */
  lemma WhenTighteningIsSafe(fs: seq<GateFinding>, waivers: seq<Waiver>, degraded: seq<string>, today: int)
    ensures (forall p, q :: TighteningKeeps(fs, p, q, waivers, degraded, today))
       <==> !CanSlip(fs, Index(waivers), today)
  {
    hide Evaluation, Index, Slips, Tighter;
    if CanSlip(fs, Index(waivers), today) {
      var trust, mode, pick :| Slips(fs, Index(waivers), today, trust, mode, pick);
      var p, q := TighteningAWaivedFindingCanUnblock(fs, waivers, degraded, today, trust, mode, pick);
      assert !TighteningKeeps(fs, p, q, waivers, degraded, today);
    } else {
      hide CanSlip;
      forall p, q
        ensures TighteningKeeps(fs, p, q, waivers, degraded, today)
      {
        if Tighter(p, q) && Evaluation(fs, p, waivers, degraded, today).decision == Blocked {
          TighteningKeepsBlocked(fs, p, q, waivers, degraded, today);
        }
      }
    }
  }
}
