/**
 What a verdict of the release gate says, in the terms of the policy document
 (core/policy/engine.py, core/policy/policy.py): which findings count, which block, which budgets
 are overdrawn, and what each list of the verdict holds.
 */
module PolicyMeaning {
  import opened Options
  import opened Order
  import opened Policy
  import opened Vocab

  // ----- the terms

  /** Open, or closed by nobody but a model that the policy does not trust. */
  predicate Live(f: GateFinding, p: GatePolicy) {
    f.status == FalsePositive || f.status == AcceptedRisk || f.status == Fixed ==>
      f.llmDismissed && !p.trustLlmDismissals
  }

  predicate InScope(f: GateFinding, p: GatePolicy) {
    p.baselineMode == NewOnly ==> f.isNew
  }

  /** The policy names the finding's rule, its category, or a floor at or below its severity. */
  predicate Named(f: GateFinding, p: GatePolicy) {
    || f.ruleId in p.blockRules || f.category in p.blockCategories
    || (p.blockAtOrAbove.Some? && AtLeastAs(f.severity, p.blockAtOrAbove.value))
  }

  /** Of the waivers of a finding the last one governs. */
  predicate Governs(waivers: seq<Waiver>, i: nat, id: string) {
    && i < |waivers| && waivers[i].findingId == id
    && forall j :: i < j < |waivers| ==> waivers[j].findingId != id
  }

  /** A waiver is good up to and including the day it expires. */
  ghost predicate Excused(waivers: seq<Waiver>, id: string, today: int) {
    exists i: nat :: Governs(waivers, i, id) && today <= waivers[i].expires
  }

  ghost predicate Blocking(f: GateFinding, p: GatePolicy, waivers: seq<Waiver>, today: int) {
    Live(f, p) && InScope(f, p) && Named(f, p) && !Excused(waivers, f.id, today)
  }

  /** A finding that counts against the budget of its severity. */
  predicate Spends(f: GateFinding, p: GatePolicy, s: Severity) {
    Live(f, p) && InScope(f, p) && !Named(f, p) && f.severity == s
  }

  function Spent(fs: seq<GateFinding>, p: GatePolicy, s: Severity): set<nat> {
    set i: nat | i < |fs| && Spends(fs[i], p, s)
  }

  predicate IsBudget(b: Budgets, s: Severity, limit: int) {
    && (s == Critical ==> limit == b.critical) && (s == High ==> limit == b.high)
    && (s == Medium ==> limit == b.medium) && (s == Low ==> limit == b.low) && (s == Info ==> limit == b.info)
  }

  /** More findings than a limited budget allows; -1 is no limit. */
  predicate Exceeds(count: nat, limit: int) {
    limit != -1 && count > 0 && count > limit
  }

  ghost predicate Overdrawn(fs: seq<GateFinding>, p: GatePolicy, s: Severity) {
    exists limit :: IsBudget(p.budgets, s, limit) && Exceeds(|Spent(fs, p, s)|, limit)
  }

  // ----- one finding

  lemma NamedMeansReason(f: GateFinding, p: GatePolicy)
    ensures BlockingReason(f, p).Some? <==> Named(f, p)
  {
    if p.blockAtOrAbove.Some? {
      RanksDescend(f.severity, p.blockAtOrAbove.value);
    }
  }

  lemma GoverningWaiver(waivers: seq<Waiver>, id: string)
    ensures id in Index(waivers) <==> exists i: nat :: Governs(waivers, i, id)
    ensures forall i: nat :: Governs(waivers, i, id) ==> id in Index(waivers) && Index(waivers)[id] == waivers[i]
  {
    IndexNames(waivers, id);
    hide Index;
    if Names(waivers, id) {
      var i := LastNamed(waivers, id);
      assert forall j :: i < j < |waivers| ==> waivers[j] == waivers[i + 1..][j - i - 1];
      assert Governs(waivers, i, id);
    }
    forall i: nat | Governs(waivers, i, id)
      ensures id in Index(waivers) && Index(waivers)[id] == waivers[i]
    {
      LastCounts(waivers, i);
    }
  }

  /** The disposition of a finding, in the terms above. */
  lemma DispositionMeaning(f: GateFinding, p: GatePolicy, waivers: seq<Waiver>, today: int)
    ensures var d := DisposeIn(Case(p, Index(waivers), today), f);
            && (d.NotActionable? <==> !Live(f, p))
            && (d.Inherited? <==> Live(f, p) && !InScope(f, p))
            && (d.UnderFloor? <==> Live(f, p) && InScope(f, p) && !Named(f, p))
            && (d.Waived? <==> Live(f, p) && InScope(f, p) && Named(f, p) && Excused(waivers, f.id, today))
            && (d.Violating? <==> Blocking(f, p, waivers, today))
  {
    NamedMeansReason(f, p);
    GoverningWaiver(waivers, f.id);
    hide Index, BlockingReason, Named, Governs;
  }

  lemma SpentSnoc(fs: seq<GateFinding>, p: GatePolicy, s: Severity)
    requires fs != []
    ensures var n := |fs| - 1;
            |Spent(fs, p, s)| == |Spent(fs[..n], p, s)| + if Spends(fs[n], p, s) then 1 else 0
  {
    hide Spends;
    var n := |fs| - 1;
    OneMorePlace(Spent(fs[..n], p, s), Spent(fs, p, s), n, Spends(fs[n], p, s));
  }

  lemma NothingSpent(p: GatePolicy, s: Severity)
    ensures Spent([], p, s) == {}
  {
  }

  lemma {:induction false} SpentIsCounted(fs: seq<GateFinding>, p: GatePolicy, waivers: seq<Waiver>, today: int,
                                          s: Severity)
    ensures UnderFloorCount(Case(p, Index(waivers), today), fs, s) == |Spent(fs, p, s)|
  {
    hide Live, InScope, Named, DisposeIn, Index, Spent;
    if fs == [] {
      NothingSpent(p, s);
    } else {
      var n := |fs| - 1;
      SpentIsCounted(fs[..n], p, waivers, today, s);
      DispositionMeaning(fs[n], p, waivers, today);
      SpentSnoc(fs, p, s);
    }
  }

  lemma OverdrawnMeansOverspent(fs: seq<GateFinding>, p: GatePolicy, waivers: seq<Waiver>, today: int, s: Severity)
    ensures Overspent(Case(p, Index(waivers), today), fs, s) <==> Overdrawn(fs, p, s)
  {
    SpentIsCounted(fs, p, waivers, today, s);
    hide UnderFloorCount, Spent, Index;
    assert IsBudget(p.budgets, s, LimitFor(p.budgets, s));
  }

  // ----- the decision

  /**
   BLOCKED exactly when some finding blocks or some budget is overdrawn; PASS exactly when neither,
   and nothing degraded or the policy lets degraded scans pass; INCONCLUSIVE otherwise.
   */
  lemma DecisionInPlainTerms(fs: seq<GateFinding>, p: GatePolicy, waivers: seq<Waiver>, degraded: seq<string>,
                             today: int)
    ensures var d := Evaluation(fs, p, waivers, degraded, today).decision;
            var stop := (exists i :: 0 <= i < |fs| && Blocking(fs[i], p, waivers, today))
                        || exists s :: Overdrawn(fs, p, s);
            && (d == Blocked <==> stop)
            && (d == Pass <==> !stop && (degraded == [] || p.onDegraded == LetPass))
  {
    var c := Case(p, Index(waivers), today);
    DecisionMeaning(fs, p, waivers, degraded, today);
    hide Evaluation, Index, DisposeIn, Blocking, Overdrawn, Overspent;
    forall s
      ensures Overspent(c, fs, s) == Overdrawn(fs, p, s)
    {
      OverdrawnMeansOverspent(fs, p, waivers, today, s);
    }
    if i :| 0 <= i < |fs| && Blocking(fs[i], p, waivers, today) {
      DispositionMeaning(fs[i], p, waivers, today);
      assert Violates(c, fs[i]);
    }
    if f :| f in fs && Violates(c, f) {
      DispositionMeaning(f, p, waivers, today);
      var i :| 0 <= i < |fs| && fs[i] == f;
    }
  }

  // ----- the lists of a verdict

  /** Why a blocking finding is named: its rule before its category, the floor last. */
  predicate IsReason(reason: Reason, f: GateFinding, p: GatePolicy) {
    && (reason == BlockedRule <==> f.ruleId in p.blockRules)
    && (reason == BlockedCategory <==> f.ruleId !in p.blockRules && f.category in p.blockCategories)
  }

  /** The violation of a blocking finding: the reason if nobody waived it, or the waiver that expired. */
  ghost predicate BlocksFor(v: Violation, f: GateFinding, p: GatePolicy, waivers: seq<Waiver>, today: int) {
    && (v.FindingBlocks? || v.ExpiredWaiver?) && v.finding == f && Blocking(f, p, waivers, today)
    && (v.FindingBlocks? ==> IsReason(v.reason, f, p) && forall i: nat :: !Governs(waivers, i, f.id))
    && (v.ExpiredWaiver? ==> exists i: nat :: Governs(waivers, i, f.id) && waivers[i] == v.waiver)
  }

  /** What a violation of the verdict on `fs` says; `stages` are those the verdict names. */
  ghost predicate Justified(v: Violation, fs: seq<GateFinding>, p: GatePolicy, waivers: seq<Waiver>, today: int,
                            degraded: seq<string>, stages: seq<string>) {
    match v
    case FindingBlocks(_, f) => f in fs && BlocksFor(v, f, p, waivers, today)
    case ExpiredWaiver(_, f) => f in fs && BlocksFor(v, f, p, waivers, today)
    case BudgetExceeded(s, count, limit) =>
      IsBudget(p.budgets, s, limit) && count == |Spent(fs, p, s)| && Exceeds(count, limit)
    case DegradedScan(named) => degraded != [] && p.onDegraded == FailClosed && named == stages
  }

  lemma ViolationOf(f: GateFinding, p: GatePolicy, waivers: seq<Waiver>, today: int, v: Violation)
    ensures DisposeIn(Case(p, Index(waivers), today), f) == Violating(v) <==> BlocksFor(v, f, p, waivers, today)
  {
    DispositionMeaning(f, p, waivers, today);
    ReasonsAgree(f, p);
    GoverningWaiver(waivers, f.id);
    hide Index, BlockingReason, Blocking, Governs, IsReason;
  }

  lemma ReasonsAgree(f: GateFinding, p: GatePolicy)
    ensures BlockingReason(f, p).Some? ==> IsReason(BlockingReason(f, p).value, f, p)
    ensures forall a, b :: IsReason(a, f, p) && IsReason(b, f, p) ==> a == b
  {
  }

  lemma {:induction false} BudgetViolationMembers(p: GatePolicy, considered: seq<GateFinding>,
                                                  severities: seq<Severity>, v: Violation)
    ensures v in BudgetViolations(p, considered, severities)
       <==> && v.BudgetExceeded? && v.severity in severities && OverBudget(p, considered, v.severity)
            && v.count == Tally(considered, v.severity) && v.limit == LimitFor(p.budgets, v.severity)
  {
    hide OverBudget, Tally, LimitFor;
    if severities != [] {
      var n := |severities| - 1;
      BudgetViolationMembers(p, considered, severities[..n], v);
      assert severities == severities[..n] + [severities[n]];
    }
  }

  lemma BudgetViolationMeaning(fs: seq<GateFinding>, p: GatePolicy, waivers: seq<Waiver>, today: int, v: Violation)
    ensures v in BudgetViolations(p, ConsideredOf(Case(p, Index(waivers), today), fs), BY_RANK)
       <==> && v.BudgetExceeded? && IsBudget(p.budgets, v.severity, v.limit)
            && v.count == |Spent(fs, p, v.severity)| && Exceeds(v.count, v.limit)
  {
    var c := Case(p, Index(waivers), today);
    BudgetViolationMembers(p, ConsideredOf(c, fs), BY_RANK, v);
    hide Index, ConsideredOf, Spent, Tally;
    if v.BudgetExceeded? {
      EveryRank(v.severity);
      ConsideredTally(c, fs, v.severity);
      SpentIsCounted(fs, p, waivers, today, v.severity);
    }
  }

  lemma SpentInAnyOrder(fs: seq<GateFinding>, p: GatePolicy, s: Severity)
    ensures |Spent(SortFindings(fs), p, s)| == |Spent(fs, p, s)|
  {
    SpentIsCounted(SortFindings(fs), p, [], 0, s);
    SpentIsCounted(fs, p, [], 0, s);
    CountIgnoresOrder(Case(p, Index([]), 0), SortFindings(fs), fs, s);
  }

  lemma FoundInPlainTerms(fs: seq<GateFinding>, p: GatePolicy, waivers: seq<Waiver>, degraded: seq<string>,
                          today: int, stages: seq<string>, v: Violation)
    ensures v in ViolationsOf(Case(p, Index(waivers), today), SortFindings(fs))
       <==> (v.FindingBlocks? || v.ExpiredWaiver?) && Justified(v, fs, p, waivers, today, degraded, stages)
  {
    var c, all := Case(p, Index(waivers), today), SortFindings(fs);
    SortElements(fs, FindingLe);
    ViolationMembers(c, all, v);
    assert forall f :: BlocksFor(v, f, p, waivers, today) ==> (v.FindingBlocks? || v.ExpiredWaiver?) && v.finding == f;
    hide Index, Sort, DisposeIn, ViolationsOf, BlocksFor, IsBudget, Exceeds;
    forall f
      ensures DisposeIn(c, f) == Violating(v) <==> BlocksFor(v, f, p, waivers, today)
    {
      ViolationOf(f, p, waivers, today, v);
    }
  }

  /** Every violation of a verdict is justified, and everything that justifies one is there. */
  lemma ViolationsInPlainTerms(fs: seq<GateFinding>, p: GatePolicy, waivers: seq<Waiver>, degraded: seq<string>,
                               today: int, v: Violation)
    ensures var r := Evaluation(fs, p, waivers, degraded, today);
            v in r.violations <==> Justified(v, fs, p, waivers, today, degraded, r.stages)
  {
    var stages := SortStages(degraded);
    StagesEmpty(degraded);
    FoundInPlainTerms(fs, p, waivers, degraded, today, stages, v);
    BudgetViolationMeaning(SortFindings(fs), p, waivers, today, v);
    if v.BudgetExceeded? {
      SpentInAnyOrder(fs, p, v.severity);
    }
    hide Index, Sort, SortStages, DisposeIn, ViolationsOf, BudgetViolations, ConsideredOf, Spent, Blocking, Governs,
      Decide, IsReason, IsBudget, Exceeds;
  }

  // ----- waivers

  /** The governing waiver `w` of a finding that it keeps from blocking. */
  ghost predicate WaivedBy(f: GateFinding, w: Waiver, p: GatePolicy, waivers: seq<Waiver>, today: int) {
    && Live(f, p) && InScope(f, p) && Named(f, p) && today <= w.expires
    && exists i: nat :: Governs(waivers, i, f.id) && waivers[i] == w
  }

  lemma WaiverOf(f: GateFinding, w: Waiver, p: GatePolicy, waivers: seq<Waiver>, today: int)
    ensures DisposeIn(Case(p, Index(waivers), today), f) == Waived(w) <==> WaivedBy(f, w, p, waivers, today)
  {
    DispositionMeaning(f, p, waivers, today);
    GoverningWaiver(waivers, f.id);
    hide Index, BlockingReason, Blocking, Governs, Live, InScope, Named;
  }

  lemma {:induction false} WaivedMembers(c: Case, fs: seq<GateFinding>, w: WaivedFinding)
    ensures w in WaivedOf(c, fs)
       <==> exists f :: f in fs && DisposeIn(c, f).Waived?
                        && w == WaivedFinding(f.id, f.title, f.severity, DisposeIn(c, f).waiver)
  {
    hide Dispose;
    if fs != [] {
      var n := |fs| - 1;
      WaivedMembers(c, fs[..n], w);
      assert fs == fs[..n] + [fs[n]];
    }
  }

  lemma {:induction false} WarningMembers(c: Case, fs: seq<GateFinding>, w: Warning)
    ensures w in WarningsOf(c, fs)
       <==> exists f :: && f in fs && DisposeIn(c, f).Waived?
                        && DisposeIn(c, f).waiver.expires - c.today > c.policy.maxWaiverDays
                        && w == WaiverTooLong(f.id, DisposeIn(c, f).waiver.expires)
  {
    hide Dispose;
    if fs != [] {
      var n := |fs| - 1;
      WarningMembers(c, fs[..n], w);
      assert fs == fs[..n] + [fs[n]];
    }
  }

  /** The waived entries are the findings that a valid waiver keeps from blocking, each with that waiver. */
  lemma WaivedInPlainTerms(fs: seq<GateFinding>, p: GatePolicy, waivers: seq<Waiver>, degraded: seq<string>,
                           today: int, entry: WaivedFinding)
    ensures entry in Evaluation(fs, p, waivers, degraded, today).waived
       <==> exists f, w :: && f in fs && WaivedBy(f, w, p, waivers, today)
                           && entry == WaivedFinding(f.id, f.title, f.severity, w)
  {
    var c, all := Case(p, Index(waivers), today), SortFindings(fs);
    SortElements(fs, FindingLe);
    WaivedMembers(c, all, entry);
    hide Index, Sort, SortStages, DisposeIn, WaivedOf, WaivedBy, ViolationsOf, BudgetViolations;
    forall f, w
      ensures DisposeIn(c, f) == Waived(w) <==> WaivedBy(f, w, p, waivers, today)
    {
      WaiverOf(f, w, p, waivers, today);
    }
    if f :| f in fs && DisposeIn(c, f).Waived?
            && entry == WaivedFinding(f.id, f.title, f.severity, DisposeIn(c, f).waiver) {
      assert WaivedBy(f, DisposeIn(c, f).waiver, p, waivers, today);
    }
  }

  /** Warned of: an incomplete scan under the warning posture, and each waiver in use that runs too long. */
  lemma WarningsInPlainTerms(fs: seq<GateFinding>, p: GatePolicy, waivers: seq<Waiver>, degraded: seq<string>,
                             today: int, warning: Warning)
    ensures var r := Evaluation(fs, p, waivers, degraded, today);
            warning in r.warnings
            <==> match warning
                 case ScanIncomplete(stages) => degraded != [] && p.onDegraded == Warn && stages == r.stages
                 case WaiverTooLong(id, expires) =>
                   exists f, w :: && f in fs && WaivedBy(f, w, p, waivers, today) && f.id == id
                                  && w.expires == expires && expires - today > p.maxWaiverDays
  {
    var c, all := Case(p, Index(waivers), today), SortFindings(fs);
    StagesEmpty(degraded);
    SortElements(fs, FindingLe);
    WarningMembers(c, all, warning);
    hide Index, Sort, SortStages, DisposeIn, WaivedOf, WaivedBy, ViolationsOf, BudgetViolations, WarningsOf;
    forall f, w
      ensures DisposeIn(c, f) == Waived(w) <==> WaivedBy(f, w, p, waivers, today)
    {
      WaiverOf(f, w, p, waivers, today);
    }
    if f :| f in fs && DisposeIn(c, f).Waived?
            && DisposeIn(c, f).waiver.expires - c.today > c.policy.maxWaiverDays
            && warning == WaiverTooLong(f.id, DisposeIn(c, f).waiver.expires) {
      assert WaivedBy(f, DisposeIn(c, f).waiver, p, waivers, today);
    }
  }

  // ----- the counts

  predicate IsCounted(f: GateFinding, s: Severity, newOnly: bool) {
    f.severity == s && (newOnly ==> f.isNew)
  }

  /** The findings of one severity, all of them or the new ones. */
  function OfSeverity(fs: seq<GateFinding>, s: Severity, newOnly: bool): set<nat> {
    set i: nat | i < |fs| && IsCounted(fs[i], s, newOnly)
  }

  function CountOf(fs: seq<GateFinding>, s: Severity, newOnly: bool): nat {
    if fs == [] then 0 else (if IsCounted(fs[0], s, newOnly) then 1 else 0) + CountOf(fs[1..], s, newOnly)
  }

  lemma {:induction false} CountSnoc(fs: seq<GateFinding>, f: GateFinding, s: Severity, newOnly: bool)
    ensures CountOf(fs + [f], s, newOnly) == CountOf(fs, s, newOnly) + if IsCounted(f, s, newOnly) then 1 else 0
  {
    if fs != [] {
      CountSnoc(fs[1..], f, s, newOnly);
      assert (fs + [f])[1..] == fs[1..] + [f];
    }
  }

  lemma {:induction false} CountOfSeverity(fs: seq<GateFinding>, s: Severity, newOnly: bool)
    ensures CountOf(fs, s, newOnly) == |OfSeverity(fs, s, newOnly)|
  {
    hide IsCounted, CountOf;
    if fs == [] {
      NothingCounted(s, newOnly);
    } else {
      var n := |fs| - 1;
      CountOfSeverity(fs[..n], s, newOnly);
      CountSnoc(fs[..n], fs[n], s, newOnly);
      assert fs[..n] + [fs[n]] == fs;
      OneMorePlace(OfSeverity(fs[..n], s, newOnly), OfSeverity(fs, s, newOnly), n, IsCounted(fs[n], s, newOnly));
    }
  }

  lemma NothingCounted(s: Severity, newOnly: bool)
    ensures CountOf([], s, newOnly) == 0 && OfSeverity([], s, newOnly) == {}
  {
  }

  lemma {:induction false} TallyCounts(fs: seq<GateFinding>, s: Severity)
    ensures Tally(fs, s) == CountOf(fs, s, false) && Tally(NewOnes(fs), s) == CountOf(fs, s, true)
  {
    hide CountOf;
    if fs == [] {
      NothingCounted(s, false);
      NothingCounted(s, true);
    } else {
      var n := |fs| - 1;
      TallyCounts(fs[..n], s);
      CountSnoc(fs[..n], fs[n], s, false);
      CountSnoc(fs[..n], fs[n], s, true);
      assert fs[..n] + [fs[n]] == fs;
      if fs[n].isNew {
        TallySnoc(NewOnes(fs[..n]), fs[n], s);
      } else {
        assert NewOnes(fs) == NewOnes(fs[..n]);
      }
    }
  }

  lemma TallySnoc(fs: seq<GateFinding>, f: GateFinding, s: Severity)
    ensures Tally(fs + [f], s) == Tally(fs, s) + if f.severity == s then 1 else 0
  {
    assert (fs + [f])[..|fs|] == fs;
  }

  lemma {:induction false} InsertCounts(f: GateFinding, fs: seq<GateFinding>, s: Severity, newOnly: bool)
    ensures CountOf(Insert(f, fs, FindingLe), s, newOnly)
         == CountOf(fs, s, newOnly) + if IsCounted(f, s, newOnly) then 1 else 0
  {
    hide FindingLe, IsCounted;
    if fs != [] && !FindingLe(f, fs[0]) {
      InsertCounts(f, fs[1..], s, newOnly);
      assert ([fs[0]] + Insert(f, fs[1..], FindingLe))[1..] == Insert(f, fs[1..], FindingLe);
    } else {
      assert ([f] + fs)[1..] == fs;
    }
  }

  lemma {:induction false} SortCounts(fs: seq<GateFinding>, s: Severity, newOnly: bool)
    ensures CountOf(Sort(fs, FindingLe), s, newOnly) == CountOf(fs, s, newOnly)
  {
    hide FindingLe, IsCounted;
    if fs != [] {
      SortCounts(fs[1..], s, newOnly);
      InsertCounts(fs[0], Sort(fs[1..], FindingLe), s, newOnly);
    }
  }

  /** `counts` maps exactly the severities that occur to how often they do. */
  ghost predicate CountsRight(counts: map<Severity, nat>, fs: seq<GateFinding>, newOnly: bool) {
    forall s :: (s in counts <==> OfSeverity(fs, s, newOnly) != {})
                && (s in counts ==> counts[s] == |OfSeverity(fs, s, newOnly)|)
  }

  lemma RightCounts(tallied: seq<GateFinding>, fs: seq<GateFinding>, newOnly: bool)
    requires forall s :: Tally(tallied, s) == |OfSeverity(fs, s, newOnly)|
    ensures CountsRight(Counts(tallied), fs, newOnly)
  {
    hide Tally, OfSeverity;
    forall s
      ensures OfSeverity(fs, s, newOnly) != {} <==> Tally(tallied, s) > 0
    {
    }
  }

  /** The summary numbers of a verdict count the findings, the new ones apart. */
  lemma CountsInPlainTerms(fs: seq<GateFinding>, p: GatePolicy, waivers: seq<Waiver>, degraded: seq<string>,
                           today: int)
    ensures var r := Evaluation(fs, p, waivers, degraded, today);
            && r.total == |fs| && r.policyName == p.name
            && CountsRight(r.counts, fs, false) && CountsRight(r.newCounts, fs, true)
  {
    var all := SortFindings(fs);
    forall s
      ensures Tally(all, s) == |OfSeverity(fs, s, false)| && Tally(NewOnes(all), s) == |OfSeverity(fs, s, true)|
    {
      TallyCounts(all, s);
      SortCounts(fs, s, false);
      SortCounts(fs, s, true);
      CountOfSeverity(fs, s, false);
      CountOfSeverity(fs, s, true);
    }
    RightCounts(all, fs, false);
    RightCounts(NewOnes(all), fs, true);
    hide Index, Sort, SortStages, DisposeIn, WaivedOf, ViolationsOf, BudgetViolations, WarningsOf, Tally, OfSeverity,
      Counts, CountsRight, Decide, DegradedViolations, NewOnes, ConsideredOf, InheritedOf;
  }

  // ----- inherited findings and stages

  /** Findings from the most severe down. */
  predicate SeverestFirst(fs: seq<GateFinding>) {
    forall i, j :: 0 <= i < j < |fs| ==> AtLeastAs(fs[i].severity, fs[j].severity)
  }

  lemma {:induction false} InheritedInOrder(c: Case, fs: seq<GateFinding>)
    requires SeverestFirst(fs)
    ensures SeverestFirst(InheritedOf(c, fs))
  {
    hide DisposeIn, AtLeastAs;
    if fs != [] {
      var n := |fs| - 1;
      InheritedInOrder(c, fs[..n]);
      forall f | f in InheritedOf(c, fs[..n])
        ensures AtLeastAs(f.severity, fs[n].severity)
      {
        InheritedMembers(c, fs[..n], f);
      }
    }
  }

  lemma SortedSeverestFirst(fs: seq<GateFinding>)
    ensures SeverestFirst(SortFindings(fs))
  {
    hide StrLe;
    FindingOrder();
    SortSorted(fs, FindingLe);
    var all := SortFindings(fs);
    hide Sort, Preorder;
    forall i, j | 0 <= i < j < |all|
      ensures AtLeastAs(all[i].severity, all[j].severity)
    {
      assert FindingLe(all[i], all[j]);
      RanksDescend(all[i].severity, all[j].severity);
    }
  }

  /**
   The inherited findings are those the policy looks at but the baseline had, from the most severe
   down; the stages are the degraded ones, each once and in order.
   */
  lemma InheritedInPlainTerms(fs: seq<GateFinding>, p: GatePolicy, waivers: seq<Waiver>, degraded: seq<string>,
                              today: int)
    ensures var r := Evaluation(fs, p, waivers, degraded, today);
            && (forall f :: f in r.inherited <==> f in fs && Live(f, p) && !InScope(f, p))
            && SeverestFirst(r.inherited)
            && (forall text :: text in r.stages <==> text in degraded)
            && NoDuplicates(r.stages) && Sorted(r.stages, StrLe)
  {
    var c, all := Case(p, Index(waivers), today), SortFindings(fs);
    SortElements(fs, FindingLe);
    SortedSeverestFirst(fs);
    InheritedInOrder(c, all);
    StagesInOrder(degraded);
    hide Index, Sort, SortStages, DisposeIn, InheritedOf, WaivedOf, ViolationsOf, BudgetViolations, WarningsOf,
      Live, InScope, SeverestFirst, Sorted, NoDuplicates;
    forall f
      ensures f in InheritedOf(c, all) <==> f in fs && Live(f, p) && !InScope(f, p)
    {
      InheritedMembers(c, all, f);
      DispositionMeaning(f, p, waivers, today);
    }
  }

  lemma StagesInOrder(degraded: seq<string>)
    ensures forall text :: text in SortStages(degraded) <==> text in degraded
    ensures NoDuplicates(SortStages(degraded)) && Sorted(SortStages(degraded), StrLe)
  {
    FirstOnesMembers(degraded);
    StringOrder();
    SortSorted(FirstOnes(degraded), StrLe);
    SortElements(FirstOnes(degraded), StrLe);
    SortNoDuplicates(FirstOnes(degraded), StrLe);
  }
}
