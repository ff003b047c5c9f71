/**
 LLM triage (core/llm/triage.py) and what it can do to the release gate
 (core/pipeline/gate.py, core/policy/engine.py).
 */
module Triage {
  import opened Options
  import opened Order
  import opened Policy
  import opened Vocab

  datatype LlmVerdict = SaysTrue | SaysFalse | SaysReview | SaysError

  datatype DetectedBy = ByRule | ByBoth

  /** A finding's row. Triage writes the status, the three model fields and `detectedBy`. */
  datatype Row = Row(
    id: string, ruleId: string, valueHash: string, category: string, title: string, valueMasked: string,
    severity: Severity, status: FindingStatus, llmVerdict: Option<LlmVerdict>, llmReasoning: string,
    llmModel: string, detectedBy: DetectedBy)

  const SEVERITY_FLOOR := High

  /** Critical and high: a model's dismissal is demoted to a review. */
  predicate AtFloor(s: Severity) {
    Rank(s) <= Rank(SEVERITY_FLOOR)
  }

  /** `apply_verdict`. */
  function ApplyVerdict(r: Row, v: LlmVerdict, reasoning: string, model: string): Row {
    var noted := r.(llmVerdict := Some(v), llmReasoning := reasoning, llmModel := model);
    match v
    case SaysError => noted
    case SaysFalse => noted.(detectedBy := ByBoth, status := if AtFloor(r.severity) then NeedsReview else FalsePositive)
    case SaysTrue => noted.(detectedBy := ByBoth, status := Confirmed)
    case SaysReview => noted.(detectedBy := ByBoth, status := NeedsReview)
  }

  type Answer = (LlmVerdict, string)
  type CacheKey = (string, string)

  datatype Counters = Counters(triaged: nat, confirmed: nat, dismissed: nat, needsReview: nat, errors: nat)

  function Counted(c: Counters, v: LlmVerdict): Counters {
    var d := c.(triaged := c.triaged + 1);
    match v
    case SaysTrue => d.(confirmed := d.confirmed + 1)
    case SaysFalse => d.(dismissed := d.dismissed + 1)
    case SaysReview => d.(needsReview := d.needsReview + 1)
    case SaysError => d.(errors := d.errors + 1)
  }

  /** One pass so far: the rows written, the answers kept by value, how many calls were made. */
  datatype Progress = Progress(rows: seq<Row>, cache: map<CacheKey, Answer>, calls: nat, counters: Counters)

  function CacheKeyOf(r: Row): CacheKey {
    (r.ruleId, r.valueHash)
  }

  /** The answer for one row: the cached one, or that of the next call. */
  function AnswerFor(p: Progress, r: Row, answers: nat -> Answer): Answer {
    if CacheKeyOf(r) in p.cache then p.cache[CacheKeyOf(r)] else answers(p.calls)
  }

  function TriageOne(p: Progress, r: Row, answers: nat -> Answer, model: string): Progress {
    var a := AnswerFor(p, r, answers);
    Progress(p.rows + [ApplyVerdict(r, a.0, a.1, model)], p.cache[CacheKeyOf(r) := a],
             if CacheKeyOf(r) in p.cache then p.calls else p.calls + 1, Counted(p.counters, a.0))
  }

  const NOT_BEGUN := Progress([], map[], 0, Counters(0, 0, 0, 0, 0))

  /** `triage_run` over rows already in its order; `answers` are whatever the model says. */
  function TriagePass(rows: seq<Row>, answers: nat -> Answer, model: string): Progress {
    if rows == [] then NOT_BEGUN
    else TriageOne(TriagePass(rows[..|rows| - 1], answers, model), rows[|rows| - 1], answers, model)
  }

  // ----- rows as objects

  class FindingRow {
    const id: string
    const ruleId: string
    const valueHash: string
    const category: string
    const title: string
    const valueMasked: string
    const severity: Severity
    var status: FindingStatus
    var llmVerdict: Option<LlmVerdict>
    var llmReasoning: string
    var llmModel: string
    var detectedBy: DetectedBy

    function View(): Row
      reads this
    {
      Row(id, ruleId, valueHash, category, title, valueMasked, severity, status, llmVerdict, llmReasoning,
          llmModel, detectedBy)
    }

    constructor (r: Row)
      ensures View() == r
    {
      id, ruleId, valueHash, category, title := r.id, r.ruleId, r.valueHash, r.category, r.title;
      valueMasked, severity, status := r.valueMasked, r.severity, r.status;
      llmVerdict, llmReasoning, llmModel, detectedBy := r.llmVerdict, r.llmReasoning, r.llmModel, r.detectedBy;
    }

    method Apply(v: LlmVerdict, reasoning: string, model: string)
      modifies this
      ensures View() == ApplyVerdict(old(View()), v, reasoning, model)
    {
      llmVerdict, llmReasoning, llmModel := Some(v), reasoning, model;
      if v == SaysError {
        return;
      }
      detectedBy := ByBoth;
      if v == SaysFalse {
        if AtFloor(severity) {
          status := NeedsReview;
        } else {
          status := FalsePositive;
        }
      } else if v == SaysTrue {
        status := Confirmed;
      } else {
        status := NeedsReview;
      }
    }
  }

  function Views(rows: seq<FindingRow>): (r: seq<Row>)
    reads set o | o in rows
    ensures |r| == |rows| && forall i :: 0 <= i < |r| ==> r[i] == rows[i].View()
  {
    seq(|rows|, i requires 0 <= i < |rows| reads rows => rows[i].View())
  }

  /** Severity first, then id. */
  predicate RowLe(a: FindingRow, b: FindingRow) {
    Rank(a.severity) < Rank(b.severity) || (Rank(a.severity) == Rank(b.severity) && StrLe(a.id, b.id))
  }

  lemma PassLength(rows: seq<Row>, answers: nat -> Answer, model: string)
    ensures |TriagePass(rows, answers, model).rows| == |rows|
  {
    hide ApplyVerdict, Counted;
  }

  lemma PassOfNone(answers: nat -> Answer, model: string)
    ensures TriagePass([], answers, model) == NOT_BEGUN
  {
  }

  lemma PassSnoc(rows: seq<Row>, i: nat, answers: nat -> Answer, model: string)
    requires i < |rows|
    ensures TriagePass(rows[..i + 1], answers, model)
         == TriageOne(TriagePass(rows[..i], answers, model), rows[i], answers, model)
  {
    hide TriageOne;
    assert rows[..i + 1][..i] == rows[..i];
  }

  method TriageRun(findings: seq<FindingRow>, answers: nat -> Answer, model: string)
      returns (counters: Counters, calls: nat)
    requires NoDuplicates(findings)
    modifies set o | o in findings
    ensures var sorted := Sort(findings, RowLe);
            var pass := TriagePass(old(Views(sorted)), answers, model);
            Views(sorted) == pass.rows && counters == pass.counters && calls == pass.calls
  {
    var sorted := Sort(findings, RowLe);
    SortElements(findings, RowLe);
    SortNoDuplicates(findings, RowLe);
    ghost var before := Views(sorted);
    counters, calls := TriageEach(sorted, before, answers, model);
    PassLength(before, answers, model);
  }

  /** The loop of `triage_run`, over the rows in order. */
  method TriageEach(rows: seq<FindingRow>, ghost before: seq<Row>, answers: nat -> Answer, model: string)
      returns (counters: Counters, calls: nat)
    requires NoDuplicates(rows) && |before| == |rows|
    requires forall k :: 0 <= k < |rows| ==> rows[k].View() == before[k]
    modifies set o | o in rows
    ensures var pass := TriagePass(before, answers, model);
            && |pass.rows| == |rows|
            && (forall k :: 0 <= k < |rows| ==> rows[k].View() == pass.rows[k])
            && counters == pass.counters && calls == pass.calls
  {
    hide ApplyVerdict, Counted, TriagePass;
    counters, calls := Counters(0, 0, 0, 0, 0), 0;
    var cache: map<CacheKey, Answer> := map[];
    ghost var done := TriagePass(before[..0], answers, model);
    PassOfNone(answers, model);
    assert before[..0] == [];
    for i := 0 to |rows|
      invariant done == Progress(done.rows, cache, calls, counters)
      invariant done == TriagePass(before[..i], answers, model)
      invariant |done.rows| == i
      invariant forall k :: 0 <= k < i ==> rows[k].View() == done.rows[k]
      invariant forall k :: i <= k < |rows| ==> rows[k].View() == before[k]
    {
      PassSnoc(before, i, answers, model);
      var finding := rows[i];
      var answer: Answer;
      var key := (finding.ruleId, finding.valueHash);
      if key in cache {
        answer := cache[key];
      } else {
        answer := answers(calls);
        calls := calls + 1;
      }
      cache := cache[key := answer];
      finding.Apply(answer.0, answer.1, model);
      counters := Counted(counters, answer.0);
      done := TriageOne(done, before[i], answers, model);
    }
    assert before[..|rows|] == before;
  }

  // ----- one pass

  function KeysOf(rows: seq<Row>): set<CacheKey> {
    set i | 0 <= i < |rows| :: CacheKeyOf(rows[i])
  }

  /** Rows whose latest model verdict is `v`. */
  function ShowingVerdict(rows: seq<Row>, v: LlmVerdict): nat {
    if rows == [] then 0
    else ShowingVerdict(rows[..|rows| - 1], v) + if rows[|rows| - 1].llmVerdict == Some(v) then 1 else 0
  }

  lemma OneKeepsAnswers(p: Progress, r: Row, answers: nat -> Answer, model: string)
    ensures var q := TriageOne(p, r, answers, model);
            && CacheKeyOf(r) in q.cache
            && q.cache.Keys == p.cache.Keys + {CacheKeyOf(r)}
            && (forall k :: k in p.cache ==> k in q.cache && q.cache[k] == p.cache[k])
            && (p.calls == |p.cache| ==> q.calls == |q.cache|)
            && |q.rows| == |p.rows| + 1 && p.rows <= q.rows && Answered(q, |p.rows|, r, model)
  {
    hide ApplyVerdict, Counted;
    var q := TriageOne(p, r, answers, model);
    assert q.cache.Keys == p.cache.Keys + {CacheKeyOf(r)};
    assert |p.cache| == |p.cache.Keys| && |q.cache| == |q.cache.Keys|;
  }

  /**
   Every row of a pass gets the one answer kept for its rule and value, so two rows with the same
   value get the same verdict; a pass makes one model call per distinct value.
   */
  lemma {:induction false} OneAnswerPerValue(rows: seq<Row>, answers: nat -> Answer, model: string)
    ensures var pass := TriagePass(rows, answers, model);
            && |pass.rows| == |rows|
            && pass.cache.Keys == KeysOf(rows)
            && pass.calls == |KeysOf(rows)|
            && forall i :: 0 <= i < |rows| ==> Answered(pass, i, rows[i], model)
  {
    hide ApplyVerdict, Counted, TriageOne, Answered;
    if rows == [] {
      assert KeysOf(rows) == {};
    } else {
      var n := |rows| - 1;
      OneAnswerPerValue(rows[..n], answers, model);
      var p, q := TriagePass(rows[..n], answers, model), TriagePass(rows, answers, model);
      OneKeepsAnswers(p, rows[n], answers, model);
      KeysSnoc(rows);
      SameSize(q.cache);
      SameSize(p.cache);
      hide KeysOf, CacheKeyOf, TriagePass;
      assert rows[..n] + [rows[n]] == rows;
      AnsweredStays(p, q, rows[..n], rows[n], model);
    }
  }

  /** Row `i` of the pass is `r` with the answer kept for its rule and value. */
  predicate Answered(pass: Progress, i: nat, r: Row, model: string) {
    && CacheKeyOf(r) in pass.cache && i < |pass.rows|
    && var a := pass.cache[CacheKeyOf(r)];
       pass.rows[i] == ApplyVerdict(r, a.0, a.1, model)
  }

  lemma AnsweredStays(p: Progress, q: Progress, rows: seq<Row>, r: Row, model: string)
    requires |p.rows| == |rows| && |q.rows| == |rows| + 1 && p.rows <= q.rows
    requires forall k :: k in p.cache ==> k in q.cache && q.cache[k] == p.cache[k]
    requires forall i :: 0 <= i < |rows| ==> Answered(p, i, rows[i], model)
    requires Answered(q, |rows|, r, model)
    ensures forall i :: 0 <= i <= |rows| ==> Answered(q, i, (rows + [r])[i], model)
  {
    hide ApplyVerdict, CacheKeyOf;
    forall i | 0 <= i <= |rows|
      ensures Answered(q, i, (rows + [r])[i], model)
    {
      if i < |rows| {
        assert Answered(p, i, rows[i], model);
      }
    }
  }

  lemma SameSize(m: map<CacheKey, Answer>)
    ensures |m| == |m.Keys|
  {
  }

  lemma KeysSnoc(rows: seq<Row>)
    requires rows != []
    ensures KeysOf(rows) == KeysOf(rows[..|rows| - 1]) + {CacheKeyOf(rows[|rows| - 1])}
  {
    hide CacheKeyOf;
    var n := |rows| - 1;
    forall k | k in KeysOf(rows)
      ensures k in KeysOf(rows[..n]) + {CacheKeyOf(rows[n])}
    {
      var i :| 0 <= i < |rows| && CacheKeyOf(rows[i]) == k;
      if i < n {
        assert rows[..n][i] == rows[i];
      }
    }
    forall k | k in KeysOf(rows[..n])
      ensures k in KeysOf(rows)
    {
      var i :| 0 <= i < n && CacheKeyOf(rows[..n][i]) == k;
      assert rows[i] == rows[..n][i];
    }
  }

  // ----- which call judges which row

  predicate SameValue(a: Row, b: Row) {
    a.ruleId == b.ruleId && a.valueHash == b.valueHash
  }

  /** Row `j` is the first of its rule and value. */
  predicate FirstOfValue(rows: seq<Row>, j: nat) {
    j < |rows| && forall k :: 0 <= k < j ==> !SameValue(rows[k], rows[j])
  }

  /** `w` is `r` as a verdict leaves it: the note always, the status unless the model failed. */
  predicate Judged(r: Row, w: Row, v: LlmVerdict, reasoning: string, model: string) {
    && w == r.(llmVerdict := Some(v), llmReasoning := reasoning, llmModel := model, status := w.status,
               detectedBy := w.detectedBy)
    && (v == SaysError ==> w.status == r.status && w.detectedBy == r.detectedBy)
    && (v != SaysError ==> w.detectedBy == ByBoth)
    && (v == SaysTrue ==> w.status == Confirmed)
    && (v == SaysReview ==> w.status == NeedsReview)
    && (v == SaysFalse ==>
          w.status == if r.severity == Critical || r.severity == High then NeedsReview else FalsePositive)
  }

  lemma VerdictJudges(r: Row, v: LlmVerdict, reasoning: string, model: string)
    ensures Judged(r, ApplyVerdict(r, v, reasoning, model), v, reasoning, model)
  {
  }

  lemma NewKey(rows: seq<Row>, r: Row)
    requires forall k :: 0 <= k < |rows| ==> !SameValue(rows[k], r)
    ensures CacheKeyOf(r) !in KeysOf(rows)
  {
  }

  /** The answer kept for a value is that of the call made at the value's first row. */
  lemma {:induction false} KeptAnswer(rows: seq<Row>, answers: nat -> Answer, model: string, j: nat)
    requires FirstOfValue(rows, j)
    ensures var pass := TriagePass(rows, answers, model);
            && CacheKeyOf(rows[j]) in pass.cache
            && pass.cache[CacheKeyOf(rows[j])] == answers(|KeysOf(rows[..j])|)
  {
    hide ApplyVerdict, Counted, KeysOf, Answered;
    var n := |rows| - 1;
    OneAnswerPerValue(rows[..n], answers, model);
    var p := TriagePass(rows[..n], answers, model);
    if j < n {
      KeptAnswer(rows[..n], answers, model, j);
      assert rows[..n][..j] == rows[..j];
      OneKeepsAnswers(p, rows[n], answers, model);
    } else {
      NewKey(rows[..n], rows[n]);
    }
  }

  /**
   A row is written with the answer to the call made when its rule and value first came up, and
   calls are numbered by the values that came up before: the first value gets the first answer, the
   next new value the next, and every later row of a value the answer of its first.
   */
  lemma AnswersInOrder(rows: seq<Row>, answers: nat -> Answer, model: string, j: nat, i: nat)
    requires FirstOfValue(rows, j) && i < |rows| && SameValue(rows[i], rows[j])
    ensures var pass, a := TriagePass(rows, answers, model), answers(|KeysOf(rows[..j])|);
            |pass.rows| == |rows| && Judged(rows[i], pass.rows[i], a.0, a.1, model)
  {
    hide ApplyVerdict, TriagePass, KeysOf, Judged;
    KeptAnswer(rows, answers, model, j);
    OneAnswerPerValue(rows, answers, model);
    var a := answers(|KeysOf(rows[..j])|);
    assert Answered(TriagePass(rows, answers, model), i, rows[i], model);
    VerdictJudges(rows[i], a.0, a.1, model);
  }

  /** Of two rows the first is judged first: the more severe one, or the one with the smaller id. */
  predicate JudgedFirst(a: FindingRow, b: FindingRow) {
    AtLeastAs(a.severity, b.severity) && (a.severity == b.severity ==> StrLe(a.id, b.id))
  }

  lemma RowOrder(a: FindingRow, b: FindingRow)
    ensures RowLe(a, b) ==> JudgedFirst(a, b)
    ensures RowLe(a, b) || JudgedFirst(b, a)
  {
    RanksDescend(a.severity, b.severity);
    RanksDescend(b.severity, a.severity);
    StrTotal(a.id, b.id);
  }

  lemma JudgedFirstTransitive(a: FindingRow, b: FindingRow, c: FindingRow)
    requires JudgedFirst(a, b) && JudgedFirst(b, c)
    ensures JudgedFirst(a, c)
  {
    if StrLe(a.id, b.id) && StrLe(b.id, c.id) {
      StrTransitive(a.id, b.id, c.id);
    }
    hide StrLe;
  }

  predicate InJudgedOrder(rows: seq<FindingRow>) {
    forall i, j :: 0 <= i < j < |rows| ==> JudgedFirst(rows[i], rows[j])
  }

  lemma {:induction false} InsertInOrder(x: FindingRow, rows: seq<FindingRow>)
    requires InJudgedOrder(rows)
    ensures InJudgedOrder(Insert(x, rows, RowLe))
  {
    hide JudgedFirst, RowLe;
    if rows != [] {
      RowOrder(x, rows[0]);
      if RowLe(x, rows[0]) {
        forall j | 0 < j < |rows|
          ensures JudgedFirst(x, rows[j])
        {
          JudgedFirstTransitive(x, rows[0], rows[j]);
        }
      } else {
        var rest := Insert(x, rows[1..], RowLe);
        InsertInOrder(x, rows[1..]);
        forall j | 0 <= j < |rest|
          ensures JudgedFirst(rows[0], rest[j])
        {
          assert rest[j] in multiset(rest);
          assert rest[j] == x || rest[j] in rows[1..];
        }
      }
    }
  }

  /** A pass goes through the findings from the most severe down, and by id within a severity. */
  lemma {:induction false} SevereRowsFirst(findings: seq<FindingRow>)
    ensures InJudgedOrder(Sort(findings, RowLe))
  {
    if findings != [] {
      SevereRowsFirst(findings[1..]);
      InsertInOrder(findings[0], Sort(findings[1..], RowLe));
    }
  }

  /** Different values are judged by different calls, in the order in which they come up. */
  lemma CallsFollowFirstRows(rows: seq<Row>, j: nat, k: nat)
    requires FirstOfValue(rows, j) && j < k <= |rows|
    ensures |KeysOf(rows[..j])| < |KeysOf(rows[..k])|
  {
    var before, after := KeysOf(rows[..j]), KeysOf(rows[..k]);
    NewKey(rows[..j], rows[j]);
    forall key | key in before + {CacheKeyOf(rows[j])}
      ensures key in after
    {
      var i :| 0 <= i <= j && CacheKeyOf(rows[i]) == key;
      assert rows[..k][i] == rows[i];
    }
    SmallerSet(before + {CacheKeyOf(rows[j])}, after);
  }

  lemma SmallerSet(a: set<CacheKey>, b: set<CacheKey>)
    requires a <= b
    ensures |a| <= |b|
  {
    assert a + (b - a) == b;
  }

  /** The counters count the rows, in all and by the verdict each row shows. */
  predicate AddsUp(p: Progress) {
    var c := p.counters;
    && c.triaged == |p.rows| == c.confirmed + c.dismissed + c.needsReview + c.errors
    && c.confirmed == ShowingVerdict(p.rows, SaysTrue)
    && c.dismissed == ShowingVerdict(p.rows, SaysFalse)
    && c.needsReview == ShowingVerdict(p.rows, SaysReview)
    && c.errors == ShowingVerdict(p.rows, SaysError)
  }

  /** The summary of a pass counts each of its rows once, under the verdict it got. */
  lemma {:induction false} CountersAddUp(rows: seq<Row>, answers: nat -> Answer, model: string)
    ensures AddsUp(TriagePass(rows, answers, model)) && |TriagePass(rows, answers, model).rows| == |rows|
  {
    if rows != [] {
      var n := |rows| - 1;
      CountersAddUp(rows[..n], answers, model);
      hide ShowingVerdict;
      OneCountsUp(TriagePass(rows[..n], answers, model), rows[n], answers, model);
      hide TriageOne;
    }
  }

  lemma OneCountsUp(p: Progress, r: Row, answers: nat -> Answer, model: string)
    requires AddsUp(p)
    ensures AddsUp(TriageOne(p, r, answers, model)) && |TriageOne(p, r, answers, model).rows| == |p.rows| + 1
  {
    var a := AnswerFor(p, r, answers);
    ShowingSnoc(p.rows, ApplyVerdict(r, a.0, a.1, model));
    hide ShowingVerdict, AnswerFor;
  }

  lemma ShowingSnoc(rows: seq<Row>, r: Row)
    ensures forall v ::
              ShowingVerdict(rows + [r], v) == ShowingVerdict(rows, v) + if r.llmVerdict == Some(v) then 1 else 0
  {
    assert (rows + [r])[..|rows|] == rows;
  }

  // ----- any number of passes over one finding

  datatype Judgement = Judgement(verdict: LlmVerdict, reasoning: string, model: string)

  function ApplyAll(r: Row, js: seq<Judgement>): Row {
    if js == [] then r
    else
      var j := js[|js| - 1];
      ApplyVerdict(ApplyAll(r, js[..|js| - 1]), j.verdict, j.reasoning, j.model)
  }

  /** The last verdict that was not an error: the one the status still shows. */
  function Standing(js: seq<Judgement>): Option<LlmVerdict> {
    if js == [] then None
    else if js[|js| - 1].verdict == SaysError then Standing(js[..|js| - 1])
    else Some(js[|js| - 1].verdict)
  }

  predicate OpenRow(r: Row) {
    r.status != FalsePositive && r.status != AcceptedRisk && r.status != Fixed
  }

  lemma {:induction false} StatusAfter(r: Row, js: seq<Judgement>)
    ensures var s := ApplyAll(r, js);
            && s.status == (match Standing(js)
                            case None => r.status
                            case Some(v) => ApplyVerdict(r, v, "", "").status)
            && s.llmVerdict == (if js == [] then r.llmVerdict else Some(js[|js| - 1].verdict))
            && s.severity == r.severity && s.id == r.id && s.ruleId == r.ruleId && s.category == r.category
            && s.title == r.title && s.valueMasked == r.valueMasked && s.valueHash == r.valueHash
  {
    if js != [] {
      StatusAfter(r, js[..|js| - 1]);
    }
  }

  /** `collect_gate_findings`, one finding: `llm_dismissed` is the latest verdict, not the standing one. */
  function Project(r: Row, baseline: set<string>, paths: map<string, string>): GateFinding {
    GateFinding(r.id, r.ruleId, r.category, r.title, r.severity, r.status, r.id !in baseline,
                r.llmVerdict == Some(SaysFalse), if r.id in paths then paths[r.id] else "", r.valueMasked)
  }

  /** The standing verdict dismissed the finding, and the gate cannot or does not undo that. */
  predicate Hides(r: Row, js: seq<Judgement>, trusted: bool) {
    !AtFloor(r.severity) && Standing(js) == Some(SaysFalse) && (js[|js| - 1].verdict != SaysFalse || trusted)
  }

  lemma {:induction false} StandingIsSome(js: seq<Judgement>)
    ensures Standing(js).Some? ==> js != [] && Standing(js) != Some(SaysError)
  {
    if js != [] {
      StandingIsSome(js[..|js| - 1]);
    }
  }

  /**
   Exactly when model verdicts take an open finding away from the gate, under any policy and after
   any verdicts: it is below the floor, the last verdict that was not an error is a dismissal, and
   either an error came after it or the policy trusts dismissals.
   */
  lemma WhenTriageHidesAFinding(r: Row, js: seq<Judgement>, p: GatePolicy, baseline: set<string>,
        paths: map<string, string>)
    requires OpenRow(r)
    ensures Standing(js).Some? ==> js != []
    ensures IsActionable(Project(ApplyAll(r, js), baseline, paths), p) <==> !Hides(r, js, p.trustLlmDismissals)
  {
    StatusAfter(r, js);
    StandingIsSome(js);
  }

  // ----- any number of passes over a run

  /** One pass: whatever the model answered, call by call. */
  datatype ModelPass = ModelPass(answers: nat -> Answer, model: string)

  function RunPasses(rows: seq<Row>, passes: seq<ModelPass>): seq<Row> {
    if passes == [] then rows
    else
      var last := passes[|passes| - 1];
      TriagePass(RunPasses(rows, passes[..|passes| - 1]), last.answers, last.model).rows
  }

  function JudgementIn(rows: seq<Row>, pass: ModelPass, i: nat): Judgement
    requires i < |rows|
  {
    OneAnswerPerValue(rows, pass.answers, pass.model);
    var a := TriagePass(rows, pass.answers, pass.model).cache[CacheKeyOf(rows[i])];
    Judgement(a.0, a.1, pass.model)
  }

  lemma {:induction false} PassesKeepRows(rows: seq<Row>, passes: seq<ModelPass>)
    ensures |RunPasses(rows, passes)| == |rows|
  {
    if passes != [] {
      var n := |passes| - 1;
      PassesKeepRows(rows, passes[..n]);
      PassLength(RunPasses(rows, passes[..n]), passes[n].answers, passes[n].model);
    }
  }

  /** What the passes said about row `i`, in order. */
  function JudgementsOf(rows: seq<Row>, passes: seq<ModelPass>, i: nat): (js: seq<Judgement>)
    requires i < |rows|
    ensures |js| == |passes|
  {
    if passes == [] then []
    else
      var n := |passes| - 1;
      PassesKeepRows(rows, passes[..n]);
      JudgementsOf(rows, passes[..n], i) + [JudgementIn(RunPasses(rows, passes[..n]), passes[n], i)]
  }

  /** Passes act on each row alone: by the verdicts that row got. */
  lemma {:induction false} PassesJudgeEachRow(rows: seq<Row>, passes: seq<ModelPass>, i: nat)
    requires i < |rows|
    ensures |RunPasses(rows, passes)| == |rows|
    ensures RunPasses(rows, passes)[i] == ApplyAll(rows[i], JudgementsOf(rows, passes, i))
  {
    hide ApplyVerdict, TriagePass;
    PassesKeepRows(rows, passes);
    if passes != [] {
      var n := |passes| - 1;
      PassesJudgeEachRow(rows, passes[..n], i);
      var before := RunPasses(rows, passes[..n]);
      OneAnswerPerValue(before, passes[n].answers, passes[n].model);
      var js, j := JudgementsOf(rows, passes[..n], i), JudgementIn(before, passes[n], i);
      assert (js + [j])[..n] == js;
    }
  }

  function ProjectAll(rows: seq<Row>, baseline: set<string>, paths: map<string, string>): (fs: seq<GateFinding>)
    ensures |fs| == |rows| && forall i :: 0 <= i < |rows| ==> fs[i] == Project(rows[i], baseline, paths)
  {
    seq(|rows|, i requires 0 <= i < |rows| => Project(rows[i], baseline, paths))
  }

  // ----- what the gate sees of a finding

  /** The policy cannot tell the two apart. */
  predicate Alike(p: GatePolicy, a: GateFinding, b: GateFinding) {
    && a.id == b.id && a.ruleId == b.ruleId && a.category == b.category
    && a.severity == b.severity && a.isNew == b.isNew
    && IsActionable(a, p) == IsActionable(b, p)
  }

  ghost predicate AllAlike(p: GatePolicy, fa: seq<GateFinding>, fb: seq<GateFinding>) {
    |fa| == |fb| && forall i :: 0 <= i < |fa| ==> Alike(p, fa[i], fb[i])
  }

  lemma AlikeDisposed(c: Case, a: GateFinding, b: GateFinding)
    requires Alike(c.policy, a, b)
    ensures Violates(c, a) == Violates(c, b)
    ensures DisposeIn(c, a).UnderFloor? == DisposeIn(c, b).UnderFloor?
  {
  }

  lemma {:induction false} AlikeCounts(c: Case, fa: seq<GateFinding>, fb: seq<GateFinding>, s: Severity)
    requires AllAlike(c.policy, fa, fb)
    ensures UnderFloorCount(c, fa, s) == UnderFloorCount(c, fb, s)
  {
    hide DisposeIn, Alike;
    if fa != [] {
      var n := |fa| - 1;
      AlikeCounts(c, fa[..n], fb[..n], s);
      AlikeDisposed(c, fa[n], fb[n]);
      AlikeSeverity(c.policy, fa[n], fb[n]);
    }
  }

  lemma AlikeSeverity(p: GatePolicy, a: GateFinding, b: GateFinding)
    requires Alike(p, a, b)
    ensures a.severity == b.severity
  {
  }

  lemma AlikeViolates(c: Case, fa: seq<GateFinding>, fb: seq<GateFinding>)
    requires AllAlike(c.policy, fa, fb) && SomeViolate(c, fa)
    ensures SomeViolate(c, fb)
  {
    hide Violates, Alike;
    var f :| f in fa && Violates(c, f);
    var i :| 0 <= i < |fa| && fa[i] == f;
    AlikeDisposed(c, f, fb[i]);
    assert fb[i] in fb;
  }

  lemma AlikeMirror(p: GatePolicy, fa: seq<GateFinding>, fb: seq<GateFinding>)
    requires AllAlike(p, fa, fb)
    ensures AllAlike(p, fb, fa)
  {
  }

  /** The decision depends on no more of a finding than its id, rule, category, severity, newness and actionability. */
  lemma AlikeDecides(
      fa: seq<GateFinding>, fb: seq<GateFinding>, p: GatePolicy, waivers: seq<Waiver>, degraded: seq<string>,
      today: int)
    requires AllAlike(p, fa, fb)
    ensures Evaluation(fa, p, waivers, degraded, today).decision == Evaluation(fb, p, waivers, degraded, today).decision
  {
    var c := Case(p, Index(waivers), today);
    DecisionMeaning(fa, p, waivers, degraded, today);
    DecisionMeaning(fb, p, waivers, degraded, today);
    hide Evaluation, AllAlike, SomeViolate, UnderFloorCount;
    forall s
      ensures Overspent(c, fa, s) == Overspent(c, fb, s)
    {
      AlikeCounts(c, fa, fb, s);
    }
    AlikeMirror(p, fa, fb);
    if SomeViolate(c, fa) {
      AlikeViolates(c, fa, fb);
    }
    if SomeViolate(c, fb) {
      AlikeViolates(c, fb, fa);
    }
  }

  // ----- triage and the gate

  /** The gate's decision for the rows of a run. */
  function DecisionFor(rows: seq<Row>, g: GateInput): Decision {
    Evaluation(ProjectAll(rows, g.baseline, g.paths), g.policy, g.waivers, g.degraded, g.today).decision
  }

  datatype GateInput = GateInput(
    policy: GatePolicy, waivers: seq<Waiver>, degraded: seq<string>, today: int, baseline: set<string>,
        paths: map<string, string>)

  /** Whatever the model says in any number of passes, a run none of whose findings it hides is decided as before. */
  lemma TriageKeepsDecision(rows: seq<Row>, passes: seq<ModelPass>, g: GateInput)
    requires forall i :: 0 <= i < |rows| ==> OpenRow(rows[i])
    requires forall i :: 0 <= i < |rows| ==> !Hides(rows[i], JudgementsOf(rows, passes, i), g.policy.trustLlmDismissals)
    ensures DecisionFor(RunPasses(rows, passes), g) == DecisionFor(rows, g)
  {
    hide Evaluation, RunPasses, JudgementsOf, Hides, OpenRow, Alike, Project;
    PassesKeepRows(rows, passes);
    var fa, fb := ProjectAll(rows, g.baseline, g.paths), ProjectAll(RunPasses(rows, passes), g.baseline, g.paths);
    forall i | 0 <= i < |rows|
      ensures Alike(g.policy, fa[i], fb[i])
    {
      PassesJudgeEachRow(rows, passes, i);
      JudgedAlike(rows[i], JudgementsOf(rows, passes, i), g);
    }
    AlikeDecides(fa, fb, g.policy, g.waivers, g.degraded, g.today);
  }

  lemma JudgedAlike(r: Row, js: seq<Judgement>, g: GateInput)
    requires OpenRow(r) && !Hides(r, js, g.policy.trustLlmDismissals)
    ensures Alike(g.policy, Project(r, g.baseline, g.paths), Project(ApplyAll(r, js), g.baseline, g.paths))
  {
    StatusAfter(r, js);
    WhenTriageHidesAFinding(r, js, g.policy, g.baseline, g.paths);
    hide ApplyAll, Hides;
  }

  /**
   No model answers, in any number of passes, move the decision on open critical and high findings, under
   any policy.
   */
  lemma SevereFindingsStay(rows: seq<Row>, passes: seq<ModelPass>, g: GateInput)
    requires forall i :: 0 <= i < |rows| ==> OpenRow(rows[i]) && AtFloor(rows[i].severity)
    ensures DecisionFor(RunPasses(rows, passes), g) == DecisionFor(rows, g)
  {
    TriageKeepsDecision(rows, passes, g);
  }

  /** Where dismissals are not trusted, one pass over open findings of any severity leaves the decision as it was. */
  lemma OnePassKeepsDecision(rows: seq<Row>, pass: ModelPass, g: GateInput)
    requires forall i :: 0 <= i < |rows| ==> OpenRow(rows[i])
    requires !g.policy.trustLlmDismissals
    ensures DecisionFor(RunPasses(rows, [pass]), g) == DecisionFor(rows, g)
  {
    forall i | 0 <= i < |rows|
      ensures !Hides(rows[i], JudgementsOf(rows, [pass], i), false)
    {
      OneVerdictDoesNotHide(rows[i], JudgementsOf(rows, [pass], i));
    }
    hide DecisionFor, RunPasses, JudgementsOf, Hides;
    TriageKeepsDecision(rows, [pass], g);
  }

  lemma OneVerdictDoesNotHide(r: Row, js: seq<Judgement>)
    requires |js| == 1
    ensures !Hides(r, js, false)
  {
    assert js[..|js| - 1] == [];
    assert Standing([]) == None;
  }

  const FLOOR_AT_MEDIUM := GatePolicy("medium", Some(Medium), {}, {}, Budgets(-1, -1, -1, -1, -1), All, FailClosed,
      false, 90)

  function Always(v: LlmVerdict): ModelPass {
    ModelPass((call: nat) => (v, "reason"), "model")
  }

  /**
   Two passes can: a dismissal followed by an error overwrites the verdict that kept the gate from
   believing it, while the dismissed status stays.
   */
  lemma TwoPassesOpenTheGate(r: Row, baseline: set<string>, paths: map<string, string>, today: int)
    requires OpenRow(r) && r.severity == Medium
    ensures var g := GateInput(FLOOR_AT_MEDIUM, [], [], today, baseline, paths);
            && DecisionFor([r], g) == Blocked
            && DecisionFor(RunPasses([r], [Always(SaysFalse)]), g) == Blocked
            && DecisionFor(RunPasses([r], [Always(SaysFalse), Always(SaysError)]), g) == Pass
  {
    var g := GateInput(FLOOR_AT_MEDIUM, [], [], today, baseline, paths);
    var once := ApplyVerdict(r, SaysFalse, "reason", "model");
    var twice := ApplyVerdict(once, SaysError, "reason", "model");
    OneRowPass(r, SaysFalse);
    OneRowPass(once, SaysError);
    PassesOfOneAndTwo([r], Always(SaysFalse), Always(SaysError));
    hide RunPasses, TriagePass;
    OneMedium(r, g);
    OneMedium(once, g);
    OneMedium(twice, g);
  }

  lemma OneRowPass(r: Row, v: LlmVerdict)
    ensures TriagePass([r], Always(v).answers, "model").rows == [ApplyVerdict(r, v, "reason", "model")]
  {
    assert [r][..0] == [];
  }

  lemma PassesOfOneAndTwo(rows: seq<Row>, first: ModelPass, second: ModelPass)
    ensures var once := TriagePass(rows, first.answers, first.model).rows;
            && RunPasses(rows, [first]) == once
            && RunPasses(rows, [first, second]) == TriagePass(once, second.answers, second.model).rows
  {
    assert [first][..0] == [] && [first, second][..1] == [first];
  }

  lemma OneMedium(r: Row, g: GateInput)
    requires r.severity == Medium && g.policy == FLOOR_AT_MEDIUM && g.waivers == [] && g.degraded == []
    ensures DecisionFor([r], g) == if IsActionable(Project(r, g.baseline, g.paths), g.policy) then Blocked else Pass
  {
    var f, c := Project(r, g.baseline, g.paths), Case(g.policy, map[], g.today);
    assert ProjectAll([r], g.baseline, g.paths) == [f];
    DecisionMeaning([f], g.policy, [], [], g.today);
    assert Violates(c, f) == IsActionable(f, g.policy);
    assert f in [f];
    assert forall s :: !Overspent(c, [f], s);
    hide Evaluation, IsActionable, Violates;
    if SomeViolate(c, [f]) {
      assert Violates(c, f);
    }
  }
}
