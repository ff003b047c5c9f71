/**
 What a correlated finding says (core/pipeline/correlator.py): the words of its rule, the confidence
 its evidence earns, and what it shows of that evidence.
 */
module CorrelatedFindings {
  import opened CorrelationOrder
  import opened Correlator
  import opened Options
  import opened Order
  import opened Vocab

  // ----- groups of evidence

  predicate Of(e: Evidence, key: Key) {
    e.ruleId == key.0 && e.valueHash == key.1
  }

  function WhereIs(ctx: Context, artifactId: string): string {
    if artifactId in ctx.paths then ctx.paths[artifactId] else ""
  }

  /** The evidence of a group, by its places in the list. */
  function PiecesOf(evidence: seq<Evidence>, key: Key): set<nat> {
    set i: nat | i < |evidence| && Of(evidence[i], key)
  }

  ghost predicate Unsuppressed(ctx: Context, key: Key, path: string) {
    forall s :: s in ctx.suppressions && s.ruleId == key.0 && s.valueHash == key.1 ==>
      s.pathPattern != "*" && !ctx.matches(path, s.pathPattern)
  }

  /** Evidence that nothing of its group sorts before. */
  ghost predicate Leads(evidence: seq<Evidence>, e: Evidence, key: Key) {
    e in evidence && Of(e, key) && LeadsGroup(evidence, e)
  }

  lemma GroupOf(evidence: seq<Evidence>, key: Key)
    ensures forall e :: e in Group(Sort(evidence, EvidenceLe), key) <==> e in evidence && Of(e, key)
  {
    var sorted := Sort(evidence, EvidenceLe);
    SortElements(evidence, EvidenceLe);
    hide Group, Sort;
    forall e | e in evidence && Of(e, key)
      ensures e in Group(sorted, key)
    {
      GroupMembers(sorted, e);
    }
  }

  lemma HeadLeads(evidence: seq<Evidence>, key: Key)
    requires Group(Sort(evidence, EvidenceLe), key) != []
    ensures Leads(evidence, Group(Sort(evidence, EvidenceLe), key)[0], key)
  {
    GroupHeadLeads(evidence, key);
    GroupOf(evidence, key);
    hide Group, Sort, LeadsGroup;
    assert Group(Sort(evidence, EvidenceLe), key)[0] in Group(Sort(evidence, EvidenceLe), key);
  }

  lemma LeadersAreTied(evidence: seq<Evidence>, a: Evidence, b: Evidence, key: Key)
    requires Leads(evidence, a, key) && Leads(evidence, b, key)
    ensures Tied(a, b)
  {
    hide EvidenceLe;
    var i :| 0 <= i < |evidence| && evidence[i] == a;
    var j :| 0 <= j < |evidence| && evidence[j] == b;
    EqualKeys(a, b);
  }

  lemma SuppressionMeaning(ctx: Context, key: Key, path: string)
    ensures IsSuppressed(ctx, key, path) <==> !Unsuppressed(ctx, key, path)
  {
    if !Unsuppressed(ctx, key, path) {
      var s :| s in ctx.suppressions && s.ruleId == key.0 && s.valueHash == key.1
               && (s.pathPattern == "*" || ctx.matches(path, s.pathPattern));
      var i :| 0 <= i < |ctx.suppressions| && ctx.suppressions[i] == s;
      assert Suppresses(ctx, ctx.suppressions[i], key, path);
    }
  }

  /**
   A value is reported under a rule exactly when the rule is known, there is evidence of it, and no
   suppression covers it at the path of its leading evidence.
   */
  lemma WhenAGroupIsReported(ctx: Context, evidence: seq<Evidence>, key: Key)
    ensures Survives(ctx, Sort(evidence, EvidenceLe), key)
       <==> && key.0 in ctx.rules
            && exists e :: Leads(evidence, e, key) && Unsuppressed(ctx, key, WhereIs(ctx, e.artifactId))
  {
    var g := Group(Sort(evidence, EvidenceLe), key);
    GroupOf(evidence, key);
    if g != [] {
      HeadLeads(evidence, key);
      SuppressionMeaning(ctx, key, WhereIs(ctx, g[0].artifactId));
    }
    hide Group, Sort, IsSuppressed, Unsuppressed, LeadsGroup;
    if e :| Leads(evidence, e, key) && Unsuppressed(ctx, key, WhereIs(ctx, e.artifactId)) {
      assert e in g;
      LeadersAreTied(evidence, g[0], e, key);
    }
  }

  // ----- how many pieces

  lemma {:induction false} PiecesOfGroup(items: seq<Evidence>, key: Key)
    ensures |Group(items, key)| == |PiecesOf(items, key)|
  {
    if items == [] {
      assert PiecesOf(items, key) == {};
    } else {
      var n := |items| - 1;
      PiecesOfGroup(items[..n], key);
      OneMorePlace(PiecesOf(items[..n], key), PiecesOf(items, key), n, Of(items[n], key));
    }
  }

  lemma {:induction false} InsertedGroup(x: Evidence, items: seq<Evidence>, key: Key)
    ensures |Group(Insert(x, items, EvidenceLe), key)| == |Group([x] + items, key)|
  {
    hide EvidenceLe, Group;
    if items != [] && !EvidenceLe(x, items[0]) {
      InsertedGroup(x, items[1..], key);
      GroupConcat([items[0]], Insert(x, items[1..], EvidenceLe), key);
      GroupConcat([x], items[1..], key);
      GroupConcat([items[0]], items[1..], key);
      GroupConcat([x], items, key);
      assert items == [items[0]] + items[1..];
    }
  }

  lemma {:induction false} SortedGroup(items: seq<Evidence>, key: Key)
    ensures |Group(Sort(items, EvidenceLe), key)| == |Group(items, key)|
  {
    hide EvidenceLe, Group;
    if items != [] {
      var rest := Sort(items[1..], EvidenceLe);
      SortedGroup(items[1..], key);
      InsertedGroup(items[0], rest, key);
      GroupConcat([items[0]], rest, key);
      GroupConcat([items[0]], items[1..], key);
      assert items == [items[0]] + items[1..];
    }
  }

  // ----- the confidence

  ghost predicate SomeStrong(evidence: seq<Evidence>, key: Key) {
    exists e :: e in evidence && Of(e, key) && e.entropy.Some? && e.entropy.value >= 4.5
  }

  /** There are entropies, and all are low. */
  ghost predicate AllWeak(evidence: seq<Evidence>, key: Key) {
    && (exists e :: e in evidence && Of(e, key) && e.entropy.Some?)
    && forall e :: e in evidence && Of(e, key) && e.entropy.Some? ==> e.entropy.value <= 2.5
  }

  ghost predicate SomeWide(evidence: seq<Evidence>, key: Key) {
    exists e :: e in evidence && Of(e, key) && e.encoding == "utf-16le"
  }

  function Clamped(x: real): real {
    if x < 0.05 then 0.05 else if x > 0.99 then 0.99 else x
  }

  /**
   Raised by a strong entropy, lowered where all are weak and the rule asks for none, raised by a
   second piece and by a wide one, and clamped.
   */
  function Earned(rule: Rule, strong: bool, weak: bool, several: bool, wide: bool): real {
    Clamped(rule.confidence + (if strong then 0.15 else if weak && rule.minEntropy == 0.0 then -0.15 else 0.0)
            + (if several then 0.05 else 0.0) + (if wide then 0.05 else 0.0))
  }

  /** The confidence that a rule and the evidence of a value earn. */
  ghost predicate IsConfidence(rule: Rule, evidence: seq<Evidence>, key: Key, c: real) {
    c == Earned(rule, SomeStrong(evidence, key), AllWeak(evidence, key), |PiecesOf(evidence, key)| > 1,
                SomeWide(evidence, key))
  }

  lemma PeakMeaning(evidence: seq<Evidence>, key: Key, items: seq<Evidence>)
    requires forall e :: e in items <==> e in evidence && Of(e, key)
    ensures SomeStrong(evidence, key) <==> Peak(items).Some? && Peak(items).value >= 4.5
    ensures AllWeak(evidence, key) <==> Peak(items).Some? && Peak(items).value <= 2.5
    ensures SomeWide(evidence, key) <==> AnyWide(items)
  {
    PeakIsGreatest(items);
    hide Peak;
    if SomeWide(evidence, key) {
      var e :| e in evidence && Of(e, key) && e.encoding == "utf-16le";
      var i :| 0 <= i < |items| && items[i] == e;
    }
    if AnyWide(items) {
      var i :| 0 <= i < |items| && items[i].encoding == "utf-16le";
      assert items[i] in items;
    }
  }

  lemma ScoreEarned(rule: Rule, items: seq<Evidence>)
    ensures var peak := Peak(items);
            Score(rule, items) == Earned(rule, peak.Some? && peak.value >= 4.5, peak.Some? && peak.value <= 2.5,
                                         |items| > 1, AnyWide(items))
  {
    hide Peak, AnyWide;
  }

  lemma ScoreMeaning(rule: Rule, evidence: seq<Evidence>, key: Key)
    ensures IsConfidence(rule, evidence, key, Score(rule, Group(Sort(evidence, EvidenceLe), key)))
  {
    var items := Group(Sort(evidence, EvidenceLe), key);
    hide Group, Sort, Score, Peak, AnyWide, SomeStrong, AllWeak, SomeWide, PiecesOf, Earned;
    GroupOf(evidence, key);
    PeakMeaning(evidence, key, items);
    SortedGroup(evidence, key);
    PiecesOfGroup(evidence, key);
    ScoreEarned(rule, items);
  }

  // ----- the finding of a value

  /** What every finding takes from its rule. */
  predicate CarriesRule(f: Finding, rule: Rule) {
    && f.severity == rule.severity && f.category == rule.category && f.cwe == rule.cwe
    && f.remediation == rule.remediation
  }

  /** The finding of one value: its rule's words, its evidence's confidence, its leading evidence's face. */
  ghost predicate DescribesValue(ctx: Context, evidence: seq<Evidence>, key: Key, f: Finding) {
    && key.0 in ctx.rules && f.ruleId == key.0 && f.valueHash == key.1
    && CarriesRule(f, ctx.rules[key.0]) && f.title == Named(ctx.rules[key.0].name) && f.tags == ctx.rules[key.0].tags
    && IsConfidence(ctx.rules[key.0], evidence, key, f.confidence)
    && exists e :: && Leads(evidence, e, key) && f.shown == OneValue(e.valueMasked) && f.entropy == e.entropy
                   && f.context == e.context
                   && f.id == ctx.ids(key.0, key.1, WhereIs(ctx, e.artifactId),
                                      if e.offset.Some? then e.offset.value else 0)
  }

  lemma FindingDescribes(ctx: Context, evidence: seq<Evidence>, key: Key, items: seq<Evidence>)
    requires items != [] && key.0 in ctx.rules && Leads(evidence, items[0], key)
    requires IsConfidence(ctx.rules[key.0], evidence, key, Score(ctx.rules[key.0], items))
    ensures DescribesValue(ctx, evidence, key, FindingOf(ctx, ctx.rules[key.0], items))
  {
    hide Score, IsConfidence, LeadsGroup;
    assert Of(items[0], key);
  }

  lemma CaseFinding(ctx: Context, sorted: seq<Evidence>, key: Key)
    requires Survives(ctx, sorted, key)
    ensures var items := Group(sorted, key);
            && items != [] && key.0 in ctx.rules
            && CaseOf(ctx, sorted, key).finding == FindingOf(ctx, ctx.rules[key.0], items)
  {
    hide Group, FindingOf, FirstAt, IsSuppressed;
  }

  lemma ValueFinding(ctx: Context, evidence: seq<Evidence>, key: Key)
    requires Survives(ctx, Sort(evidence, EvidenceLe), key)
    ensures DescribesValue(ctx, evidence, key, CaseOf(ctx, Sort(evidence, EvidenceLe), key).finding)
  {
    var sorted := Sort(evidence, EvidenceLe);
    hide *;
    CaseFinding(ctx, sorted, key);
    HeadLeads(evidence, key);
    ScoreMeaning(ctx.rules[key.0], evidence, key);
    FindingDescribes(ctx, evidence, key, Group(sorted, key));
  }

  // ----- the values of a rule

  /** The values of a rule that are reported. */
  function ValuesOf(ctx: Context, evidence: seq<Evidence>, ruleId: string): set<string> {
    set e | e in evidence && e.ruleId == ruleId && Survives(ctx, Sort(evidence, EvidenceLe), (ruleId, e.valueHash))
      :: e.valueHash
  }

  function ValuesAmong(ctx: Context, sorted: seq<Evidence>, keys: seq<Key>, ruleId: string): set<string> {
    set i | 0 <= i < |keys| && keys[i].0 == ruleId && Survives(ctx, sorted, keys[i]) :: keys[i].1
  }

  lemma ValuesSnoc(ctx: Context, sorted: seq<Evidence>, keys: seq<Key>, ruleId: string)
    requires keys != [] && NoDuplicates(keys)
    ensures var n := |keys| - 1;
            |ValuesAmong(ctx, sorted, keys, ruleId)|
            == |ValuesAmong(ctx, sorted, keys[..n], ruleId)|
               + if keys[n].0 == ruleId && Survives(ctx, sorted, keys[n]) then 1 else 0
  {
    hide Survives;
    var n := |keys| - 1;
    var few, many := ValuesAmong(ctx, sorted, keys[..n], ruleId), ValuesAmong(ctx, sorted, keys, ruleId);
    forall h
      ensures h in many <==> h in few || (keys[n] == (ruleId, h) && Survives(ctx, sorted, keys[n]))
    {
      if h in few {
        var i :| 0 <= i < n && keys[..n][i] == (ruleId, h) && Survives(ctx, sorted, keys[..n][i]);
        assert keys[i] == (ruleId, h);
      }
    }
    if keys[n].0 == ruleId && Survives(ctx, sorted, keys[n]) {
      assert keys[n].1 !in few by {
        assert forall i :: 0 <= i < n ==> keys[..n][i] != keys[n];
      }
      assert many == few + {keys[n].1};
    } else {
      assert many == few;
    }
  }

  lemma {:induction false} CasesCount(ctx: Context, sorted: seq<Evidence>, keys: seq<Key>, ruleId: string)
    requires NoDuplicates(keys)
    ensures |CasesOf(GroupCases(ctx, sorted, keys), ruleId)| == |ValuesAmong(ctx, sorted, keys, ruleId)|
  {
    hide Survives, CaseOf, CasesOf, ValuesAmong;
    if keys == [] {
      NoValues(ctx, sorted, ruleId);
    } else {
      var n := |keys| - 1;
      CasesCount(ctx, sorted, keys[..n], ruleId);
      ValuesSnoc(ctx, sorted, keys, ruleId);
      if Survives(ctx, sorted, keys[n]) {
        CaseIsWellFormed(ctx, sorted, keys[n]);
        CasesOfOneMore(GroupCases(ctx, sorted, keys[..n]), CaseOf(ctx, sorted, keys[n]), ruleId);
      } else {
        assert GroupCases(ctx, sorted, keys) == GroupCases(ctx, sorted, keys[..n]);
      }
    }
  }

  lemma NoValues(ctx: Context, sorted: seq<Evidence>, ruleId: string)
    ensures ValuesAmong(ctx, sorted, [], ruleId) == {} && CasesOf([], ruleId) == []
  {
  }

  lemma ValueHasKey(ctx: Context, evidence: seq<Evidence>, ruleId: string, h: string)
    ensures h in ValuesAmong(ctx, Sort(evidence, EvidenceLe), SortedKeys(Sort(evidence, EvidenceLe)), ruleId)
       <==> Survives(ctx, Sort(evidence, EvidenceLe), (ruleId, h))
    ensures h in ValuesOf(ctx, evidence, ruleId) <==> Survives(ctx, Sort(evidence, EvidenceLe), (ruleId, h))
  {
    var sorted := Sort(evidence, EvidenceLe);
    var keys := SortedKeys(sorted);
    SortElements(evidence, EvidenceLe);
    if Survives(ctx, sorted, (ruleId, h)) {
      SurvivorIsKey(ctx, sorted, (ruleId, h));
      var i :| 0 <= i < |keys| && keys[i] == (ruleId, h);
      var e := Group(sorted, (ruleId, h))[0];
      assert e in evidence && e.ruleId == ruleId && e.valueHash == h;
    }
    hide Survives, Keys, Sort;
  }

  lemma ValuesAgree(ctx: Context, evidence: seq<Evidence>, ruleId: string)
    ensures ValuesAmong(ctx, Sort(evidence, EvidenceLe), SortedKeys(Sort(evidence, EvidenceLe)), ruleId)
         == ValuesOf(ctx, evidence, ruleId)
  {
    hide *;
    forall h
      ensures h in ValuesAmong(ctx, Sort(evidence, EvidenceLe), SortedKeys(Sort(evidence, EvidenceLe)), ruleId)
         <==> h in ValuesOf(ctx, evidence, ruleId)
    {
      ValueHasKey(ctx, evidence, ruleId, h);
    }
  }

  /** A rule has as many cases as reported values. */
  lemma CasesAreValues(ctx: Context, evidence: seq<Evidence>, ruleId: string)
    ensures |CasesOf(AllGroupCases(ctx, Sort(evidence, EvidenceLe)), ruleId)| == |ValuesOf(ctx, evidence, ruleId)|
  {
    var sorted := Sort(evidence, EvidenceLe);
    hide Survives, CasesOf, GroupCases, Keys, Sort, ValuesAmong, ValuesOf, NoDuplicates;
    KeysAreKeys(sorted);
    SortNoDuplicates(Keys(sorted), KeyLe);
    CasesCount(ctx, sorted, SortedKeys(sorted), ruleId);
    ValuesAgree(ctx, evidence, ruleId);
  }

  // ----- clusters

  lemma {:induction false} ConfidenceIsGreatest(cases: seq<Case>)
    requires cases != []
    ensures forall i :: 0 <= i < |cases| ==> cases[i].finding.confidence <= MaxConfidence(cases)
    ensures exists i :: 0 <= i < |cases| && cases[i].finding.confidence == MaxConfidence(cases)
  {
    var n := |cases| - 1;
    if n > 0 {
      ConfidenceIsGreatest(cases[..n]);
      if MaxConfidence(cases[..n]) >= cases[n].finding.confidence {
        var i :| 0 <= i < n && cases[..n][i].finding.confidence == MaxConfidence(cases[..n]);
        assert cases[i].finding.confidence == MaxConfidence(cases);
      }
    }
  }

  lemma CaseIdOrder()
    ensures Preorder(CaseIdLe)
  {
    StringOrder();
    hide StrLe;
  }

  /** The finding of value `h`. */
  ghost predicate IsValueOf(ctx: Context, evidence: seq<Evidence>, ruleId: string, h: string, f: Finding) {
    h in ValuesOf(ctx, evidence, ruleId) && DescribesValue(ctx, evidence, (ruleId, h), f)
  }

  lemma CaseHasValue(ctx: Context, evidence: seq<Evidence>, ruleId: string, c: Case)
    requires c in CasesOf(AllGroupCases(ctx, Sort(evidence, EvidenceLe)), ruleId)
    ensures IsValueOf(ctx, evidence, ruleId, c.finding.valueHash, c.finding)
  {
    var sorted := Sort(evidence, EvidenceLe);
    hide *;
    CasesOfMembers(AllGroupCases(ctx, sorted), ruleId, c);
    var k := GroupCaseOrigin(ctx, sorted, c);
    CaseIsWellFormed(ctx, sorted, k);
    ValueHasKey(ctx, evidence, ruleId, k.1);
    ValueFinding(ctx, evidence, k);
    assert k == (ruleId, k.1);
    ItIsValueOf(ctx, evidence, ruleId, k.1, c.finding);
  }

  lemma ItIsValueOf(ctx: Context, evidence: seq<Evidence>, ruleId: string, h: string, f: Finding)
    requires h in ValuesOf(ctx, evidence, ruleId) && DescribesValue(ctx, evidence, (ruleId, h), f)
    ensures IsValueOf(ctx, evidence, ruleId, h, f)
  {
  }

  lemma ValueHasCase(ctx: Context, evidence: seq<Evidence>, ruleId: string, h: string) returns (c: Case)
    requires h in ValuesOf(ctx, evidence, ruleId)
    ensures c in CasesOf(AllGroupCases(ctx, Sort(evidence, EvidenceLe)), ruleId) && c.finding.valueHash == h
  {
    var sorted := Sort(evidence, EvidenceLe);
    hide *;
    ValueHasKey(ctx, evidence, ruleId, h);
    SurvivorsHaveCases(ctx, sorted, (ruleId, h));
    CaseIsWellFormed(ctx, sorted, (ruleId, h));
    c := CaseOf(ctx, sorted, (ruleId, h));
  }

  /** The group's leading evidence is at `path`. */
  ghost predicate LeadsAt(ctx: Context, evidence: seq<Evidence>, key: Key, path: string) {
    exists e :: Leads(evidence, e, key) && path == WhereIs(ctx, e.artifactId)
  }

  lemma {:induction false} FirstAtHead(locations: seq<Location>)
    requires locations != []
    ensures FirstAt(locations) != [] && FirstAt(locations)[0] == locations[0]
  {
    if |locations| > 1 {
      FirstAtHead(locations[..|locations| - 1]);
    } else {
      assert locations[..0] == [];
    }
  }

  lemma CaseStartsAt(ctx: Context, sorted: seq<Evidence>, key: Key)
    requires Survives(ctx, sorted, key)
    ensures var g, ls := Group(sorted, key), CaseOf(ctx, sorted, key).locations;
            g != [] && ls != [] && ls[0].pathInTree == WhereIs(ctx, g[0].artifactId)
  {
    var items := Group(sorted, key);
    var id := CaseOf(ctx, sorted, key).finding.id;
    FirstAtHead(LocationsOf(ctx, id, items));
    hide FirstAt, Group, FindingOf;
  }

  /** A value's own first location is where its leading evidence is. */
  lemma CaseLeadsAt(ctx: Context, evidence: seq<Evidence>, ruleId: string, c: Case)
    requires c in CasesOf(AllGroupCases(ctx, Sort(evidence, EvidenceLe)), ruleId)
    ensures c.locations != []
    ensures LeadsAt(ctx, evidence, (ruleId, c.finding.valueHash), c.locations[0].pathInTree)
  {
    var sorted := Sort(evidence, EvidenceLe);
    hide Sort, AllGroupCases, CasesOf, Survives, CaseOf, Group, Leads, WhereIs;
    CasesOfMembers(AllGroupCases(ctx, sorted), ruleId, c);
    var k := GroupCaseOrigin(ctx, sorted, c);
    CaseIsWellFormed(ctx, sorted, k);
    CaseStartsAt(ctx, sorted, k);
    HeadLeads(evidence, k);
    assert k == (ruleId, c.finding.valueHash);
  }

  lemma AnchorLeads(ctx: Context, evidence: seq<Evidence>, ruleId: string)
    requires CasesOf(AllGroupCases(ctx, Sort(evidence, EvidenceLe)), ruleId) != []
    ensures var ordered := Sort(CasesOf(AllGroupCases(ctx, Sort(evidence, EvidenceLe)), ruleId), CaseIdLe);
            ordered != [] && LeadsAt(ctx, evidence, (ruleId, ordered[0].finding.valueHash), AnchorPath(ordered))
  {
    var rc := CasesOf(AllGroupCases(ctx, Sort(evidence, EvidenceLe)), ruleId);
    SortElements(rc, CaseIdLe);
    hide Sort, AllGroupCases, CasesOf, LeadsAt;
    assert Sort(rc, CaseIdLe)[0] in rc;
    CaseLeadsAt(ctx, evidence, ruleId, Sort(rc, CaseIdLe)[0]);
  }

  /**
   The finding that replaces the findings of a rule: their number and the first three of them by id,
   the face of the first, their greatest confidence, and a hash over each of their values; its id is
   that of a value at the path where the first of them leads.
   */
  ghost predicate DescribesCluster(ctx: Context, evidence: seq<Evidence>, ruleId: string, members: seq<Finding>,
                                   f: Finding) {
    && ruleId in ctx.rules && |members| >= 3 && f.ruleId == ruleId && CarriesRule(f, ctx.rules[ruleId])
    && f.title == Systemic(ctx.rules[ruleId].name, |members|) && f.tags == ctx.rules[ruleId].tags + ["clustered"]
    && f.shown == Samples(|members|, [members[0].shown, members[1].shown, members[2].shown])
    && f.entropy == members[0].entropy && f.context == members[0].context
    && (forall i :: 0 <= i < |members| ==> members[i].confidence <= f.confidence)
    && (exists i :: 0 <= i < |members| && members[i].confidence == f.confidence)
    && (exists hashes, path ::
          && |hashes| == |members| && (forall i :: 0 <= i < |members| ==> hashes[i] == members[i].valueHash)
          && f.valueHash == ctx.clusterHash(ruleId, hashes) && f.id == ctx.ids(ruleId, f.valueHash, path, 0)
          && LeadsAt(ctx, evidence, (ruleId, members[0].valueHash), path))
  }

  lemma ClusterDescribes(ctx: Context, evidence: seq<Evidence>, ruleId: string, ordered: seq<Case>)
    requires ruleId in ctx.rules && |ordered| >= 3
    requires LeadsAt(ctx, evidence, (ruleId, ordered[0].finding.valueHash), AnchorPath(ordered))
    ensures DescribesCluster(ctx, evidence, ruleId, Findings(ordered),
                             ClusterFinding(ctx, ruleId, ctx.rules[ruleId], ordered))
  {
    ConfidenceIsGreatest(ordered);
    hide MaxConfidence, LeadsAt, AnchorPath;
    var f, members := ClusterFinding(ctx, ruleId, ctx.rules[ruleId], ordered), Findings(ordered);
    assert ShownOf(ordered, 3) == [members[0].shown, members[1].shown, members[2].shown];
    assert f.id == ctx.ids(ruleId, f.valueHash, AnchorPath(ordered), 0);
    var i :| 0 <= i < |ordered| && ordered[i].finding.confidence == f.confidence;
    assert members[i].confidence == f.confidence;
  }

  /** `members` are the findings of a rule's reported values, one each, by id. */
  ghost predicate AreValuesOf(ctx: Context, evidence: seq<Evidence>, ruleId: string, members: seq<Finding>) {
    && |members| == |ValuesOf(ctx, evidence, ruleId)| && Sorted(members, IdLe)
    && (forall i :: 0 <= i < |members| ==> IsValueOf(ctx, evidence, ruleId, members[i].valueHash, members[i]))
    && (forall h :: h in ValuesOf(ctx, evidence, ruleId) ==>
          exists i :: 0 <= i < |members| && members[i].valueHash == h)
  }

  lemma FindingsById(cases: seq<Case>)
    ensures Sorted(Findings(Sort(cases, CaseIdLe)), IdLe)
  {
    CaseIdOrder();
    SortSorted(cases, CaseIdLe);
    var ordered := Sort(cases, CaseIdLe);
    hide Sort, IdLe, Preorder;
    forall i, j | 0 <= i < j < |ordered|
      ensures IdLe(Findings(ordered)[i], Findings(ordered)[j])
    {
      assert CaseIdLe(ordered[i], ordered[j]);
    }
  }

  lemma SortedFindingsIn(cases: seq<Case>, i: nat)
    requires i < |Findings(Sort(cases, CaseIdLe))|
    ensures exists c :: c in cases && c.finding == Findings(Sort(cases, CaseIdLe))[i]
  {
    SortElements(cases, CaseIdLe);
    hide Sort, CaseIdLe;
    assert Sort(cases, CaseIdLe)[i] in cases;
  }

  lemma SortedFindingsHold(cases: seq<Case>, c: Case)
    requires c in cases
    ensures c.finding in Findings(Sort(cases, CaseIdLe))
  {
    SortElements(cases, CaseIdLe);
    hide Sort, CaseIdLe;
    var ordered := Sort(cases, CaseIdLe);
    var i :| 0 <= i < |ordered| && ordered[i] == c;
    assert Findings(ordered)[i] == c.finding;
  }

  lemma SortedFindingHasValue(ctx: Context, evidence: seq<Evidence>, ruleId: string, i: nat)
    requires var rc := CasesOf(AllGroupCases(ctx, Sort(evidence, EvidenceLe)), ruleId);
             i < |Findings(Sort(rc, CaseIdLe))|
    ensures var rc := CasesOf(AllGroupCases(ctx, Sort(evidence, EvidenceLe)), ruleId);
            var f := Findings(Sort(rc, CaseIdLe))[i];
            IsValueOf(ctx, evidence, ruleId, f.valueHash, f)
  {
    var rc := CasesOf(AllGroupCases(ctx, Sort(evidence, EvidenceLe)), ruleId);
    hide *;
    SortedFindingsIn(rc, i);
    var c :| c in rc && c.finding == Findings(Sort(rc, CaseIdLe))[i];
    CaseHasValue(ctx, evidence, ruleId, c);
  }

  lemma ValueHasSortedFinding(ctx: Context, evidence: seq<Evidence>, ruleId: string, h: string) returns (i: nat)
    requires h in ValuesOf(ctx, evidence, ruleId)
    ensures var rc := CasesOf(AllGroupCases(ctx, Sort(evidence, EvidenceLe)), ruleId);
            i < |Findings(Sort(rc, CaseIdLe))| && Findings(Sort(rc, CaseIdLe))[i].valueHash == h
  {
    var rc := CasesOf(AllGroupCases(ctx, Sort(evidence, EvidenceLe)), ruleId);
    hide *;
    var c := ValueHasCase(ctx, evidence, ruleId, h);
    SortedFindingsHold(rc, c);
    i :| i < |Findings(Sort(rc, CaseIdLe))| && Findings(Sort(rc, CaseIdLe))[i] == c.finding;
  }

  lemma OrderedCases(ctx: Context, evidence: seq<Evidence>, ruleId: string)
    ensures var rc := CasesOf(AllGroupCases(ctx, Sort(evidence, EvidenceLe)), ruleId);
            AreValuesOf(ctx, evidence, ruleId, Findings(Sort(rc, CaseIdLe)))
  {
    hide CasesOf, AllGroupCases, ValuesOf, IsValueOf, Sort, Findings, Sorted;
    var rc := CasesOf(AllGroupCases(ctx, Sort(evidence, EvidenceLe)), ruleId);
    var members := Findings(Sort(rc, CaseIdLe));
    CasesAreValues(ctx, evidence, ruleId);
    FindingsById(rc);
    forall i: nat | i < |members|
      ensures IsValueOf(ctx, evidence, ruleId, members[i].valueHash, members[i])
    {
      SortedFindingHasValue(ctx, evidence, ruleId, i);
    }
    forall h | h in ValuesOf(ctx, evidence, ruleId)
      ensures exists i :: 0 <= i < |members| && members[i].valueHash == h
    {
      var i := ValueHasSortedFinding(ctx, evidence, ruleId, h);
    }
  }

  // ----- every finding of the result

  /** More reported values than a rule may keep apart. */
  predicate TooMany(ctx: Context, evidence: seq<Evidence>, ruleId: string) {
    |ValuesOf(ctx, evidence, ruleId)| > 20
  }

  lemma TooManyCluster(ctx: Context, evidence: seq<Evidence>, ruleId: string)
    ensures Clusters(ctx, Sort(evidence, EvidenceLe), ruleId) <==> TooMany(ctx, evidence, ruleId)
  {
    CasesAreValues(ctx, evidence, ruleId);
    hide CasesOf, AllGroupCases, ValuesOf;
  }

  lemma OwnerDescribes(ctx: Context, evidence: seq<Evidence>, k: Key) returns (members: seq<Finding>)
    requires Survives(ctx, Sort(evidence, EvidenceLe), k)
    ensures k.1 in ValuesOf(ctx, evidence, k.0) && AreValuesOf(ctx, evidence, k.0, members)
    ensures var f := OwnerCase(ctx, Sort(evidence, EvidenceLe), k).finding;
            if TooMany(ctx, evidence, k.0) then DescribesCluster(ctx, evidence, k.0, members, f)
            else DescribesValue(ctx, evidence, k, f)
  {
    var sorted := Sort(evidence, EvidenceLe);
    var rc := CasesOf(AllGroupCases(ctx, sorted), k.0);
    hide AllGroupCases, CasesOf, Survives, CaseOf, ClusterFinding, AreValuesOf, DescribesCluster, DescribesValue,
      ValuesOf, Sort;
    ValueHasKey(ctx, evidence, k.0, k.1);
    OrderedCases(ctx, evidence, k.0);
    TooManyCluster(ctx, evidence, k.0);
    SurvivorsHaveCases(ctx, sorted, k);
    OwnerRule(ctx, sorted, k);
    members := Findings(Sort(rc, CaseIdLe));
    if Clusters(ctx, sorted, k.0) {
      AnchorLeads(ctx, evidence, k.0);
      ClusterDescribes(ctx, evidence, k.0, Sort(rc, CaseIdLe));
    } else {
      ValueFinding(ctx, evidence, k);
    }
  }

  /**
   Every finding of the result carries the severity, category, CWE and remediation of its rule, and
   is the finding of one reported value, or of all the reported values of a rule that has too many.
   */
  lemma FindingsSayWhatTheEvidenceDoes(ctx: Context, evidence: seq<Evidence>, f: Finding)
      returns (members: seq<Finding>)
    requires f in Correlation(ctx, evidence).findings
    ensures f.ruleId in ctx.rules && CarriesRule(f, ctx.rules[f.ruleId])
    ensures AreValuesOf(ctx, evidence, f.ruleId, members)
    ensures TooMany(ctx, evidence, f.ruleId) ==> DescribesCluster(ctx, evidence, f.ruleId, members, f)
    ensures !TooMany(ctx, evidence, f.ruleId) ==>
              f.valueHash in ValuesOf(ctx, evidence, f.ruleId)
              && DescribesValue(ctx, evidence, (f.ruleId, f.valueHash), f)
  {
    var sorted := Sort(evidence, EvidenceLe);
    hide Correlation, FinalCases, Survives, OwnerCase, Sort, ValuesOf, AreValuesOf, TooMany;
    ResultFindings(ctx, evidence, f);
    var c :| c in FinalCases(ctx, sorted) && c.finding == f;
    FinalCasesAreOwners(ctx, sorted, c);
    var k :| Survives(ctx, sorted, k) && c == OwnerCase(ctx, sorted, k);
    members := OwnerDescribes(ctx, evidence, k);
    hide IsConfidence, Leads;
  }

  // ----- order, locations and suppressed values

  /** From the most severe down; by rule within a severity, by id within a rule. */
  predicate ListedBefore(a: Finding, b: Finding) {
    && AtLeastAs(a.severity, b.severity)
    && (a.severity == b.severity ==> StrLe(a.ruleId, b.ruleId) && (a.ruleId == b.ruleId ==> StrLe(a.id, b.id)))
  }

  lemma FindingLeMeans(a: Finding, b: Finding)
    ensures FindingLe(a, b) <==> ListedBefore(a, b)
  {
    RanksDescend(a.severity, b.severity);
    RanksDescend(b.severity, a.severity);
    StrTotal(a.ruleId, b.ruleId);
    hide StrLe;
  }

  lemma ListedTransitive(a: Finding, b: Finding, c: Finding)
    requires ListedBefore(a, b) && ListedBefore(b, c)
    ensures ListedBefore(a, c)
  {
    hide StrLe;
    if StrLe(a.ruleId, b.ruleId) && StrLe(b.ruleId, c.ruleId) {
      StrTransitive(a.ruleId, b.ruleId, c.ruleId);
      StrTotal(a.ruleId, b.ruleId);
      StrTotal(b.ruleId, c.ruleId);
    }
    if StrLe(a.id, b.id) && StrLe(b.id, c.id) {
      StrTransitive(a.id, b.id, c.id);
    }
  }

  lemma ListedTotal(a: Finding, b: Finding)
    ensures ListedBefore(a, b) || ListedBefore(b, a)
  {
    StrTotal(a.ruleId, b.ruleId);
    StrTotal(a.id, b.id);
    hide StrLe;
  }

  lemma FindingOrder()
    ensures Preorder(FindingLe)
  {
    hide ListedBefore, FindingLe;
    forall a, b
      ensures FindingLe(a, b) || FindingLe(b, a)
    {
      ListedTotal(a, b);
      FindingLeMeans(a, b);
      FindingLeMeans(b, a);
    }
    forall a, b, c | FindingLe(a, b) && FindingLe(b, c)
      ensures FindingLe(a, c)
    {
      FindingLeMeans(a, b);
      FindingLeMeans(b, c);
      ListedTransitive(a, b, c);
      FindingLeMeans(a, c);
    }
  }

  /** The findings of the result come in order. */
  lemma ResultIsInOrder(ctx: Context, evidence: seq<Evidence>, i: nat, j: nat)
    requires i < j < |Correlation(ctx, evidence).findings|
    ensures ListedBefore(Correlation(ctx, evidence).findings[i], Correlation(ctx, evidence).findings[j])
  {
    hide FinalCases, SuppressedCount, ListedBefore, FindingLe;
    var all := Findings(FinalCases(ctx, Sort(evidence, EvidenceLe)));
    FindingOrder();
    SortSorted(all, FindingLe);
    FindingLeMeans(Sort(all, FindingLe)[i], Sort(all, FindingLe)[j]);
  }

  /** The location of a piece of evidence on a finding. */
  predicate Shows(ctx: Context, l: Location, id: string, e: Evidence) {
    l == Location(id, e.artifactId, WhereIs(ctx, e.artifactId), e.offset, e.section, e.encoding)
  }

  lemma CaseShows(ctx: Context, evidence: seq<Evidence>, key: Key, l: Location) returns (e: Evidence)
    requires Survives(ctx, Sort(evidence, EvidenceLe), key)
    requires l in CaseOf(ctx, Sort(evidence, EvidenceLe), key).locations
    ensures e in evidence && Of(e, key)
    ensures Shows(ctx, l, CaseOf(ctx, Sort(evidence, EvidenceLe), key).finding.id, e)
  {
    var items := Group(Sort(evidence, EvidenceLe), key);
    GroupOf(evidence, key);
    hide Score, Group, Sort, IsSuppressed;
    var f := FindingOf(ctx, ctx.rules[key.0], items);
    var all := LocationsOf(ctx, f.id, items);
    FirstAtKeepsPlaces(all);
    hide FirstAt;
    var i :| 0 <= i < |all| && all[i] == l;
    e := items[i];
    assert e in items;
  }

  lemma ClusterShows(ctx: Context, evidence: seq<Evidence>, ruleId: string, l: Location) returns (e: Evidence)
    requires ruleId in ctx.rules && Clusters(ctx, Sort(evidence, EvidenceLe), ruleId)
    requires l in Condense(ctx, ruleId, CasesOf(AllGroupCases(ctx, Sort(evidence, EvidenceLe)), ruleId))[0].locations
    ensures e in evidence && e.ruleId == ruleId && Survives(ctx, Sort(evidence, EvidenceLe), KeyOf(e))
    ensures Shows(ctx, l, Condense(ctx, ruleId,
                                   CasesOf(AllGroupCases(ctx, Sort(evidence, EvidenceLe)), ruleId))[0].finding.id, e)
  {
    var sorted := Sort(evidence, EvidenceLe);
    var rc := CasesOf(AllGroupCases(ctx, sorted), ruleId);
    hide CasesOf, AllGroupCases, ClusterFinding, Survives, CaseOf;
    var ordered := Sort(rc, CaseIdLe);
    var id := ClusterFinding(ctx, ruleId, ctx.rules[ruleId], ordered).id;
    var own := RelabelledFrom(id, AllLocations(ordered), l);
    SortElements(rc, CaseIdLe);
    hide Sort, Condense;
    LocationMembers(ordered, own);
    var c :| c in ordered && own in c.locations;
    CasesOfMembers(AllGroupCases(ctx, sorted), ruleId, c);
    var k := GroupCaseOrigin(ctx, sorted, c);
    e := CaseShows(ctx, evidence, k, own);
    assert KeyOf(e) == k;
  }

  lemma RelabelledFrom(id: string, locations: seq<Location>, l: Location) returns (own: Location)
    requires l in FirstAt(Relabel(id, locations))
    ensures own in locations && l == own.(findingId := id)
  {
    FirstAtKeepsPlaces(Relabel(id, locations));
    hide FirstAt;
    var i :| 0 <= i < |locations| && Relabel(id, locations)[i] == l;
    own := locations[i];
  }

  /** Every location shows the path, offset, section and encoding of a piece of its finding's evidence. */
  lemma LocationsShowTheirEvidence(ctx: Context, evidence: seq<Evidence>, l: Location) returns (e: Evidence)
    requires l in Correlation(ctx, evidence).locations
    ensures Reported(ctx, evidence, e) && Shows(ctx, l, Owner(ctx, evidence, e).id, e)
  {
    var sorted := Sort(evidence, EvidenceLe);
    hide FinalCases, Survives, CaseOf, CasesOf, AllGroupCases, Condense, Sort, SuppressedCount;
    LocationMembers(FinalCases(ctx, sorted), l);
    var c :| c in FinalCases(ctx, sorted) && l in c.locations;
    FinalCasesAreOwners(ctx, sorted, c);
    var k :| Survives(ctx, sorted, k) && c == OwnerCase(ctx, sorted, k);
    if Clusters(ctx, sorted, k.0) {
      OwnerRule(ctx, sorted, k);
      e := ClusterShows(ctx, evidence, k.0, l);
    } else {
      e := CaseShows(ctx, evidence, k, l);
      assert KeyOf(e) == k;
    }
  }

  /** The values of known rules that are there but not reported. */
  function SuppressedValues(ctx: Context, evidence: seq<Evidence>): set<Key> {
    set e | e in evidence && e.ruleId in ctx.rules && !Survives(ctx, Sort(evidence, EvidenceLe), KeyOf(e)) :: KeyOf(e)
  }

  function SuppressedAmong(ctx: Context, sorted: seq<Evidence>, keys: seq<Key>): set<Key> {
    set i | 0 <= i < |keys| && keys[i].0 in ctx.rules && !Survives(ctx, sorted, keys[i]) :: keys[i]
  }

  lemma {:induction false} SuppressedAreCounted(ctx: Context, sorted: seq<Evidence>, keys: seq<Key>)
    requires NoDuplicates(keys)
    ensures SuppressedCount(ctx, sorted, keys) == |SuppressedAmong(ctx, sorted, keys)|
  {
    hide Survives, SuppressedCount;
    if keys == [] {
      NothingSuppressed(ctx, sorted);
    } else {
      var n := |keys| - 1;
      SuppressedAreCounted(ctx, sorted, keys[..n]);
      CountedSnoc(ctx, sorted, keys);
      var few, many := SuppressedAmong(ctx, sorted, keys[..n]), SuppressedAmong(ctx, sorted, keys);
      forall k
        ensures k in many <==> k in few || (k == keys[n] && k.0 in ctx.rules && !Survives(ctx, sorted, k))
      {
        if k in few {
          var i :| 0 <= i < n && keys[..n][i] == k;
          assert keys[i] == k;
        }
      }
      assert keys[n] !in few by {
        assert forall i :: 0 <= i < n ==> keys[..n][i] != keys[n];
      }
      OneMoreKey(few, many, keys[n], keys[n].0 in ctx.rules && !Survives(ctx, sorted, keys[n]));
    }
  }

  lemma NothingSuppressed(ctx: Context, sorted: seq<Evidence>)
    ensures SuppressedCount(ctx, sorted, []) == 0 && SuppressedAmong(ctx, sorted, []) == {}
  {
  }

  lemma CountedSnoc(ctx: Context, sorted: seq<Evidence>, keys: seq<Key>)
    requires keys != []
    ensures var n := |keys| - 1;
            SuppressedCount(ctx, sorted, keys)
            == SuppressedCount(ctx, sorted, keys[..n])
               + if keys[n].0 in ctx.rules && !Survives(ctx, sorted, keys[n]) then 1 else 0
  {
    hide Survives;
  }

  lemma OneMoreKey(few: set<Key>, many: set<Key>, key: Key, more: bool)
    requires key !in few && forall k :: k in many <==> k in few || (more && k == key)
    ensures |many| == |few| + if more then 1 else 0
  {
    if more {
      assert many == few + {key};
    } else {
      assert many == few;
    }
  }

  lemma SuppressedHasKey(ctx: Context, evidence: seq<Evidence>, k: Key)
    ensures k in SuppressedAmong(ctx, Sort(evidence, EvidenceLe), SortedKeys(Sort(evidence, EvidenceLe)))
       <==> k in SuppressedValues(ctx, evidence)
  {
    var sorted := Sort(evidence, EvidenceLe);
    KeysAreKeys(sorted);
    SortElements(Keys(sorted), KeyLe);
    SortElements(evidence, EvidenceLe);
    hide Survives, Keys, Sort, KeyOf;
    if k in SuppressedValues(ctx, evidence) {
      var e :| e in evidence && KeyOf(e) == k && e.ruleId in ctx.rules && !Survives(ctx, sorted, KeyOf(e));
      var i :| 0 <= i < |sorted| && sorted[i] == e;
      KeyOfIs(e);
      assert KeyOf(sorted[i]) == k && k in SortedKeys(sorted);
    }
    if k in SuppressedAmong(ctx, sorted, SortedKeys(sorted)) {
      assert k in Keys(sorted);
      var i :| 0 <= i < |sorted| && KeyOf(sorted[i]) == k;
      KeyOfIs(sorted[i]);
      assert sorted[i] in evidence;
    }
  }

  lemma KeyOfIs(e: Evidence)
    ensures KeyOf(e) == (e.ruleId, e.valueHash)
  {
  }

  lemma SuppressedAgree(ctx: Context, evidence: seq<Evidence>)
    ensures SuppressedAmong(ctx, Sort(evidence, EvidenceLe), SortedKeys(Sort(evidence, EvidenceLe)))
         == SuppressedValues(ctx, evidence)
  {
    hide *;
    forall k
      ensures k in SuppressedAmong(ctx, Sort(evidence, EvidenceLe), SortedKeys(Sort(evidence, EvidenceLe)))
         <==> k in SuppressedValues(ctx, evidence)
    {
      SuppressedHasKey(ctx, evidence, k);
    }
  }

  /** The number of suppressed findings is that of the values of known rules that are not reported. */
  lemma SuppressedInPlainTerms(ctx: Context, evidence: seq<Evidence>)
    ensures Correlation(ctx, evidence).suppressed == |SuppressedValues(ctx, evidence)|
  {
    var sorted := Sort(evidence, EvidenceLe);
    hide Survives, FinalCases, SuppressedCount, Keys, Sort, NoDuplicates, SuppressedAmong, SuppressedValues;
    KeysAreKeys(sorted);
    SortNoDuplicates(Keys(sorted), KeyLe);
    SuppressedAreCounted(ctx, sorted, SortedKeys(sorted));
    SuppressedAgree(ctx, evidence);
  }
}
