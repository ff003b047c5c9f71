/**
 Evidence to findings (core/pipeline/correlator.py): sort, group by rule and value, drop what
 is unknown or suppressed, deduplicate locations, cluster rules that fire en masse.
 */
module Correlator {
  import opened Options
  import opened Order
  import opened Vocab

  const CLUSTER_THRESHOLD: nat := 20
  const ENTROPY_STRONG: real := 4.5
  const ENTROPY_WEAK: real := 2.5

  datatype Evidence = Evidence(
    ruleId: string, valueHash: string, artifactId: string, offset: Option<int>, section: Option<string>,
    encoding: string, valueMasked: string, entropy: Option<real>, context: Option<string>)

  datatype Rule = Rule(
    name: string, category: string, severity: Severity, confidence: real, minEntropy: real,
    cwe: Option<string>, tags: seq<string>, remediation: string)

  datatype Suppression = Suppression(ruleId: string, valueHash: string, pathPattern: string)

  /** The title and the masked value as structure; the code formats them into text. */
  datatype Title = Named(name: string) | Systemic(name: string, count: nat)
  datatype Shown = OneValue(masked: string) | Samples(count: nat, firstOnes: seq<Shown>)

  datatype Finding = Finding(
    id: string, ruleId: string, category: string, title: Title, severity: Severity, confidence: real,
    shown: Shown, valueHash: string, entropy: Option<real>, context: Option<string>, cwe: Option<string>,
    tags: seq<string>, remediation: string)

  datatype Location = Location(
    findingId: string, artifactId: string, pathInTree: string, offset: Option<int>, section: Option<string>,
    encoding: string)

  /** What correlation reads besides the evidence; the hashes and `fnmatch` are parameters. */
  datatype Context = Context(
    rules: map<string, Rule>, paths: map<string, string>, suppressions: seq<Suppression>,
    matches: (string, string) -> bool,
    ids: (string, string, string, int) -> string, clusterHash: (string, seq<string>) -> string)

  // ----- sort keys

  predicate StrLt(a: string, b: string) {
    a != b && StrLe(a, b)
  }

  function Or0(offset: Option<int>): int {
    if offset.Some? then offset.value else 0
  }

  /** `_evidence_sort_key`, compared. */
  predicate EvidenceLe(a: Evidence, b: Evidence) {
    StrLt(a.ruleId, b.ruleId) || (a.ruleId == b.ruleId && (
      StrLt(a.valueHash, b.valueHash) || (a.valueHash == b.valueHash && (
        StrLt(a.artifactId, b.artifactId) || (a.artifactId == b.artifactId &&
          Or0(a.offset) <= Or0(b.offset))))))
  }

  type Key = (string, string)

  function KeyOf(e: Evidence): Key {
    (e.ruleId, e.valueHash)
  }

  predicate KeyLe(a: Key, b: Key) {
    StrLt(a.0, b.0) || (a.0 == b.0 && StrLe(a.1, b.1))
  }

  predicate FindingLe(a: Finding, b: Finding) {
    Rank(a.severity) < Rank(b.severity) || (Rank(a.severity) == Rank(b.severity) && (
      StrLt(a.ruleId, b.ruleId) || (a.ruleId == b.ruleId && StrLe(a.id, b.id))))
  }

  predicate IdLe(a: Finding, b: Finding) {
    StrLe(a.id, b.id)
  }

  lemma StrLtTransitive(a: string, b: string, c: string)
    requires StrLe(a, b) && StrLe(b, c)
    ensures StrLe(a, c) && (a == c ==> a == b)
  {
    StrTransitive(a, b, c);
    StrTotal(a, b);
    StrTotal(b, c);
  }

  lemma EvidenceOrder()
    ensures Preorder(EvidenceLe)
  {
    forall x, y
      ensures EvidenceLe(x, y) || EvidenceLe(y, x)
    {
      StrTotal(x.ruleId, y.ruleId);
      StrTotal(x.valueHash, y.valueHash);
      StrTotal(x.artifactId, y.artifactId);
    }
    forall x, y, z | EvidenceLe(x, y) && EvidenceLe(y, z)
      ensures EvidenceLe(x, z)
    {
      EvidenceTransitive(x, y, z);
    }
  }

  lemma EvidenceTransitive(x: Evidence, y: Evidence, z: Evidence)
    requires EvidenceLe(x, y) && EvidenceLe(y, z)
    ensures EvidenceLe(x, z)
  {
    hide StrLe;
    if StrLe(x.ruleId, y.ruleId) && StrLe(y.ruleId, z.ruleId) {
      StrLtTransitive(x.ruleId, y.ruleId, z.ruleId);
    }
    if StrLe(x.valueHash, y.valueHash) && StrLe(y.valueHash, z.valueHash) {
      StrLtTransitive(x.valueHash, y.valueHash, z.valueHash);
    }
    if StrLe(x.artifactId, y.artifactId) && StrLe(y.artifactId, z.artifactId) {
      StrLtTransitive(x.artifactId, y.artifactId, z.artifactId);
    }
  }

  // ----- locations

  datatype Place = Place(artifactId: string, offset: Option<int>)

  function PlaceOf(l: Location): Place {
    Place(l.artifactId, l.offset)
  }

  function Places(locations: seq<Location>): set<Place> {
    set i | 0 <= i < |locations| :: PlaceOf(locations[i])
  }

  predicate DistinctPlaces(locations: seq<Location>) {
    forall i, j :: 0 <= i < j < |locations| ==> PlaceOf(locations[i]) != PlaceOf(locations[j])
  }

  /** The first location at each place. */
  function FirstAt(locations: seq<Location>): seq<Location> {
    if locations == [] then []
    else
      var n := |locations| - 1;
      FirstAt(locations[..n])
        + if PlaceOf(locations[n]) in Places(locations[..n]) then [] else [locations[n]]
  }

  lemma {:induction false} FirstAtKeepsPlaces(locations: seq<Location>)
    ensures Places(FirstAt(locations)) == Places(locations)
    ensures DistinctPlaces(FirstAt(locations))
    ensures forall l :: l in FirstAt(locations) ==> l in locations
    ensures locations != [] ==> FirstAt(locations) != []
  {
    if locations != [] {
      var n := |locations| - 1;
      var before := FirstAt(locations[..n]);
      FirstAtKeepsPlaces(locations[..n]);
      PlacesOfSnoc(locations[..n], locations[n]);
      assert locations[..n] + [locations[n]] == locations;
      if PlaceOf(locations[n]) !in Places(locations[..n]) {
        PlacesOfSnoc(before, locations[n]);
      } else {
        assert before + [] == before;
      }
    }
  }

  lemma NoPlaces()
    ensures Places([]) == {} && FirstAt([]) == []
  {
  }

  lemma FirstAtSnoc(locations: seq<Location>, l: Location)
    ensures FirstAt(locations + [l]) == FirstAt(locations) + if PlaceOf(l) in Places(locations) then [] else [l]
  {
    hide Places, PlaceOf;
    assert (locations + [l])[..|locations|] == locations;
  }

  lemma PlacesOfSnoc(locations: seq<Location>, l: Location)
    ensures Places(locations + [l]) == Places(locations) + {PlaceOf(l)}
  {
    var more := locations + [l];
    assert PlaceOf(more[|locations|]) in Places(more);
    forall p | p in Places(locations)
      ensures p in Places(more)
    {
      var i :| 0 <= i < |locations| && PlaceOf(locations[i]) == p;
      assert more[i] == locations[i];
    }
  }

  /** A finding with its locations. */
  datatype Case = Case(finding: Finding, locations: seq<Location>)

  function Findings(cases: seq<Case>): (r: seq<Finding>)
    ensures |r| == |cases| && forall i :: 0 <= i < |r| ==> r[i] == cases[i].finding
  {
    seq(|cases|, i requires 0 <= i < |cases| => cases[i].finding)
  }

  function AllLocations(cases: seq<Case>): seq<Location> {
    if cases == [] then [] else AllLocations(cases[..|cases| - 1]) + cases[|cases| - 1].locations
  }

  predicate DistinctIds(cases: seq<Case>) {
    forall i, j :: 0 <= i < j < |cases| ==> cases[i].finding.id != cases[j].finding.id
  }

  /** Every location of a case points at the case's finding. */
  predicate OwnLocations(cases: seq<Case>) {
    forall i :: 0 <= i < |cases| ==> forall l :: l in cases[i].locations ==> l.findingId == cases[i].finding.id
  }

  function LocationsFor(locations: seq<Location>, id: string): seq<Location> {
    if locations == [] then []
    else
      var n := |locations| - 1;
      LocationsFor(locations[..n], id) + if locations[n].findingId == id then [locations[n]] else []
  }

  lemma {:induction false} LocationsForConcat(a: seq<Location>, b: seq<Location>, id: string)
    ensures LocationsFor(a + b, id) == LocationsFor(a, id) + LocationsFor(b, id)
    decreases |b|
  {
    if b == [] {
      assert a + b == a;
    } else {
      assert (a + b)[..|a + b| - 1] == a + b[..|b| - 1];
      LocationsForConcat(a, b[..|b| - 1], id);
    }
  }

  lemma {:induction false} LocationsForUniform(b: seq<Location>, owner: string, id: string)
    requires forall l :: l in b ==> l.findingId == owner
    ensures LocationsFor(b, id) == if owner == id then b else []
  {
    if b != [] {
      LocationsForUniform(b[..|b| - 1], owner, id);
      assert b[..|b| - 1] + [b[|b| - 1]] == b;
    }
  }

  lemma CasesPrefix(cases: seq<Case>, n: nat)
    requires n <= |cases|
    ensures DistinctIds(cases) ==> DistinctIds(cases[..n])
    ensures OwnLocations(cases) ==> OwnLocations(cases[..n])
  {
  }

  lemma LocationsSnoc(cases: seq<Case>, id: string)
    requires cases != [] && OwnLocations(cases)
    ensures var n := |cases| - 1;
            LocationsFor(AllLocations(cases), id)
              == LocationsFor(AllLocations(cases[..n]), id)
                 + if cases[n].finding.id == id then cases[n].locations else []
  {
    var n := |cases| - 1;
    LocationsForConcat(AllLocations(cases[..n]), cases[n].locations, id);
    LocationsForUniform(cases[n].locations, cases[n].finding.id, id);
  }

  lemma {:induction false} NoLocationsElsewhere(cases: seq<Case>, id: string)
    requires OwnLocations(cases) && forall i :: 0 <= i < |cases| ==> cases[i].finding.id != id
    ensures LocationsFor(AllLocations(cases), id) == []
  {
    if cases != [] {
      CasesPrefix(cases, |cases| - 1);
      NoLocationsElsewhere(cases[..|cases| - 1], id);
      LocationsSnoc(cases, id);
    }
  }

  /** The flat lists determine each finding's locations, ids being distinct. */
  lemma {:induction false} LocationsOfCase(cases: seq<Case>, i: nat)
    requires DistinctIds(cases) && OwnLocations(cases) && i < |cases|
    ensures LocationsFor(AllLocations(cases), cases[i].finding.id) == cases[i].locations
  {
    hide LocationsFor, AllLocations, OwnLocations;
    var n := |cases| - 1;
    CasesPrefix(cases, n);
    LocationsSnoc(cases, cases[i].finding.id);
    if i < n {
      LocationsOfCase(cases[..n], i);
    } else {
      NoLocationsElsewhere(cases[..n], cases[i].finding.id);
    }
  }

  // ----- grouping

  /** The evidence of one group, in sorted order. */
  function Group(items: seq<Evidence>, key: Key): (r: seq<Evidence>)
    ensures forall i :: 0 <= i < |r| ==> KeyOf(r[i]) == key && r[i] in items
  {
    if items == [] then []
    else
      var n := |items| - 1;
      Group(items[..n], key) + if KeyOf(items[n]) == key then [items[n]] else []
  }

  /** The keys of the dictionary, in insertion order. */
  function Keys(items: seq<Evidence>): seq<Key> {
    if items == [] then []
    else
      var n := |items| - 1;
      var before := Keys(items[..n]);
      if KeyOf(items[n]) in before then before else before + [KeyOf(items[n])]
  }

  lemma {:induction false} KeysAreKeys(items: seq<Evidence>)
    ensures forall k :: k in Keys(items) <==> exists i :: 0 <= i < |items| && KeyOf(items[i]) == k
    ensures NoDuplicates(Keys(items))
  {
    if items != [] {
      var n := |items| - 1;
      KeysAreKeys(items[..n]);
      forall k
        ensures k in Keys(items) <==> exists i :: 0 <= i < |items| && KeyOf(items[i]) == k
      {
        if k in Keys(items[..n]) {
          var i :| 0 <= i < n && KeyOf(items[..n][i]) == k;
          assert KeyOf(items[i]) == k;
        } else {
          assert forall i :: 0 <= i < n ==> items[..n][i] == items[i];
        }
      }
    }
  }

  lemma {:induction false} GroupMembers(items: seq<Evidence>, e: Evidence)
    requires e in items
    ensures e in Group(items, KeyOf(e))
  {
    var n := |items| - 1;
    if e != items[n] {
      GroupMembers(items[..n], e);
    }
  }

  // ----- one group

  function PathOf(ctx: Context, artifactId: string): string {
    if artifactId in ctx.paths then ctx.paths[artifactId] else ""
  }

  predicate Suppresses(ctx: Context, s: Suppression, key: Key, path: string) {
    s.ruleId == key.0 && s.valueHash == key.1 && (s.pathPattern == "*" || ctx.matches(path, s.pathPattern))
  }

  predicate IsSuppressed(ctx: Context, key: Key, path: string) {
    exists i :: 0 <= i < |ctx.suppressions| && Suppresses(ctx, ctx.suppressions[i], key, path)
  }

  function Peak(items: seq<Evidence>): Option<real> {
    if items == [] then None
    else
      var before, e := Peak(items[..|items| - 1]), items[|items| - 1].entropy;
      if e.None? then before
      else if before.None? || e.value > before.value then e else before
  }

  predicate AnyWide(items: seq<Evidence>) {
    exists i :: 0 <= i < |items| && items[i].encoding == "utf-16le"
  }

  /** `_score`, without the final rounding to three digits. */
  function Score(rule: Rule, items: seq<Evidence>): (r: real)
    ensures 0.05 <= r <= 0.99
  {
    var peak := Peak(items);
    var byEntropy :=
      if peak.Some? && peak.value >= ENTROPY_STRONG then 0.15
      else if peak.Some? && peak.value <= ENTROPY_WEAK && rule.minEntropy == 0.0 then -0.15
      else 0.0;
    var total := rule.confidence + byEntropy
                 + (if |items| > 1 then 0.05 else 0.0) + (if AnyWide(items) then 0.05 else 0.0);
    if total < 0.05 then 0.05 else if total > 0.99 then 0.99 else total
  }

  function ComputeId(ctx: Context, key: Key, path: string, offset: Option<int>): string {
    ctx.ids(key.0, key.1, path, Or0(offset))
  }

  function FindingOf(ctx: Context, rule: Rule, items: seq<Evidence>): Finding
    requires items != []
  {
    var primary := items[0];
    Finding(ComputeId(ctx, KeyOf(primary), PathOf(ctx, primary.artifactId), primary.offset),
            primary.ruleId, rule.category, Named(rule.name), rule.severity, Score(rule, items),
            OneValue(primary.valueMasked), primary.valueHash, primary.entropy, primary.context, rule.cwe,
            rule.tags, rule.remediation)
  }

  function LocationOf(ctx: Context, id: string, e: Evidence): Location {
    Location(id, e.artifactId, PathOf(ctx, e.artifactId), e.offset, e.section, e.encoding)
  }

  function LocationsOf(ctx: Context, id: string, items: seq<Evidence>): (r: seq<Location>)
    ensures |r| == |items| && forall i :: 0 <= i < |r| ==> r[i] == LocationOf(ctx, id, items[i])
  {
    seq(|items|, i requires 0 <= i < |items| => LocationOf(ctx, id, items[i]))
  }

  /** A known rule, and not suppressed at the path of the group's first piece of evidence. */
  predicate Survives(ctx: Context, sorted: seq<Evidence>, key: Key) {
    var items := Group(sorted, key);
    items != [] && key.0 in ctx.rules && !IsSuppressed(ctx, key, PathOf(ctx, items[0].artifactId))
  }

  function CaseOf(ctx: Context, sorted: seq<Evidence>, key: Key): Case
    requires Survives(ctx, sorted, key)
  {
    var items := Group(sorted, key);
    var finding := FindingOf(ctx, ctx.rules[key.0], items);
    Case(finding, FirstAt(LocationsOf(ctx, finding.id, items)))
  }

  function GroupCases(ctx: Context, sorted: seq<Evidence>, keys: seq<Key>): seq<Case> {
    if keys == [] then []
    else
      var n := |keys| - 1;
      GroupCases(ctx, sorted, keys[..n])
        + if Survives(ctx, sorted, keys[n]) then [CaseOf(ctx, sorted, keys[n])] else []
  }

  /** Groups of known rules that a suppression drops. */
  function SuppressedCount(ctx: Context, sorted: seq<Evidence>, keys: seq<Key>): nat {
    if keys == [] then 0
    else
      var n := |keys| - 1;
      SuppressedCount(ctx, sorted, keys[..n])
        + if keys[n].0 in ctx.rules && !Survives(ctx, sorted, keys[n]) then 1 else 0
  }

  // ----- clustering

  function CasesOf(cases: seq<Case>, ruleId: string): (r: seq<Case>)
    ensures forall i :: 0 <= i < |r| ==> r[i].finding.ruleId == ruleId && r[i] in cases
  {
    if cases == [] then []
    else
      var n := |cases| - 1;
      CasesOf(cases[..n], ruleId) + if cases[n].finding.ruleId == ruleId then [cases[n]] else []
  }

  function RuleIds(cases: seq<Case>): seq<string> {
    if cases == [] then []
    else
      var n := |cases| - 1;
      var before := RuleIds(cases[..n]);
      if cases[n].finding.ruleId in before then before else before + [cases[n].finding.ruleId]
  }

  predicate CaseIdLe(a: Case, b: Case) {
    IdLe(a.finding, b.finding)
  }

  function MaxConfidence(cases: seq<Case>): real
    requires cases != []
  {
    var last := cases[|cases| - 1].finding.confidence;
    if |cases| == 1 then last
    else
      var before := MaxConfidence(cases[..|cases| - 1]);
      if before >= last then before else last
  }

  function Hashes(cases: seq<Case>): (r: seq<string>)
    ensures |r| == |cases|
  {
    seq(|cases|, i requires 0 <= i < |cases| => cases[i].finding.valueHash)
  }

  function Relabel(id: string, locations: seq<Location>): (r: seq<Location>)
    ensures |r| == |locations|
    ensures forall i :: 0 <= i < |r| ==> r[i] == locations[i].(findingId := id)
  {
    seq(|locations|, i requires 0 <= i < |locations| => locations[i].(findingId := id))
  }

  function ShownOf(cases: seq<Case>, n: nat): seq<Shown>
    requires n <= |cases|
  {
    seq(n, i requires 0 <= i < n => cases[i].finding.shown)
  }

  /** The path the cluster's id is derived from: the first location of the first finding by id. */
  function AnchorPath(ordered: seq<Case>): string
    requires ordered != []
  {
    if ordered[0].locations != [] then ordered[0].locations[0].pathInTree else ""
  }

  function ClusterId(ctx: Context, ruleId: string, ordered: seq<Case>): string
    requires ordered != []
  {
    ComputeId(ctx, (ruleId, ctx.clusterHash(ruleId, Hashes(ordered))), AnchorPath(ordered), None)
  }

  function ClusterFinding(ctx: Context, ruleId: string, rule: Rule, ordered: seq<Case>): Finding
    requires |ordered| >= 3
  {
    var anchor := ordered[0].finding;
    Finding(ClusterId(ctx, ruleId, ordered), ruleId, rule.category, Systemic(rule.name, |ordered|), rule.severity,
            MaxConfidence(ordered), Samples(|ordered|, ShownOf(ordered, 3)),
            ctx.clusterHash(ruleId, Hashes(ordered)), anchor.entropy, anchor.context, rule.cwe,
            rule.tags + ["clustered"], rule.remediation)
  }

  /** One rule's findings: kept as they are, or collapsed into one past the threshold. */
  function Condense(ctx: Context, ruleId: string, cases: seq<Case>): seq<Case>
    requires ruleId in ctx.rules
  {
    if |cases| <= CLUSTER_THRESHOLD then cases
    else
      var ordered := Sort(cases, CaseIdLe);
      var finding := ClusterFinding(ctx, ruleId, ctx.rules[ruleId], ordered);
      [Case(finding, FirstAt(Relabel(finding.id, AllLocations(ordered))))]
  }

  predicate KnownRules(ctx: Context, cases: seq<Case>) {
    forall i :: 0 <= i < |cases| ==> cases[i].finding.ruleId in ctx.rules
  }

  predicate AllKnown(ctx: Context, ruleIds: seq<string>) {
    forall i :: 0 <= i < |ruleIds| ==> ruleIds[i] in ctx.rules
  }

  function Clustered(ctx: Context, cases: seq<Case>, ruleIds: seq<string>): seq<Case>
    requires AllKnown(ctx, ruleIds)
  {
    if ruleIds == [] then []
    else
      var n := |ruleIds| - 1;
      Clustered(ctx, cases, ruleIds[..n]) + Condense(ctx, ruleIds[n], CasesOf(cases, ruleIds[n]))
  }

  // ----- the whole correlation

  datatype Result = Result(findings: seq<Finding>, locations: seq<Location>, suppressed: nat)

  function SortedKeys(sorted: seq<Evidence>): seq<Key> {
    Sort(Keys(sorted), KeyLe)
  }

  function AllGroupCases(ctx: Context, sorted: seq<Evidence>): seq<Case> {
    GroupCases(ctx, sorted, SortedKeys(sorted))
  }

  lemma {:induction false} GroupCasesKnown(ctx: Context, sorted: seq<Evidence>, keys: seq<Key>)
    ensures KnownRules(ctx, GroupCases(ctx, sorted, keys))
  {
    if keys != [] {
      GroupCasesKnown(ctx, sorted, keys[..|keys| - 1]);
    }
  }

  lemma {:induction false} RuleIdsAreRules(cases: seq<Case>)
    ensures forall r :: r in RuleIds(cases) <==> exists i :: 0 <= i < |cases| && cases[i].finding.ruleId == r
    ensures NoDuplicates(RuleIds(cases))
  {
    if cases != [] {
      var n := |cases| - 1;
      RuleIdsAreRules(cases[..n]);
      forall r
        ensures r in RuleIds(cases) <==> exists i :: 0 <= i < |cases| && cases[i].finding.ruleId == r
      {
        if r in RuleIds(cases[..n]) {
          var i :| 0 <= i < n && cases[..n][i].finding.ruleId == r;
          assert cases[i].finding.ruleId == r;
        } else {
          assert forall i :: 0 <= i < n ==> cases[..n][i] == cases[i];
        }
      }
    }
  }

  function SortedRules(cases: seq<Case>): seq<string> {
    Sort(RuleIds(cases), StrLe)
  }

  lemma SortedRulesKnown(ctx: Context, cases: seq<Case>)
    requires KnownRules(ctx, cases)
    ensures AllKnown(ctx, SortedRules(cases))
  {
    var rs := SortedRules(cases);
    RuleIdsAreRules(cases);
    SortElements(RuleIds(cases), StrLe);
    forall i | 0 <= i < |rs|
      ensures rs[i] in ctx.rules
    {
      assert rs[i] in RuleIds(cases);
    }
  }

  function FinalCases(ctx: Context, sorted: seq<Evidence>): seq<Case> {
    var cases := AllGroupCases(ctx, sorted);
    GroupCasesKnown(ctx, sorted, SortedKeys(sorted));
    SortedRulesKnown(ctx, cases);
    Clustered(ctx, cases, SortedRules(cases))
  }

  function Correlation(ctx: Context, evidence: seq<Evidence>): Result {
    var sorted := Sort(evidence, EvidenceLe);
    var final := FinalCases(ctx, sorted);
    Result(Sort(Findings(final), FindingLe), AllLocations(final), SuppressedCount(ctx, sorted, SortedKeys(sorted)))
  }

  // ----- conservation

  function EvidencePlace(e: Evidence): Place {
    Place(e.artifactId, e.offset)
  }

  /** Hashing does not confuse two rules or two values. */
  ghost predicate InjectiveIds(ctx: Context) {
    forall r, h, p, o, r', h', p', o' :: ctx.ids(r, h, p, o) == ctx.ids(r', h', p', o') ==> r == r' && h == h'
  }

  ghost predicate IdOfRule(ctx: Context, f: Finding) {
    exists h, p, o :: f.id == ctx.ids(f.ruleId, h, p, o)
  }

  /** What every list of cases keeps: own, distinct locations and an id derived from the rule. */
  ghost predicate WellFormed(ctx: Context, c: Case) {
    && (forall l :: l in c.locations ==> l.findingId == c.finding.id)
    && DistinctPlaces(c.locations) && c.locations != []
    && IdOfRule(ctx, c.finding)
  }

  lemma CaseIsWellFormed(ctx: Context, sorted: seq<Evidence>, key: Key)
    requires Survives(ctx, sorted, key)
    ensures WellFormed(ctx, CaseOf(ctx, sorted, key)) && CaseOf(ctx, sorted, key).locations != []
    ensures CaseOf(ctx, sorted, key).finding.ruleId == key.0 && CaseOf(ctx, sorted, key).finding.valueHash == key.1
    ensures exists p, o :: CaseOf(ctx, sorted, key).finding.id == ctx.ids(key.0, key.1, p, o)
  {
    hide Score;
    var items := Group(sorted, key);
    var f := FindingOf(ctx, ctx.rules[key.0], items);
    FirstAtKeepsPlaces(LocationsOf(ctx, f.id, items));
    assert KeyOf(items[0]) == key;
    assert f.id == ctx.ids(f.ruleId, f.valueHash, PathOf(ctx, items[0].artifactId), Or0(items[0].offset));
  }

  /** A group's case sits exactly at the places of the group's evidence. */
  lemma CasePlaces(ctx: Context, sorted: seq<Evidence>, key: Key, place: Place)
    requires Survives(ctx, sorted, key)
    ensures place in Places(CaseOf(ctx, sorted, key).locations)
       <==> exists e :: e in sorted && KeyOf(e) == key && EvidencePlace(e) == place
  {
    hide Score;
    var items := Group(sorted, key);
    var all := LocationsOf(ctx, FindingOf(ctx, ctx.rules[key.0], items).id, items);
    FirstAtKeepsPlaces(all);
    if place in Places(all) {
      var i :| 0 <= i < |all| && PlaceOf(all[i]) == place;
      assert items[i] in sorted && EvidencePlace(items[i]) == place;
    }
    forall e | e in sorted && KeyOf(e) == key && EvidencePlace(e) == place
      ensures place in Places(all)
    {
      GroupMembers(sorted, e);
      var i :| 0 <= i < |items| && items[i] == e;
      assert PlaceOf(all[i]) == place;
    }
  }

  lemma {:induction false} GroupCasesMembers(ctx: Context, sorted: seq<Evidence>, keys: seq<Key>, c: Case)
    ensures c in GroupCases(ctx, sorted, keys)
       <==> exists k :: k in keys && Survives(ctx, sorted, k) && c == CaseOf(ctx, sorted, k)
  {
    hide Survives, CaseOf;
    if keys != [] {
      var n := |keys| - 1;
      GroupCasesMembers(ctx, sorted, keys[..n], c);
      assert keys == keys[..n] + [keys[n]];
    }
  }

  lemma DifferentKeysDifferentIds(ctx: Context, sorted: seq<Evidence>, k: Key, k': Key)
    requires InjectiveIds(ctx) && Survives(ctx, sorted, k) && Survives(ctx, sorted, k') && k != k'
    ensures CaseOf(ctx, sorted, k).finding.id != CaseOf(ctx, sorted, k').finding.id
  {
    hide Survives, CaseOf;
    CaseIsWellFormed(ctx, sorted, k);
    CaseIsWellFormed(ctx, sorted, k');
  }

  lemma {:induction false} GroupCasesDistinct(ctx: Context, sorted: seq<Evidence>, keys: seq<Key>)
    requires InjectiveIds(ctx) && NoDuplicates(keys)
    ensures DistinctIds(GroupCases(ctx, sorted, keys))
  {
    hide Survives, CaseOf, InjectiveIds;
    if keys != [] {
      var n := |keys| - 1;
      var before := GroupCases(ctx, sorted, keys[..n]);
      GroupCasesDistinct(ctx, sorted, keys[..n]);
      if Survives(ctx, sorted, keys[n]) {
        forall i | 0 <= i < |before|
          ensures before[i].finding.id != CaseOf(ctx, sorted, keys[n]).finding.id
        {
          GroupCasesMembers(ctx, sorted, keys[..n], before[i]);
          assert before[i] in before;
          var k :| k in keys[..n] && Survives(ctx, sorted, k) && before[i] == CaseOf(ctx, sorted, k);
          DifferentKeysDifferentIds(ctx, sorted, k, keys[n]);
        }
      }
    }
  }

  lemma {:induction false} CasesOfMembers(cases: seq<Case>, ruleId: string, c: Case)
    ensures c in CasesOf(cases, ruleId) <==> c in cases && c.finding.ruleId == ruleId
  {
    if cases != [] {
      var n := |cases| - 1;
      CasesOfMembers(cases[..n], ruleId, c);
      assert cases == cases[..n] + [cases[n]];
    }
  }

  lemma {:induction false} CasesOfDistinct(cases: seq<Case>, ruleId: string)
    requires DistinctIds(cases)
    ensures DistinctIds(CasesOf(cases, ruleId))
  {
    if cases != [] {
      var n := |cases| - 1;
      CasesOfDistinct(cases[..n], ruleId);
      forall i | 0 <= i < |CasesOf(cases[..n], ruleId)|
        ensures CasesOf(cases[..n], ruleId)[i].finding.id != cases[n].finding.id
      {
        var c := CasesOf(cases[..n], ruleId)[i];
        assert c in cases[..n];
      }
    }
  }

  /** The places of a list of cases are the places of its cases. */
  lemma {:induction false} PlacesOfAll(cases: seq<Case>, place: Place)
    ensures place in Places(AllLocations(cases))
       <==> exists i :: 0 <= i < |cases| && place in Places(cases[i].locations)
  {
    if cases != [] {
      var n := |cases| - 1;
      PlacesOfAll(cases[..n], place);
      PlacesOfConcat(AllLocations(cases[..n]), cases[n].locations);
      assert forall i :: 0 <= i < n ==> cases[..n][i] == cases[i];
    }
  }

  lemma PlacesOfConcat(a: seq<Location>, b: seq<Location>)
    ensures Places(a + b) == Places(a) + Places(b)
  {
    forall p | p in Places(a)
      ensures p in Places(a + b)
    {
      var i :| 0 <= i < |a| && PlaceOf(a[i]) == p;
      assert (a + b)[i] == a[i];
    }
    forall p | p in Places(b)
      ensures p in Places(a + b)
    {
      var i :| 0 <= i < |b| && PlaceOf(b[i]) == p;
      assert (a + b)[|a| + i] == b[i];
    }
  }

  lemma PlacesOfRelabel(id: string, locations: seq<Location>)
    ensures Places(Relabel(id, locations)) == Places(locations)
  {
    var r := Relabel(id, locations);
    assert forall i :: 0 <= i < |r| ==> PlaceOf(r[i]) == PlaceOf(locations[i]);
  }

  ghost predicate SitsAt(cases: seq<Case>, place: Place) {
    exists i :: 0 <= i < |cases| && place in Places(cases[i].locations)
  }

  /** A cluster sits exactly at the places of the findings it replaces. */
  lemma ClusterPlaces(ctx: Context, ruleId: string, cases: seq<Case>, place: Place)
    requires ruleId in ctx.rules && |cases| > CLUSTER_THRESHOLD
    ensures place in Places(Condense(ctx, ruleId, cases)[0].locations) <==> SitsAt(cases, place)
  {
    hide ClusterFinding;
    var ordered := Sort(cases, CaseIdLe);
    var id := ClusterFinding(ctx, ruleId, ctx.rules[ruleId], ordered).id;
    FirstAtKeepsPlaces(Relabel(id, AllLocations(ordered)));
    PlacesOfRelabel(id, AllLocations(ordered));
    PlacesOfAll(ordered, place);
    SortElements(cases, CaseIdLe);
    if SitsAt(cases, place) {
      var i :| 0 <= i < |cases| && place in Places(cases[i].locations);
      assert cases[i] in ordered;
    }
    if SitsAt(ordered, place) {
      var i :| 0 <= i < |ordered| && place in Places(ordered[i].locations);
      assert ordered[i] in cases;
    }
  }

  lemma {:induction false} ClusteredMembers(ctx: Context, cases: seq<Case>, ruleIds: seq<string>, c: Case)
    requires AllKnown(ctx, ruleIds)
    ensures c in Clustered(ctx, cases, ruleIds)
       <==> exists r :: r in ruleIds && r in ctx.rules && c in Condense(ctx, r, CasesOf(cases, r))
  {
    hide Condense, CasesOf;
    if ruleIds != [] {
      var n := |ruleIds| - 1;
      ClusteredMembers(ctx, cases, ruleIds[..n], c);
      assert ruleIds == ruleIds[..n] + [ruleIds[n]];
    }
  }

  // ----- who owns a piece of evidence

  predicate Clusters(ctx: Context, sorted: seq<Evidence>, ruleId: string) {
    |CasesOf(AllGroupCases(ctx, sorted), ruleId)| > CLUSTER_THRESHOLD
  }

  /** The finding a surviving group ends up on: its own, or its rule's cluster. */
  function OwnerCase(ctx: Context, sorted: seq<Evidence>, key: Key): Case
    requires Survives(ctx, sorted, key)
  {
    if Clusters(ctx, sorted, key.0)
    then Condense(ctx, key.0, CasesOf(AllGroupCases(ctx, sorted), key.0))[0]
    else CaseOf(ctx, sorted, key)
  }

  /** Evidence whose group is known and unsuppressed. */
  predicate Reported(ctx: Context, evidence: seq<Evidence>, e: Evidence) {
    e in evidence && Survives(ctx, Sort(evidence, EvidenceLe), KeyOf(e))
  }

  function Owner(ctx: Context, evidence: seq<Evidence>, e: Evidence): Finding
    requires Reported(ctx, evidence, e)
  {
    OwnerCase(ctx, Sort(evidence, EvidenceLe), KeyOf(e)).finding
  }

  lemma GroupCaseOrigin(ctx: Context, sorted: seq<Evidence>, c: Case) returns (k: Key)
    requires c in AllGroupCases(ctx, sorted)
    ensures Survives(ctx, sorted, k) && c == CaseOf(ctx, sorted, k) && c.finding.ruleId == k.0
  {
    hide Survives, CaseOf, GroupCases;
    GroupCasesMembers(ctx, sorted, SortedKeys(sorted), c);
    k :| k in SortedKeys(sorted) && Survives(ctx, sorted, k) && c == CaseOf(ctx, sorted, k);
    CaseIsWellFormed(ctx, sorted, k);
  }

  lemma SurvivorsHaveCases(ctx: Context, sorted: seq<Evidence>, k: Key)
    requires Survives(ctx, sorted, k)
    ensures CaseOf(ctx, sorted, k) in AllGroupCases(ctx, sorted)
    ensures CaseOf(ctx, sorted, k) in CasesOf(AllGroupCases(ctx, sorted), k.0)
    ensures k.0 in SortedRules(AllGroupCases(ctx, sorted))
  {
    SurvivorIsKey(ctx, sorted, k);
    hide Survives, CaseOf, GroupCases, Keys, Group;
    var cases, c := AllGroupCases(ctx, sorted), CaseOf(ctx, sorted, k);
    GroupCasesMembers(ctx, sorted, SortedKeys(sorted), c);
    CaseIsWellFormed(ctx, sorted, k);
    CasesOfMembers(cases, k.0, c);
    RuleIdsAreRules(cases);
    var i :| 0 <= i < |cases| && cases[i] == c;
    assert cases[i].finding.ruleId == k.0;
    SortElements(RuleIds(cases), StrLe);
  }

  lemma SurvivorIsKey(ctx: Context, sorted: seq<Evidence>, k: Key)
    requires Survives(ctx, sorted, k)
    ensures k in SortedKeys(sorted)
  {
    hide Keys, Group, IsSuppressed;
    var e := Group(sorted, k)[0];
    assert e in sorted && KeyOf(e) == k;
    var i :| 0 <= i < |sorted| && sorted[i] == e;
    assert KeyOf(sorted[i]) == k;
    KeysAreKeys(sorted);
    SortElements(Keys(sorted), KeyLe);
  }

  /** The final cases are exactly the owners of the surviving groups. */
  lemma FinalCasesAreOwners(ctx: Context, sorted: seq<Evidence>, c: Case)
    ensures c in FinalCases(ctx, sorted)
       <==> exists k :: Survives(ctx, sorted, k) && c == OwnerCase(ctx, sorted, k)
  {
    var cases := AllGroupCases(ctx, sorted);
    GroupCasesKnown(ctx, sorted, SortedKeys(sorted));
    SortedRulesKnown(ctx, cases);
    var rs := SortedRules(cases);
    ClusteredMembers(ctx, cases, rs, c);
    if c in FinalCases(ctx, sorted) {
      FinalCaseHasKey(ctx, sorted, c);
    }
    if k :| Survives(ctx, sorted, k) && c == OwnerCase(ctx, sorted, k) {
      SurvivorsHaveCases(ctx, sorted, k);
      OwnerInCondense(ctx, sorted, k);
    }
  }

  lemma OwnerInCondense(ctx: Context, sorted: seq<Evidence>, k: Key)
    requires Survives(ctx, sorted, k)
    ensures k.0 in ctx.rules
    ensures OwnerCase(ctx, sorted, k) in Condense(ctx, k.0, CasesOf(AllGroupCases(ctx, sorted), k.0))
  {
    hide AllGroupCases, CaseOf, ClusterFinding;
    SurvivorsHaveCases(ctx, sorted, k);
  }

  lemma FinalCaseRule(ctx: Context, sorted: seq<Evidence>, c: Case) returns (r: string)
    requires c in FinalCases(ctx, sorted)
    ensures r in ctx.rules && c in Condense(ctx, r, CasesOf(AllGroupCases(ctx, sorted), r))
  {
    hide GroupCases, Condense, CasesOf, Clustered;
    var cases := AllGroupCases(ctx, sorted);
    GroupCasesKnown(ctx, sorted, SortedKeys(sorted));
    SortedRulesKnown(ctx, cases);
    ClusteredMembers(ctx, cases, SortedRules(cases), c);
    r :| r in SortedRules(cases) && r in ctx.rules && c in Condense(ctx, r, CasesOf(cases, r));
  }

  lemma FinalCaseHasKey(ctx: Context, sorted: seq<Evidence>, c: Case)
    requires c in FinalCases(ctx, sorted)
    ensures exists k :: Survives(ctx, sorted, k) && c == OwnerCase(ctx, sorted, k)
  {
    hide Survives, CaseOf, ClusterFinding, AllGroupCases, FinalCases, CasesOf;
    var r := FinalCaseRule(ctx, sorted, c);
    var rc := CasesOf(AllGroupCases(ctx, sorted), r);
    var member := if |rc| > CLUSTER_THRESHOLD then rc[0] else c;
    assert member in rc;
    CasesOfMembers(AllGroupCases(ctx, sorted), r, member);
    var k := GroupCaseOrigin(ctx, sorted, member);
    assert c == OwnerCase(ctx, sorted, k);
  }

  /** The owner of a group sits at every place of the group's evidence, and only a cluster elsewhere. */
  lemma OwnerPlaces(ctx: Context, sorted: seq<Evidence>, k: Key, place: Place)
    requires Survives(ctx, sorted, k)
    ensures place in Places(OwnerCase(ctx, sorted, k).locations)
       <==> exists e :: && e in sorted && EvidencePlace(e) == place && Survives(ctx, sorted, KeyOf(e))
                        && OwnerCase(ctx, sorted, KeyOf(e)) == OwnerCase(ctx, sorted, k)
  {
    hide Survives, CaseOf, AllGroupCases, CasesOf, Condense;
    var rc := CasesOf(AllGroupCases(ctx, sorted), k.0);
    SurvivorsHaveCases(ctx, sorted, k);
    OwnerRule(ctx, sorted, k);
    if place in Places(OwnerCase(ctx, sorted, k).locations) {
      if Clusters(ctx, sorted, k.0) {
        ClusterPlaces(ctx, k.0, rc, place);
        var i :| 0 <= i < |rc| && place in Places(rc[i].locations);
        CasesOfMembers(AllGroupCases(ctx, sorted), k.0, rc[i]);
        var k' := GroupCaseOrigin(ctx, sorted, rc[i]);
        CasePlaces(ctx, sorted, k', place);
      } else {
        CasePlaces(ctx, sorted, k, place);
      }
    }
    if e :| && e in sorted && EvidencePlace(e) == place && Survives(ctx, sorted, KeyOf(e))
            && OwnerCase(ctx, sorted, KeyOf(e)) == OwnerCase(ctx, sorted, k) {
      var k' := KeyOf(e);
      OwnerRule(ctx, sorted, k');
      CasePlaces(ctx, sorted, k', place);
      SurvivorsHaveCases(ctx, sorted, k');
      if Clusters(ctx, sorted, k.0) {
        var i :| 0 <= i < |rc| && rc[i] == CaseOf(ctx, sorted, k');
        assert SitsAt(rc, place);
        ClusterPlaces(ctx, k.0, rc, place);
      }
    }
  }

  lemma OwnerRule(ctx: Context, sorted: seq<Evidence>, k: Key)
    requires Survives(ctx, sorted, k)
    ensures k.0 in ctx.rules && OwnerCase(ctx, sorted, k).finding.ruleId == k.0
    ensures WellFormed(ctx, OwnerCase(ctx, sorted, k))
  {
    CaseIsWellFormed(ctx, sorted, k);
    if Clusters(ctx, sorted, k.0) {
      ClusterIsWellFormed(ctx, sorted, k.0);
    }
  }

  lemma ClusterIsWellFormed(ctx: Context, sorted: seq<Evidence>, ruleId: string)
    requires ruleId in ctx.rules && Clusters(ctx, sorted, ruleId)
    ensures var c := Condense(ctx, ruleId, CasesOf(AllGroupCases(ctx, sorted), ruleId))[0];
            WellFormed(ctx, c) && c.finding.ruleId == ruleId
  {
    hide AllGroupCases, CasesOf, WellFormed, Condense, CaseOf, Survives;
    var rc := CasesOf(AllGroupCases(ctx, sorted), ruleId);
    CasesOfMembers(AllGroupCases(ctx, sorted), ruleId, rc[0]);
    var k := GroupCaseOrigin(ctx, sorted, rc[0]);
    CaseIsWellFormed(ctx, sorted, k);
    CondensedIsWellFormed(ctx, ruleId, rc, 0);
  }

  lemma CondensedIsWellFormed(ctx: Context, ruleId: string, cases: seq<Case>, i: nat)
    requires ruleId in ctx.rules && |cases| > CLUSTER_THRESHOLD
    requires i < |cases| && cases[i].locations != []
    ensures var c := Condense(ctx, ruleId, cases)[0];
            WellFormed(ctx, c) && c.finding.ruleId == ruleId
  {
    var ordered := Sort(cases, CaseIdLe);
    var f := ClusterFinding(ctx, ruleId, ctx.rules[ruleId], ordered);
    FirstAtKeepsPlaces(Relabel(f.id, AllLocations(ordered)));
    SortElements(cases, CaseIdLe);
    assert cases[i] in ordered;
    var j :| 0 <= j < |ordered| && ordered[j] == cases[i];
    NonEmptyLocations(ordered, j);
    assert f.id == ctx.ids(ruleId, ctx.clusterHash(ruleId, Hashes(ordered)), AnchorPath(ordered), 0);
  }

  lemma {:induction false} NonEmptyLocations(cases: seq<Case>, i: nat)
    requires i < |cases| && cases[i].locations != []
    ensures AllLocations(cases) != []
  {
    if i < |cases| - 1 {
      NonEmptyLocations(cases[..|cases| - 1], i);
    }
  }

  // ----- the result as a whole

  lemma CondensedRule(ctx: Context, ruleId: string, cases: seq<Case>, c: Case)
    requires ruleId in ctx.rules && c in Condense(ctx, ruleId, CasesOf(cases, ruleId))
    ensures c.finding.ruleId == ruleId
    ensures |Condense(ctx, ruleId, CasesOf(cases, ruleId))| <= CLUSTER_THRESHOLD
  {
    CasesOfMembers(cases, ruleId, c);
  }

  lemma DifferentRulesDifferentIds(ctx: Context, a: Finding, b: Finding)
    requires InjectiveIds(ctx) && IdOfRule(ctx, a) && IdOfRule(ctx, b) && a.ruleId != b.ruleId
    ensures a.id != b.id
  {
  }

  lemma DistinctConcat(a: seq<Case>, b: seq<Case>)
    requires DistinctIds(a) && DistinctIds(b)
    requires forall x, y :: x in a && y in b ==> x.finding.id != y.finding.id
    ensures DistinctIds(a + b)
  {
    forall i, j | 0 <= i < j < |a + b|
      ensures (a + b)[i].finding.id != (a + b)[j].finding.id
    {
      if i < |a| <= j {
        assert a[i] in a && b[j - |a|] in b;
      }
    }
  }

  lemma {:induction false} ClusteredDistinct(ctx: Context, cases: seq<Case>, ruleIds: seq<string>)
    requires InjectiveIds(ctx) && DistinctIds(cases) && AllKnown(ctx, ruleIds) && NoDuplicates(ruleIds)
    requires forall c :: c in Clustered(ctx, cases, ruleIds) ==> IdOfRule(ctx, c.finding)
    ensures DistinctIds(Clustered(ctx, cases, ruleIds))
  {
    hide Condense, InjectiveIds, IdOfRule, DistinctIds, CasesOf;
    if ruleIds != [] {
      var n := |ruleIds| - 1;
      var before, last := Clustered(ctx, cases, ruleIds[..n]), Condense(ctx, ruleIds[n], CasesOf(cases, ruleIds[n]));
      ClusteredDistinct(ctx, cases, ruleIds[..n]);
      CasesOfDistinct(cases, ruleIds[n]);
      CondenseDistinct(ctx, ruleIds[n], CasesOf(cases, ruleIds[n]));
      forall x, y | x in before && y in last
        ensures x.finding.id != y.finding.id
      {
        ClusteredMembers(ctx, cases, ruleIds[..n], x);
        var r :| r in ruleIds[..n] && r in ctx.rules && x in Condense(ctx, r, CasesOf(cases, r));
        CondensedRule(ctx, r, cases, x);
        CondensedRule(ctx, ruleIds[n], cases, y);
        DifferentRulesDifferentIds(ctx, x.finding, y.finding);
      }
      DistinctConcat(before, last);
    } else {
      assert DistinctIds([]) by { NothingDistinct(); }
    }
  }

  lemma NothingDistinct()
    ensures DistinctIds([])
  {
  }

  lemma CondenseDistinct(ctx: Context, ruleId: string, cases: seq<Case>)
    requires ruleId in ctx.rules && DistinctIds(cases)
    ensures DistinctIds(Condense(ctx, ruleId, cases))
  {
  }

  lemma FinalCasesDistinct(ctx: Context, sorted: seq<Evidence>)
    requires InjectiveIds(ctx)
    ensures DistinctIds(FinalCases(ctx, sorted))
  {
    hide GroupCases, Clustered, Keys, InjectiveIds, DistinctIds, Survives, OwnerCase;
    var cases := AllGroupCases(ctx, sorted);
    GroupCasesKnown(ctx, sorted, SortedKeys(sorted));
    SortedRulesKnown(ctx, cases);
    KeysAreKeys(sorted);
    SortNoDuplicates(Keys(sorted), KeyLe);
    GroupCasesDistinct(ctx, sorted, SortedKeys(sorted));
    RuleIdsAreRules(cases);
    SortNoDuplicates(RuleIds(cases), StrLe);
    forall c | c in FinalCases(ctx, sorted)
      ensures IdOfRule(ctx, c.finding)
    {
      FinalCasesAreOwners(ctx, sorted, c);
      var k :| Survives(ctx, sorted, k) && c == OwnerCase(ctx, sorted, k);
      OwnerRule(ctx, sorted, k);
    }
    ClusteredDistinct(ctx, cases, SortedRules(cases));
  }

  lemma FinalCaseWellFormed(ctx: Context, sorted: seq<Evidence>, c: Case)
    requires c in FinalCases(ctx, sorted)
    ensures WellFormed(ctx, c)
  {
    hide Survives, OwnerCase, FinalCases, WellFormed;
    FinalCasesAreOwners(ctx, sorted, c);
    var k :| Survives(ctx, sorted, k) && c == OwnerCase(ctx, sorted, k);
    OwnerRule(ctx, sorted, k);
  }

  lemma {:induction false} LocationMembers(cases: seq<Case>, l: Location)
    ensures l in AllLocations(cases) <==> exists c :: c in cases && l in c.locations
  {
    if cases != [] {
      var n := |cases| - 1;
      LocationMembers(cases[..n], l);
      assert cases == cases[..n] + [cases[n]];
    }
  }

  lemma ResultFindings(ctx: Context, evidence: seq<Evidence>, f: Finding)
    ensures f in Correlation(ctx, evidence).findings
       <==> exists c :: c in FinalCases(ctx, Sort(evidence, EvidenceLe)) && c.finding == f
  {
    hide FinalCases, SuppressedCount;
    var final := FinalCases(ctx, Sort(evidence, EvidenceLe));
    SortElements(Findings(final), FindingLe);
    if f in Findings(final) {
      var i :| 0 <= i < |final| && Findings(final)[i] == f;
      assert final[i] in final;
    }
    if c :| c in final && c.finding == f {
      var i :| 0 <= i < |final| && final[i] == c;
      assert Findings(final)[i] == f;
    }
  }

  lemma SameIdSameCase(cases: seq<Case>, a: Case, b: Case)
    requires DistinctIds(cases) && a in cases && b in cases && a.finding.id == b.finding.id
    ensures a == b
  {
    var i :| 0 <= i < |cases| && cases[i] == a;
    var j :| 0 <= j < |cases| && cases[j] == b;
  }

  /** A finding's locations in the result are the locations of its case. */
  lemma ResultLocations(ctx: Context, evidence: seq<Evidence>, c: Case, l: Location)
    requires InjectiveIds(ctx) && c in FinalCases(ctx, Sort(evidence, EvidenceLe))
    ensures l in c.locations <==> l in Correlation(ctx, evidence).locations && l.findingId == c.finding.id
  {
    hide FinalCases, SuppressedCount, DistinctIds, InjectiveIds, DistinctPlaces, IdOfRule;
    var sorted := Sort(evidence, EvidenceLe);
    var final := FinalCases(ctx, sorted);
    LocationMembers(final, l);
    FinalCaseWellFormed(ctx, sorted, c);
    FinalCasesDistinct(ctx, sorted);
    if l in AllLocations(final) && l.findingId == c.finding.id {
      var d :| d in final && l in d.locations;
      FinalCaseWellFormed(ctx, sorted, d);
      SameIdSameCase(final, c, d);
    }
  }

  ghost predicate LocatedAt(r: Result, id: string, place: Place) {
    exists l :: l in r.locations && l.findingId == id && PlaceOf(l) == place
  }

  /**
   Correlation conserves evidence: a finding of the result is located at a place exactly when
   some known, unsuppressed piece of evidence there belongs to it. Every such piece has one
   owner, which is in the result.
   */
  lemma EvidenceIsConserved(ctx: Context, evidence: seq<Evidence>, f: Finding, place: Place)
    requires InjectiveIds(ctx)
    ensures f in Correlation(ctx, evidence).findings && LocatedAt(Correlation(ctx, evidence), f.id, place)
       <==> exists e :: Reported(ctx, evidence, e) && Owner(ctx, evidence, e) == f && EvidencePlace(e) == place
  {
    hide Correlation, FinalCases, Survives, OwnerCase, InjectiveIds;
    var sorted, r := Sort(evidence, EvidenceLe), Correlation(ctx, evidence);
    SortElements(evidence, EvidenceLe);
    if f in r.findings && LocatedAt(r, f.id, place) {
      ResultFindings(ctx, evidence, f);
      var c :| c in FinalCases(ctx, sorted) && c.finding == f;
      var l :| l in r.locations && l.findingId == f.id && PlaceOf(l) == place;
      ResultLocations(ctx, evidence, c, l);
      LocatedHasEvidence(ctx, evidence, c, l);
    }
    if e :| Reported(ctx, evidence, e) && Owner(ctx, evidence, e) == f && EvidencePlace(e) == place {
      ReportedIsLocated(ctx, evidence, e);
    }
  }

  lemma LocatedHasEvidence(ctx: Context, evidence: seq<Evidence>, c: Case, l: Location)
    requires c in FinalCases(ctx, Sort(evidence, EvidenceLe)) && l in c.locations
    ensures exists e ::
          Reported(ctx, evidence, e) && Owner(ctx, evidence, e) == c.finding && EvidencePlace(e) == PlaceOf(l)
  {
    hide FinalCases, Survives, OwnerCase;
    var sorted := Sort(evidence, EvidenceLe);
    SortElements(evidence, EvidenceLe);
    FinalCasesAreOwners(ctx, sorted, c);
    var k :| Survives(ctx, sorted, k) && c == OwnerCase(ctx, sorted, k);
    var i :| 0 <= i < |c.locations| && c.locations[i] == l;
    assert PlaceOf(l) in Places(c.locations);
    OwnerPlaces(ctx, sorted, k, PlaceOf(l));
    var e :| && e in sorted && EvidencePlace(e) == PlaceOf(l) && Survives(ctx, sorted, KeyOf(e))
             && OwnerCase(ctx, sorted, KeyOf(e)) == c;
    assert Reported(ctx, evidence, e);
  }

  lemma ReportedIsLocated(ctx: Context, evidence: seq<Evidence>, e: Evidence)
    requires InjectiveIds(ctx) && Reported(ctx, evidence, e)
    ensures Owner(ctx, evidence, e) in Correlation(ctx, evidence).findings
    ensures LocatedAt(Correlation(ctx, evidence), Owner(ctx, evidence, e).id, EvidencePlace(e))
    ensures Owner(ctx, evidence, e).ruleId == e.ruleId
  {
    hide Correlation, FinalCases, Survives, OwnerCase, InjectiveIds, WellFormed;
    var sorted, place := Sort(evidence, EvidenceLe), EvidencePlace(e);
    SortElements(evidence, EvidenceLe);
    var c := OwnerCase(ctx, sorted, KeyOf(e));
    OwnerRule(ctx, sorted, KeyOf(e));
    FinalCasesAreOwners(ctx, sorted, c);
    ResultFindings(ctx, evidence, c.finding);
    OwnerPlaces(ctx, sorted, KeyOf(e), place);
    assert place in Places(c.locations);
    var i :| 0 <= i < |c.locations| && PlaceOf(c.locations[i]) == place;
    ResultLocations(ctx, evidence, c, c.locations[i]);
  }

  /** Two pieces of evidence of one rule share a finding iff they share a value or the rule clusters. */
  lemma OwnersAgree(ctx: Context, evidence: seq<Evidence>, a: Evidence, b: Evidence)
    requires InjectiveIds(ctx) && Reported(ctx, evidence, a) && Reported(ctx, evidence, b) && a.ruleId == b.ruleId
    ensures Owner(ctx, evidence, a) == Owner(ctx, evidence, b)
       <==> a.valueHash == b.valueHash || Clusters(ctx, Sort(evidence, EvidenceLe), a.ruleId)
  {
    hide AllGroupCases, CaseOf, Survives, CasesOf, Condense;
    var sorted := Sort(evidence, EvidenceLe);
    if a.valueHash != b.valueHash {
      DifferentKeysDifferentIds(ctx, sorted, KeyOf(a), KeyOf(b));
    }
  }

  /** A finding never lists a place twice, and lists only its own locations. */
  lemma LocationsAreDistinct(ctx: Context, evidence: seq<Evidence>, i: nat, j: nat)
    requires InjectiveIds(ctx)
    requires i < j < |Correlation(ctx, evidence).locations|
    ensures var l, m := Correlation(ctx, evidence).locations[i], Correlation(ctx, evidence).locations[j];
            l.findingId != m.findingId || PlaceOf(l) != PlaceOf(m)
  {
    var sorted := Sort(evidence, EvidenceLe);
    var final := FinalCases(ctx, sorted);
    FinalCasesDistinct(ctx, sorted);
    forall c | c in final
      ensures WellFormed(ctx, c)
    {
      FinalCaseWellFormed(ctx, sorted, c);
    }
    hide FinalCases, InjectiveIds, SuppressedCount, AllGroupCases, SortedKeys;
    FlatDistinct(ctx, final, i, j);
  }

  lemma {:induction false} FlatDistinct(ctx: Context, cases: seq<Case>, i: nat, j: nat)
    requires DistinctIds(cases) && forall c :: c in cases ==> WellFormed(ctx, c)
    requires i < j < |AllLocations(cases)|
    ensures var l, m := AllLocations(cases)[i], AllLocations(cases)[j];
            l.findingId != m.findingId || PlaceOf(l) != PlaceOf(m)
  {
    hide IdOfRule, DistinctIds;
    var n := |cases| - 1;
    var before := AllLocations(cases[..n]);
    CasesPrefix(cases, n);
    assert AllLocations(cases) == before + cases[n].locations;
    if j < |before| {
      FlatDistinct(ctx, cases[..n], i, j);
    } else if i < |before| {
      LocationMembers(cases[..n], before[i]);
      var c :| c in cases[..n] && before[i] in c.locations;
      LastIsNew(cases, c);
      assert cases[n] in cases && c in cases;
      hide AllLocations, DistinctPlaces;
      assert cases[n].locations[j - |before|] in cases[n].locations;
    } else {
      assert cases[n] in cases && DistinctPlaces(cases[n].locations);
      assert AllLocations(cases)[i] == cases[n].locations[i - |before|];
      assert AllLocations(cases)[j] == cases[n].locations[j - |before|];
    }
  }

  lemma LastIsNew(cases: seq<Case>, c: Case)
    requires cases != [] && DistinctIds(cases) && c in cases[..|cases| - 1]
    ensures c.finding.id != cases[|cases| - 1].finding.id
  {
  }

  lemma LocationsPointAtFindings(ctx: Context, evidence: seq<Evidence>, l: Location)
    requires l in Correlation(ctx, evidence).locations
    ensures exists f :: f in Correlation(ctx, evidence).findings && f.id == l.findingId
  {
    var sorted := Sort(evidence, EvidenceLe);
    hide FinalCases, SuppressedCount, AllGroupCases;
    LocationMembers(FinalCases(ctx, sorted), l);
    var c :| c in FinalCases(ctx, sorted) && l in c.locations;
    FinalCaseWellFormed(ctx, sorted, c);
    ResultFindings(ctx, evidence, c.finding);
  }

  lemma {:induction false} CasesOfOthers(cases: seq<Case>, ruleId: string)
    requires forall i :: 0 <= i < |cases| ==> cases[i].finding.ruleId != ruleId
    ensures CasesOf(cases, ruleId) == []
  {
    if cases != [] {
      CasesOfOthers(cases[..|cases| - 1], ruleId);
    }
  }

  lemma {:induction false} CasesOfConcat(a: seq<Case>, b: seq<Case>, ruleId: string)
    ensures CasesOf(a + b, ruleId) == CasesOf(a, ruleId) + CasesOf(b, ruleId)
    decreases |b|
  {
    if b == [] {
      assert a + b == a;
    } else {
      assert (a + b)[..|a + b| - 1] == a + b[..|b| - 1];
      CasesOfConcat(a, b[..|b| - 1], ruleId);
    }
  }

  lemma {:induction false} CasesOfLength(cases: seq<Case>, ruleId: string)
    ensures |CasesOf(cases, ruleId)| <= |cases|
  {
    if cases != [] {
      CasesOfLength(cases[..|cases| - 1], ruleId);
    }
  }

  lemma CondenseLength(ctx: Context, ruleId: string, cases: seq<Case>)
    requires ruleId in ctx.rules
    ensures |Condense(ctx, ruleId, cases)| <= CLUSTER_THRESHOLD
  {
  }

  lemma {:induction false} ClusteredThreshold(ctx: Context, cases: seq<Case>, ruleIds: seq<string>, r: string)
    requires AllKnown(ctx, ruleIds) && NoDuplicates(ruleIds)
    ensures |CasesOf(Clustered(ctx, cases, ruleIds), r)| <= if r in ruleIds then CLUSTER_THRESHOLD else 0
  {
    hide Condense, CasesOf;
    if ruleIds != [] {
      var n := |ruleIds| - 1;
      var before, last := Clustered(ctx, cases, ruleIds[..n]), Condense(ctx, ruleIds[n], CasesOf(cases, ruleIds[n]));
      ClusteredThreshold(ctx, cases, ruleIds[..n], r);
      CasesOfConcat(before, last, r);
      if r == ruleIds[n] {
        CondenseLength(ctx, r, CasesOf(cases, r));
        CasesOfLength(last, r);
      } else {
        forall i | 0 <= i < |last|
          ensures last[i].finding.ruleId != r
        {
          CondensedRule(ctx, ruleIds[n], cases, last[i]);
        }
        CasesOfOthers(last, r);
      }
    } else {
      CasesOfOthers([], r);
    }
  }

  lemma FinalThreshold(ctx: Context, sorted: seq<Evidence>, ruleId: string)
    ensures |CasesOf(FinalCases(ctx, sorted), ruleId)| <= CLUSTER_THRESHOLD
  {
    hide GroupCases, Clustered, CasesOf;
    var cases := AllGroupCases(ctx, sorted);
    GroupCasesKnown(ctx, sorted, SortedKeys(sorted));
    SortedRulesKnown(ctx, cases);
    RuleIdsAreRules(cases);
    SortNoDuplicates(RuleIds(cases), StrLe);
    ClusteredThreshold(ctx, cases, SortedRules(cases), ruleId);
  }

  lemma {:induction false} SetOfSeq(s: seq<Finding>)
    ensures |set f | f in s| <= |s|
  {
    if s != [] {
      var n := |s| - 1;
      SetOfSeq(s[..n]);
      assert (set f | f in s) == (set f | f in s[..n]) + {s[n]};
    }
  }

  lemma SubsetSize(a: set<Finding>, b: set<Finding>)
    requires a <= b
    ensures |a| <= |b|
  {
    assert b == a + (b - a);
  }

  /** No rule keeps more findings than the threshold. */
  lemma NoRuleFloodsTheReport(ctx: Context, evidence: seq<Evidence>, ruleId: string)
    ensures |set f | f in Correlation(ctx, evidence).findings && f.ruleId == ruleId| <= CLUSTER_THRESHOLD
  {
    hide Correlation, FinalCases;
    var final := FinalCases(ctx, Sort(evidence, EvidenceLe));
    var kept := Findings(CasesOf(final, ruleId));
    var findings := Correlation(ctx, evidence).findings;
    FinalThreshold(ctx, Sort(evidence, EvidenceLe), ruleId);
    SetOfSeq(kept);
    forall f | f in findings && f.ruleId == ruleId
      ensures f in kept
    {
      ResultFindings(ctx, evidence, f);
      var c :| c in final && c.finding == f;
      CasesOfMembers(final, ruleId, c);
      var i :| 0 <= i < |CasesOf(final, ruleId)| && CasesOf(final, ruleId)[i] == c;
      assert kept[i] == f;
    }
    SubsetSize(set f | f in findings && f.ruleId == ruleId, set f | f in kept);
  }

  // ----- the code: dictionaries filled in loops

  function Get<K, V>(m: map<K, seq<V>>, k: K): seq<V> {
    if k in m then m[k] else []
  }

  /** `groups`, a dictionary and its insertion order. */
  method GroupEvidence(sorted: seq<Evidence>) returns (order: seq<Key>, groups: map<Key, seq<Evidence>>)
    ensures order == Keys(sorted)
    ensures forall k :: Get(groups, k) == Group(sorted, k)
    ensures forall k :: k in groups <==> k in order
  {
    order, groups := [], map[];
    for i := 0 to |sorted|
      invariant order == Keys(sorted[..i])
      invariant forall k :: Get(groups, k) == Group(sorted[..i], k)
      invariant forall k :: k in groups <==> k in order
    {
      assert sorted[..i + 1][..i] == sorted[..i];
      var k := KeyOf(sorted[i]);
      if k !in groups {
        order := order + [k];
      }
      groups := groups[k := Get(groups, k) + [sorted[i]]];
    }
    assert sorted[..|sorted|] == sorted;
  }

  /** The location loop of one group, with its `seen` set. */
  method LocateGroup(ctx: Context, id: string, items: seq<Evidence>) returns (r: seq<Location>)
    ensures r == FirstAt(LocationsOf(ctx, id, items))
  {
    hide FirstAt, Places, PlaceOf, LocationOf;
    ghost var all := LocationsOf(ctx, id, items);
    var seen: set<Place> := {};
    r := [];
    NoPlaces();
    for i := 0 to |items|
      invariant seen == Places(all[..i]) && r == FirstAt(all[..i])
    {
      var l := LocationOf(ctx, id, items[i]);
      assert all[..i + 1] == all[..i] + [l];
      PlacesOfSnoc(all[..i], l);
      FirstAtSnoc(all[..i], l);
      if PlaceOf(l) !in seen {
        r := r + [l];
      }
      seen := seen + {PlaceOf(l)};
    }
    assert all[..|items|] == all;
  }

  method RelocateCluster(id: string, locations: seq<Location>) returns (r: seq<Location>)
    ensures r == FirstAt(Relabel(id, locations))
  {
    hide FirstAt, Places, PlaceOf;
    ghost var all := Relabel(id, locations);
    var seen: set<Place> := {};
    r := [];
    NoPlaces();
    for i := 0 to |locations|
      invariant seen == Places(all[..i]) && r == FirstAt(all[..i])
    {
      var l := locations[i].(findingId := id);
      assert all[..i + 1] == all[..i] + [l] && all[..i + 1][..i] == all[..i];
      PlacesOfSnoc(all[..i], l);
      FirstAtSnoc(all[..i], l);
      if PlaceOf(l) !in seen {
        r := r + [l];
      }
      seen := seen + {PlaceOf(l)};
    }
    assert all[..|locations|] == all;
  }

  lemma KeyHasGroup(sorted: seq<Evidence>, key: Key)
    requires key in SortedKeys(sorted)
    ensures Group(sorted, key) != []
  {
    SortElements(Keys(sorted), KeyLe);
    KeysAreKeys(sorted);
    var i :| 0 <= i < |sorted| && KeyOf(sorted[i]) == key;
    GroupMembers(sorted, sorted[i]);
  }

  /** The main loop of `correlate`: one finding for every surviving group. */
  method CollectGroups(ctx: Context, sorted: seq<Evidence>)
      returns (findings: seq<Finding>, locations: seq<Location>, suppressed: nat)
    ensures findings == Findings(AllGroupCases(ctx, sorted))
    ensures locations == AllLocations(AllGroupCases(ctx, sorted))
    ensures suppressed == SuppressedCount(ctx, sorted, SortedKeys(sorted))
  {
    var order, groups := GroupEvidence(sorted);
    var keys := Sort(order, KeyLe);
    SortElements(order, KeyLe);
    findings, locations, suppressed := [], [], 0;
    hide Keys, Group, Score, FirstAt;
    for i := 0 to |keys|
      invariant findings == Findings(GroupCases(ctx, sorted, keys[..i]))
      invariant locations == AllLocations(GroupCases(ctx, sorted, keys[..i]))
      invariant suppressed == SuppressedCount(ctx, sorted, keys[..i])
    {
      assert keys[..i + 1][..i] == keys[..i];
      var key := keys[i];
      assert key in keys;
      KeyHasGroup(sorted, key);
      assert Get(groups, key) == Group(sorted, key);
      var items := groups[key];
      ghost var before := GroupCases(ctx, sorted, keys[..i]);
      if key.0 !in ctx.rules {
        assert GroupCases(ctx, sorted, keys[..i + 1]) == before;
        continue;
      }
      if IsSuppressed(ctx, key, PathOf(ctx, items[0].artifactId)) {
        assert GroupCases(ctx, sorted, keys[..i + 1]) == before;
        suppressed := suppressed + 1;
        continue;
      }
      ghost var c := CaseOf(ctx, sorted, key);
      var finding := FindingOf(ctx, ctx.rules[key.0], items);
      findings := findings + [finding];
      var own := LocateGroup(ctx, finding.id, items);
      locations := locations + own;
      assert GroupCases(ctx, sorted, keys[..i + 1]) == before + [c];
      CasesSnoc(before, c);
    }
    assert keys[..|keys|] == keys;
  }

  lemma CasesSnoc(cases: seq<Case>, c: Case)
    ensures Findings(cases + [c]) == Findings(cases) + [c.finding]
    ensures AllLocations(cases + [c]) == AllLocations(cases) + c.locations
  {
    assert (cases + [c])[..|cases|] == cases;
  }

  /** `findings_by_rule`, a dictionary and its insertion order. */
  ghost predicate ByRule(cases: seq<Case>, order: seq<string>, byRule: map<string, seq<Finding>>) {
    && order == RuleIds(cases)
    && (forall r :: r in byRule <==> r in order)
    && (forall r :: Get(byRule, r) == Findings(CasesOf(cases, r)))
  }

  lemma NothingByRule()
    ensures ByRule([], [], map[])
  {
  }

  lemma RuleIdsSnoc(cases: seq<Case>, i: nat)
    requires i < |cases|
    ensures var r, before := cases[i].finding.ruleId, RuleIds(cases[..i]);
            RuleIds(cases[..i + 1]) == if r in before then before else before + [r]
  {
    assert cases[..i + 1][..i] == cases[..i];
  }

  lemma FindingsOfRuleSnoc(cases: seq<Case>, i: nat, r: string)
    requires i < |cases|
    ensures Findings(CasesOf(cases[..i + 1], r))
         == Findings(CasesOf(cases[..i], r)) + if r == cases[i].finding.ruleId then [cases[i].finding] else []
  {
    assert cases[..i + 1][..i] == cases[..i];
    CasesSnoc(CasesOf(cases[..i], r), cases[i]);
  }

  lemma ByRuleStep(cases: seq<Case>, i: nat, order: seq<string>, byRule: map<string, seq<Finding>>)
    requires i < |cases| && ByRule(cases[..i], order, byRule)
    ensures var f := cases[i].finding;
            ByRule(cases[..i + 1], if f.ruleId in byRule then order else order + [f.ruleId],
                   byRule[f.ruleId := Get(byRule, f.ruleId) + [f]])
  {
    hide RuleIds, CasesOf, Findings, Get;
    RuleIdsSnoc(cases, i);
    var f := cases[i].finding;
    var more := byRule[f.ruleId := Get(byRule, f.ruleId) + [f]];
    forall r
      ensures Get(more, r) == Findings(CasesOf(cases[..i + 1], r))
    {
      FindingsOfRuleSnoc(cases, i, r);
      GetMore(byRule, f.ruleId, f, r);
      assert Get(byRule, r) == Findings(CasesOf(cases[..i], r));
    }
    OrderMore(byRule, order, f.ruleId, Get(byRule, f.ruleId) + [f],
        if f.ruleId in byRule then order else order + [f.ruleId]);
  }

  lemma GetMore<K, V>(m: map<K, seq<V>>, k: K, v: V, r: K)
    ensures Get(m[k := Get(m, k) + [v]], r) == Get(m, r) + if r == k then [v] else []
  {
  }

  lemma OrderMore<K, V>(m: map<K, V>, order: seq<K>, k: K, v: V, longer: seq<K>)
    requires forall r :: r in m <==> r in order
    requires longer == if k in m then order else order + [k]
    ensures forall r :: r in m[k := v] <==> r in longer
  {
  }

  method IndexByRule(findings: seq<Finding>, ghost cases: seq<Case>)
      returns (order: seq<string>, byRule: map<string, seq<Finding>>)
    requires findings == Findings(cases)
    ensures ByRule(cases, order, byRule)
  {
    hide ByRule;
    order, byRule := [], map[];
    NothingByRule();
    for i := 0 to |findings|
      invariant ByRule(cases[..i], order, byRule)
    {
      ByRuleStep(cases, i, order, byRule);
      var r := findings[i].ruleId;
      if r !in byRule {
        order := order + [r];
      }
      byRule := byRule[r := Get(byRule, r) + [findings[i]]];
    }
    assert cases[..|findings|] == cases;
  }

  method IndexByFinding(locations: seq<Location>) returns (byFinding: map<string, seq<Location>>)
    ensures forall id :: Get(byFinding, id) == LocationsFor(locations, id)
  {
    byFinding := map[];
    for i := 0 to |locations|
      invariant forall id :: Get(byFinding, id) == LocationsFor(locations[..i], id)
    {
      assert locations[..i + 1][..i] == locations[..i];
      var id := locations[i].findingId;
      byFinding := byFinding[id := Get(byFinding, id) + [locations[i]]];
    }
    assert locations[..|locations|] == locations;
  }

  /** Cases whose findings and locations are those of an indexed list. */
  ghost predicate Indexed(cases: seq<Case>, byFinding: map<string, seq<Location>>) {
    forall i :: 0 <= i < |cases| ==> Get(byFinding, cases[i].finding.id) == cases[i].locations
  }

  method LocationsOfAll(findings: seq<Finding>, byFinding: map<string, seq<Location>>, ghost cases: seq<Case>)
      returns (r: seq<Location>)
    requires findings == Findings(cases) && Indexed(cases, byFinding)
    ensures r == AllLocations(cases)
  {
    r := [];
    for i := 0 to |findings|
      invariant r == AllLocations(cases[..i])
    {
      assert cases[..i + 1][..i] == cases[..i];
      r := r + Get(byFinding, findings[i].id);
    }
    assert cases[..|findings|] == cases;
  }

  /** Sorting findings by id and sorting cases by their finding's id agree. */
  lemma {:induction false} SortFindings(cases: seq<Case>)
    ensures Findings(Sort(cases, CaseIdLe)) == Sort(Findings(cases), IdLe)
  {
    if cases != [] {
      SortFindings(cases[1..]);
      InsertFinding(cases[0], Sort(cases[1..], CaseIdLe));
      assert Findings(cases)[1..] == Findings(cases[1..]);
    }
  }

  lemma FindingsFront(c: Case, cases: seq<Case>)
    ensures Findings([c] + cases) == [c.finding] + Findings(cases)
  {
  }

  lemma {:induction false} InsertFinding(c: Case, cases: seq<Case>)
    ensures Findings(Insert(c, cases, CaseIdLe)) == Insert(c.finding, Findings(cases), IdLe)
  {
    hide IdLe;
    if cases == [] {
      FindingsFront(c, []);
      assert [c] + [] == [c] && [c.finding] + [] == [c.finding];
    } else {
      var head, rest := cases[0], cases[1..];
      InsertFinding(c, rest);
      assert cases == [head] + rest;
      FindingsFront(head, rest);
      FindingsFront(c, cases);
      FindingsFront(head, Insert(c, rest, CaseIdLe));
      hide Findings;
      assert ([head.finding] + Findings(rest))[1..] == Findings(rest);
    }
  }

  function FindingHashes(findings: seq<Finding>): seq<string> {
    seq(|findings|, i requires 0 <= i < |findings| => findings[i].valueHash)
  }

  /** The cluster's finding, from the rule's findings sorted by id. */
  method SummariseCluster(ctx: Context, ruleId: string, ordered: seq<Finding>, byFinding: map<string, seq<Location>>,
                          ghost cases: seq<Case>)
      returns (finding: Finding)
    requires ruleId in ctx.rules && |ordered| >= 3
    requires ordered == Findings(cases) && Indexed(cases, byFinding)
    ensures finding == ClusterFinding(ctx, ruleId, ctx.rules[ruleId], cases)
  {
    hide MaxConfidence;
    var rule, anchor := ctx.rules[ruleId], ordered[0];
    var clusterHash := ctx.clusterHash(ruleId, FindingHashes(ordered));
    assert FindingHashes(ordered) == Hashes(cases);
    var anchorLocations := Get(byFinding, anchor.id);
    var anchorPath := if anchorLocations != [] then anchorLocations[0].pathInTree else "";
    var samples := [ordered[0].shown, ordered[1].shown, ordered[2].shown];
    assert samples == ShownOf(cases, 3);
    var confidence := HighestConfidence(ordered, cases);
    var id := ComputeId(ctx, (ruleId, clusterHash), anchorPath, None);
    finding := Finding(id, ruleId, rule.category, Systemic(rule.name, |ordered|), rule.severity, confidence,
                       Samples(|ordered|, samples), clusterHash, anchor.entropy, anchor.context, rule.cwe,
                       rule.tags + ["clustered"], rule.remediation);
  }

  method Cluster(ctx: Context, ruleId: string, findings: seq<Finding>, byFinding: map<string, seq<Location>>,
                 ghost cases: seq<Case>)
      returns (finding: Finding, locations: seq<Location>)
    requires ruleId in ctx.rules && |findings| > CLUSTER_THRESHOLD
    requires findings == Findings(cases) && Indexed(cases, byFinding)
    ensures Condense(ctx, ruleId, cases) == [Case(finding, locations)]
  {
    hide Sort, FirstAt, AllLocations, Relabel, ClusterFinding, Indexed, Findings;
    var ordered := Sort(findings, IdLe);
    ghost var sortedCases := Sort(cases, CaseIdLe);
    SortFindings(cases);
    SortedIndexed(cases, byFinding);
    finding := SummariseCluster(ctx, ruleId, ordered, byFinding, sortedCases);
    var all := LocationsOfAll(ordered, byFinding, sortedCases);
    locations := RelocateCluster(finding.id, all);
  }

  lemma SortedIndexed(cases: seq<Case>, byFinding: map<string, seq<Location>>)
    requires Indexed(cases, byFinding)
    ensures Indexed(Sort(cases, CaseIdLe), byFinding)
  {
    var sortedCases := Sort(cases, CaseIdLe);
    SortElements(cases, CaseIdLe);
    forall i | 0 <= i < |sortedCases|
      ensures Get(byFinding, sortedCases[i].finding.id) == sortedCases[i].locations
    {
      assert sortedCases[i] in cases;
    }
  }

  method HighestConfidence(findings: seq<Finding>, ghost cases: seq<Case>) returns (r: real)
    requires findings == Findings(cases) && cases != []
    ensures r == MaxConfidence(cases)
  {
    r := findings[0].confidence;
    for i := 1 to |findings|
      invariant r == MaxConfidence(cases[..i])
    {
      assert cases[..i + 1][..i] == cases[..i];
      if r < findings[i].confidence {
        r := findings[i].confidence;
      }
    }
    assert cases[..|findings|] == cases;
  }

  lemma CasesOfIndexed(cases: seq<Case>, byFinding: map<string, seq<Location>>, ruleId: string)
    requires Indexed(cases, byFinding)
    ensures Indexed(CasesOf(cases, ruleId), byFinding)
  {
    var rc := CasesOf(cases, ruleId);
    forall i | 0 <= i < |rc|
      ensures Get(byFinding, rc[i].finding.id) == rc[i].locations
    {
      assert rc[i] in cases;
    }
  }

  lemma {:induction false} CasesConcat(a: seq<Case>, b: seq<Case>)
    ensures Findings(a + b) == Findings(a) + Findings(b)
    ensures AllLocations(a + b) == AllLocations(a) + AllLocations(b)
  {
    LocationsConcat(a, b);
  }

  lemma {:induction false} LocationsConcat(a: seq<Case>, b: seq<Case>)
    ensures AllLocations(a + b) == AllLocations(a) + AllLocations(b)
  {
    hide AllLocations;
    if b == [] {
      assert a + b == a;
      NoCases();
    } else {
      var n := |b| - 1;
      var init, last := b[..n], b[n];
      LocationsConcat(a, init);
      CasesSnoc(a + init, last);
      CasesSnoc(init, last);
      assert a + b == a + init + [last] && b == init + [last];
      Reassociate(AllLocations(a), AllLocations(init), last.locations);
    }
  }

  lemma Reassociate(x: seq<Location>, y: seq<Location>, z: seq<Location>)
    ensures (x + y) + z == x + (y + z)
  {
  }

  lemma NoCases()
    ensures Findings([]) == [] && AllLocations([]) == []
  {
  }

  /** `_cluster_repetitive_rules`. */
  method ClusterRepetitiveRules(ctx: Context, findings: seq<Finding>, locations: seq<Location>, ghost cases: seq<Case>)
      returns (kept: seq<Finding>, keptLocations: seq<Location>)
    requires findings == Findings(cases) && locations == AllLocations(cases)
    requires DistinctIds(cases) && OwnLocations(cases) && KnownRules(ctx, cases)
    ensures AllKnown(ctx, SortedRules(cases))
    ensures kept == Findings(Clustered(ctx, cases, SortedRules(cases)))
    ensures keptLocations == AllLocations(Clustered(ctx, cases, SortedRules(cases)))
  {
    var order, byRule := IndexByRule(findings, cases);
    var byFinding := IndexByFinding(locations);
    assert Indexed(cases, byFinding) by {
      forall i | 0 <= i < |cases|
        ensures Get(byFinding, cases[i].finding.id) == cases[i].locations
      {
        LocationsOfCase(cases, i);
      }
    }
    SortedRulesKnown(ctx, cases);
    SortElements(order, StrLe);
    hide RuleIds, CasesOf, Clustered, Findings, Indexed, AllLocations, DistinctIds, OwnLocations;
    forall i | 0 <= i < |SortedRules(cases)|
      ensures SortedRules(cases)[i] in byRule
    {
      assert SortedRules(cases)[i] in order;
    }
    assert forall r :: r in byRule ==> byRule[r] == Get(byRule, r);
    kept, keptLocations := ClusterRules(ctx, Sort(order, StrLe), byRule, byFinding, cases);
  }

  lemma ClusteredSnoc(ctx: Context, cases: seq<Case>, rules: seq<string>, i: nat)
    requires AllKnown(ctx, rules) && i < |rules|
    ensures Clustered(ctx, cases, rules[..i + 1])
         == Clustered(ctx, cases, rules[..i]) + Condense(ctx, rules[i], CasesOf(cases, rules[i]))
  {
    assert rules[..i + 1][..i] == rules[..i];
  }

  /** The loop over the rules, in order of their ids. */
  method ClusterRules(ctx: Context, rules: seq<string>, byRule: map<string, seq<Finding>>,
                      byFinding: map<string, seq<Location>>, ghost cases: seq<Case>)
      returns (kept: seq<Finding>, keptLocations: seq<Location>)
    requires AllKnown(ctx, rules) && Indexed(cases, byFinding)
    requires forall i :: 0 <= i < |rules| ==>
               rules[i] in byRule && byRule[rules[i]] == Findings(CasesOf(cases, rules[i]))
    ensures kept == Findings(Clustered(ctx, cases, rules))
    ensures keptLocations == AllLocations(Clustered(ctx, cases, rules))
  {
    kept, keptLocations := [], [];
    assert Clustered(ctx, cases, rules[..0]) == [];
    assert AllLocations([]) == [];
    hide AllLocations, Condense, CasesOf, Indexed, Findings, Clustered;
    for i := 0 to |rules|
      invariant kept == Findings(Clustered(ctx, cases, rules[..i]))
      invariant keptLocations == AllLocations(Clustered(ctx, cases, rules[..i]))
    {
      var r := rules[i];
      ghost var rc := CasesOf(cases, r);
      CasesOfIndexed(cases, byFinding, r);
      var moreFindings, moreLocations := CondenseRule(ctx, r, byRule[r], byFinding, rc);
      kept, keptLocations := kept + moreFindings, keptLocations + moreLocations;
      ClusteredSnoc(ctx, cases, rules, i);
      CasesConcat(Clustered(ctx, cases, rules[..i]), Condense(ctx, r, rc));
    }
    assert rules[..|rules|] == rules;
  }

  method CondenseRule(ctx: Context, ruleId: string, findings: seq<Finding>, byFinding: map<string, seq<Location>>,
                      ghost cases: seq<Case>)
      returns (kept: seq<Finding>, locations: seq<Location>)
    requires ruleId in ctx.rules && findings == Findings(cases) && Indexed(cases, byFinding)
    ensures kept == Findings(Condense(ctx, ruleId, cases))
    ensures locations == AllLocations(Condense(ctx, ruleId, cases))
  {
    if |findings| <= CLUSTER_THRESHOLD {
      kept := findings;
      locations := LocationsOfAll(findings, byFinding, cases);
    } else {
      var finding, own := Cluster(ctx, ruleId, findings, byFinding, cases);
      kept, locations := [finding], own;
      CasesSnoc([], Case(finding, own));
      assert [] + [Case(finding, own)] == [Case(finding, own)];
    }
  }

  /** `correlate`. */
  method Correlate(ctx: Context, evidence: seq<Evidence>) returns (r: Result)
    requires InjectiveIds(ctx)
    ensures r == Correlation(ctx, evidence)
  {
    var sorted := Sort(evidence, EvidenceLe);
    ghost var cases := AllGroupCases(ctx, sorted);
    var findings, locations, suppressed := CollectGroups(ctx, sorted);
    GroupCasesKnown(ctx, sorted, SortedKeys(sorted));
    GroupCasesOwn(ctx, sorted);
    hide GroupCases, Clustered, SuppressedCount, DistinctIds, OwnLocations, KnownRules, InjectiveIds, AllLocations;
    var kept, keptLocations := ClusterRepetitiveRules(ctx, findings, locations, cases);
    r := Result(Sort(kept, FindingLe), keptLocations, suppressed);
  }

  lemma GroupCasesOwn(ctx: Context, sorted: seq<Evidence>)
    requires InjectiveIds(ctx)
    ensures DistinctIds(AllGroupCases(ctx, sorted)) && OwnLocations(AllGroupCases(ctx, sorted))
  {
    KeysAreKeys(sorted);
    SortNoDuplicates(Keys(sorted), KeyLe);
    GroupCasesDistinct(ctx, sorted, SortedKeys(sorted));
    var cases := AllGroupCases(ctx, sorted);
    hide AllGroupCases, CaseOf, Survives, DistinctPlaces, IdOfRule;
    forall i | 0 <= i < |cases|
      ensures forall l :: l in cases[i].locations ==> l.findingId == cases[i].finding.id
    {
      var k := GroupCaseOrigin(ctx, sorted, cases[i]);
      CaseIsWellFormed(ctx, sorted, k);
    }
  }
}
