/**
 When the order in which evidence arrives shows in what correlation reports
 (core/pipeline/correlator.py): never, unless pieces of evidence the sort key cannot tell
 apart differ in what the report takes from the first of them.
 */
module CorrelationOrder {
  import opened Correlator
  import opened Options
  import opened Order

  /** The sort key as a value; a missing offset sorts as 0. */
  function SortKey(e: Evidence): (string, string, string, int) {
    (e.ruleId, e.valueHash, e.artifactId, Or0(e.offset))
  }

  predicate Tied(a: Evidence, b: Evidence) {
    SortKey(a) == SortKey(b)
  }

  /** What a location takes from its evidence besides the artifact. */
  predicate SamePlacing(a: Evidence, b: Evidence) {
    a.offset == b.offset && a.section == b.section && a.encoding == b.encoding
  }

  /** What a finding takes from the first piece of its evidence besides the sort key. */
  predicate SameFace(a: Evidence, b: Evidence) {
    a.valueMasked == b.valueMasked && a.entropy == b.entropy && a.context == b.context
  }

  /** No evidence of the same rule and value sorts before `e`. */
  predicate LeadsGroup(evidence: seq<Evidence>, e: Evidence) {
    forall i :: 0 <= i < |evidence| && KeyOf(evidence[i]) == KeyOf(e) ==> EvidenceLe(e, evidence[i])
  }

  predicate TieAgrees(evidence: seq<Evidence>, a: Evidence, b: Evidence) {
    SamePlacing(a, b) && (LeadsGroup(evidence, a) ==> SameFace(a, b))
  }

  /**
   Tied evidence of a known, unsuppressed group agrees on offset, section and encoding, and at
   the head of a group also on masked value, entropy and context.
   */
  ghost predicate TiesAgree(ctx: Context, evidence: seq<Evidence>) {
    forall a, b :: Reported(ctx, evidence, a) && b in evidence && Tied(a, b) ==> TieAgrees(evidence, a, b)
  }

  // ----- sorting brings equal sort keys to equal positions

  lemma EqualKeys(a: Evidence, b: Evidence)
    requires EvidenceLe(a, b) && EvidenceLe(b, a)
    ensures Tied(a, b)
  {
    StrTotal(a.ruleId, b.ruleId);
    StrTotal(a.valueHash, b.valueHash);
    StrTotal(a.artifactId, b.artifactId);
    hide StrLe;
  }

  /** Evidence reduced to its sort key. */
  function Bare(e: Evidence): Evidence {
    Evidence(e.ruleId, e.valueHash, e.artifactId, Some(Or0(e.offset)), None, "", "", None, None)
  }

  function Bares(items: seq<Evidence>): (r: seq<Evidence>)
    ensures |r| == |items| && forall i :: 0 <= i < |r| ==> r[i] == Bare(items[i])
  {
    seq(|items|, i requires 0 <= i < |items| => Bare(items[i]))
  }

  lemma BaresOrder(sorted: seq<Evidence>)
    requires Sorted(sorted, EvidenceLe)
    ensures Sorted(Bares(sorted), EvidenceLe) && Distinguished(Bares(sorted), EvidenceLe)
  {
    hide StrLe, StrLt;
    forall i, j | 0 <= i < j < |sorted|
      ensures EvidenceLe(Bares(sorted)[i], Bares(sorted)[j])
    {
      assert EvidenceLe(sorted[i], sorted[j]);
    }
    forall x, y | x in Bares(sorted) && y in Bares(sorted) && EvidenceLe(x, y) && EvidenceLe(y, x)
      ensures x == y
    {
      EqualKeys(x, y);
    }
  }

  lemma Removed<T>(s: seq<T>, i: nat)
    requires i < |s|
    ensures multiset(s) == multiset(s[..i] + s[i + 1..]) + multiset{s[i]}
  {
    assert s == s[..i] + [s[i]] + s[i + 1..];
  }

  lemma Cancel<T>(m: multiset<T>, n: multiset<T>, x: T)
    requires m + multiset{x} == n + multiset{x}
    ensures m == n
  {
    forall e
      ensures m[e] == n[e]
    {
      assert (m + multiset{x})[e] == (n + multiset{x})[e];
    }
  }

  /** Taking one common element from two lists of the same elements leaves the same elements. */
  lemma RemovedFromBoth<T>(a: seq<T>, i: nat, b: seq<T>, j: nat)
    requires multiset(a) == multiset(b) && i < |a| && j < |b| && a[i] == b[j]
    ensures multiset(a[..i] + a[i + 1..]) == multiset(b[..j] + b[j + 1..])
  {
    Removed(a, i);
    Removed(b, j);
    Cancel(multiset(a[..i] + a[i + 1..]), multiset(b[..j] + b[j + 1..]), a[i]);
  }

  lemma BaresRemoved(items: seq<Evidence>, i: nat)
    requires i < |items|
    ensures multiset(Bares(items)) == multiset(Bares(items[..i] + items[i + 1..])) + multiset{Bare(items[i])}
  {
    hide Bare;
    assert Bares(items[..i] + items[i + 1..]) == Bares(items)[..i] + Bares(items)[i + 1..];
    Removed(Bares(items), i);
  }

  lemma FindHead<T>(a: seq<T>, b: seq<T>) returns (j: nat)
    requires a != [] && multiset(a) == multiset(b)
    ensures j < |b| && b[j] == a[0]
  {
    SameElements(a, b);
    assert a[0] in b;
    j :| 0 <= j < |b| && b[j] == a[0];
  }

  lemma BothWithoutHead(a: seq<Evidence>, b: seq<Evidence>) returns (c: seq<Evidence>, d: seq<Evidence>)
    requires a != [] && multiset(a) == multiset(b)
    ensures |c| < |a| && multiset(c) == multiset(d)
    ensures multiset(Bares(a)) == multiset(Bares(c)) + multiset{Bare(a[0])}
    ensures multiset(Bares(b)) == multiset(Bares(d)) + multiset{Bare(a[0])}
  {
    hide *;
    var j := FindHead(a, b);
    c, d := a[..0] + a[1..], b[..j] + b[j + 1..];
    RemovedFromBoth(a, 0, b, j);
    BaresRemoved(a, 0);
    BaresRemoved(b, j);
  }

  lemma {:induction false} BaresElements(a: seq<Evidence>, b: seq<Evidence>)
    requires multiset(a) == multiset(b)
    ensures multiset(Bares(a)) == multiset(Bares(b))
    decreases |a|
  {
    hide *;
    if a == [] {
      SameElements(a, b);
    } else {
      var c, d := BothWithoutHead(a, b);
      BaresElements(c, d);
    }
  }

  predicate Aligned(a: seq<Evidence>, b: seq<Evidence>) {
    |a| == |b| && forall i :: 0 <= i < |a| ==> Tied(a[i], b[i])
  }

  lemma SortsAlign(a: seq<Evidence>, b: seq<Evidence>)
    requires multiset(a) == multiset(b)
    ensures Aligned(Sort(a, EvidenceLe), Sort(b, EvidenceLe))
  {
    hide EvidenceLe, Distinguished, Sorted, Preorder;
    var s, t := Sort(a, EvidenceLe), Sort(b, EvidenceLe);
    EvidenceOrder();
    SortSorted(a, EvidenceLe);
    SortSorted(b, EvidenceLe);
    BaresOrder(s);
    BaresOrder(t);
    BaresElements(s, t);
    SortedUnique(Bares(s), Bares(t), EvidenceLe);
    forall i | 0 <= i < |s|
      ensures Tied(s[i], t[i])
    {
      assert Bare(s[i]) == Bares(s)[i] == Bares(t)[i] == Bare(t[i]);
    }
  }

  // ----- what alignment keeps

  lemma {:induction false} AlignedGroups(a: seq<Evidence>, b: seq<Evidence>, key: Key)
    requires Aligned(a, b)
    ensures Aligned(Group(a, key), Group(b, key))
  {
    if a != [] {
      var n := |a| - 1;
      AlignedGroups(a[..n], b[..n], key);
      assert Tied(a[n], b[n]);
    }
  }

  lemma {:induction false} AlignedKeys(a: seq<Evidence>, b: seq<Evidence>)
    requires Aligned(a, b)
    ensures Keys(a) == Keys(b)
  {
    if a != [] {
      var n := |a| - 1;
      AlignedKeys(a[..n], b[..n]);
      assert Tied(a[n], b[n]);
    }
  }

  lemma AlignedSurvival(ctx: Context, a: seq<Evidence>, b: seq<Evidence>, key: Key)
    requires Aligned(a, b)
    ensures Survives(ctx, a, key) == Survives(ctx, b, key)
  {
    hide IsSuppressed, Group;
    AlignedGroups(a, b, key);
    var g, h := Group(a, key), Group(b, key);
    if g != [] {
      assert Tied(g[0], h[0]);
    }
  }

  /** Aligned lists give a surviving group one id and one rule. */
  lemma AlignedIds(ctx: Context, a: seq<Evidence>, b: seq<Evidence>, key: Key)
    requires Aligned(a, b) && Survives(ctx, a, key) && Survives(ctx, b, key)
    ensures CaseOf(ctx, a, key).finding.id == CaseOf(ctx, b, key).finding.id
    ensures CaseOf(ctx, a, key).finding.ruleId == CaseOf(ctx, b, key).finding.ruleId
  {
    hide IsSuppressed, Group, FirstAt, Score;
    AlignedGroups(a, b, key);
    assert Tied(Group(a, key)[0], Group(b, key)[0]);
  }

  lemma {:induction false} AlignedCounts(ctx: Context, a: seq<Evidence>, b: seq<Evidence>, keys: seq<Key>, r: string)
    requires Aligned(a, b)
    ensures |CasesOf(GroupCases(ctx, a, keys), r)| == |CasesOf(GroupCases(ctx, b, keys), r)|
    ensures SuppressedCount(ctx, a, keys) == SuppressedCount(ctx, b, keys)
  {
    hide Survives, CaseOf, CasesOf, Aligned;
    if keys != [] {
      var n := |keys| - 1;
      AlignedCounts(ctx, a, b, keys[..n], r);
      AlignedSurvival(ctx, a, b, keys[n]);
      if Survives(ctx, a, keys[n]) {
        AlignedIds(ctx, a, b, keys[n]);
        CasesOfOneMore(GroupCases(ctx, a, keys[..n]), CaseOf(ctx, a, keys[n]), r);
        CasesOfOneMore(GroupCases(ctx, b, keys[..n]), CaseOf(ctx, b, keys[n]), r);
      } else {
        assert GroupCases(ctx, a, keys) == GroupCases(ctx, a, keys[..n]);
        assert GroupCases(ctx, b, keys) == GroupCases(ctx, b, keys[..n]);
      }
    }
  }

  lemma CasesOfOneMore(cases: seq<Case>, c: Case, r: string)
    ensures |CasesOf(cases + [c], r)| == |CasesOf(cases, r)| + if c.finding.ruleId == r then 1 else 0
  {
    assert (cases + [c])[..|cases|] == cases;
  }

  lemma AlignedClusters(ctx: Context, a: seq<Evidence>, b: seq<Evidence>, r: string)
    requires Aligned(a, b)
    ensures Clusters(ctx, a, r) == Clusters(ctx, b, r)
  {
    hide GroupCases, CasesOf, Keys;
    AlignedKeys(a, b);
    AlignedCounts(ctx, a, b, SortedKeys(a), r);
  }

  // ----- agreeing ties hide the order

  /** The peak entropy is the greatest of the group's entropies, in whatever order they come. */
  lemma {:induction false} PeakIsGreatest(items: seq<Evidence>)
    ensures Peak(items).None? ==> forall e :: e in items ==> e.entropy.None?
    ensures Peak(items).Some? ==> exists e :: e in items && e.entropy == Peak(items)
    ensures forall e :: e in items && e.entropy.Some? ==> Peak(items).Some? && e.entropy.value <= Peak(items).value
  {
    if items != [] {
      var n := |items| - 1;
      PeakIsGreatest(items[..n]);
      assert items == items[..n] + [items[n]];
      assert Peak(items) == items[n].entropy || Peak(items) == Peak(items[..n]);
    }
  }

  lemma SamePeak(a: seq<Evidence>, b: seq<Evidence>)
    requires forall e :: e in a <==> e in b
    ensures Peak(a) == Peak(b)
  {
    PeakIsGreatest(a);
    PeakIsGreatest(b);
    hide Peak;
  }

  /** Two orders of one group, agreeing position by position, tell the same. */
  ghost predicate Alike(a: seq<Evidence>, b: seq<Evidence>) {
    && Aligned(a, b) && (forall e :: e in a <==> e in b)
    && (forall i :: 0 <= i < |a| ==> SamePlacing(a[i], b[i]))
    && (a != [] ==> SameFace(a[0], b[0]))
  }

  lemma AlikeScore(rule: Rule, a: seq<Evidence>, b: seq<Evidence>)
    requires Alike(a, b)
    ensures Score(rule, a) == Score(rule, b)
  {
    SamePeak(a, b);
    assert forall i :: 0 <= i < |a| ==> SamePlacing(a[i], b[i]);
    assert AnyWide(a) == AnyWide(b);
    hide Peak, AnyWide;
  }

  lemma AlikeLocations(ctx: Context, id: string, a: seq<Evidence>, b: seq<Evidence>)
    requires Alike(a, b)
    ensures LocationsOf(ctx, id, a) == LocationsOf(ctx, id, b)
  {
    forall i | 0 <= i < |a|
      ensures LocationOf(ctx, id, a[i]) == LocationOf(ctx, id, b[i])
    {
      assert SamePlacing(a[i], b[i]) && Tied(a[i], b[i]);
    }
  }

  lemma AlikeCases(ctx: Context, a: seq<Evidence>, b: seq<Evidence>, key: Key)
    requires Survives(ctx, a, key) && Survives(ctx, b, key) && Alike(Group(a, key), Group(b, key))
    ensures CaseOf(ctx, a, key) == CaseOf(ctx, b, key)
  {
    hide Score, FirstAt, Group, IsSuppressed;
    var g, h, rule := Group(a, key), Group(b, key), ctx.rules[key.0];
    assert Tied(g[0], h[0]);
    AlikeScore(rule, g, h);
    assert FindingOf(ctx, rule, g) == FindingOf(ctx, rule, h);
    AlikeLocations(ctx, FindingOf(ctx, rule, g).id, g, h);
  }

  lemma {:induction false} GroupSorted(sorted: seq<Evidence>, key: Key)
    requires Sorted(sorted, EvidenceLe)
    ensures Sorted(Group(sorted, key), EvidenceLe)
  {
    hide EvidenceLe;
    if sorted != [] {
      var n := |sorted| - 1;
      GroupSorted(sorted[..n], key);
      forall e | e in Group(sorted[..n], key)
        ensures EvidenceLe(e, sorted[n])
      {
        assert e in sorted[..n];
      }
    }
  }

  lemma GroupHeadLeads(evidence: seq<Evidence>, key: Key)
    requires Group(Sort(evidence, EvidenceLe), key) != []
    ensures LeadsGroup(evidence, Group(Sort(evidence, EvidenceLe), key)[0])
  {
    hide StrLe, Group, Preorder;
    var sorted := Sort(evidence, EvidenceLe);
    var g := Group(sorted, key);
    EvidenceOrder();
    SortSorted(evidence, EvidenceLe);
    SortElements(evidence, EvidenceLe);
    GroupSorted(sorted, key);
    forall i | 0 <= i < |evidence| && KeyOf(evidence[i]) == key
      ensures EvidenceLe(g[0], evidence[i])
    {
      GroupMembers(sorted, evidence[i]);
      var j :| 0 <= j < |g| && g[j] == evidence[i];
    }
  }

  lemma SameMembers(a: seq<Evidence>, b: seq<Evidence>, key: Key)
    requires multiset(a) == multiset(b)
    ensures forall e :: e in Group(a, key) <==> e in Group(b, key)
  {
    hide Group;
    SameElements(a, b);
    forall e
      ensures e in Group(a, key) <==> e in Group(b, key)
    {
      if e in Group(a, key) {
        GroupMembers(b, e);
      }
      if e in Group(b, key) {
        GroupMembers(a, e);
      }
    }
  }

  lemma AgreeingGroups(ctx: Context, a: seq<Evidence>, b: seq<Evidence>, key: Key)
    requires multiset(a) == multiset(b) && TiesAgree(ctx, a)
    requires Survives(ctx, Sort(a, EvidenceLe), key)
    ensures Alike(Group(Sort(a, EvidenceLe), key), Group(Sort(b, EvidenceLe), key))
  {
    hide Survives, Group, EvidenceLe, SamePlacing, SameFace, Sort, Tied, LeadsGroup;
    var s, t := Sort(a, EvidenceLe), Sort(b, EvidenceLe);
    var g, h := Group(s, key), Group(t, key);
    SortsAlign(a, b);
    AlignedGroups(s, t, key);
    SameMembers(s, t, key);
    SortElements(a, EvidenceLe);
    SortElements(b, EvidenceLe);
    SameElements(a, b);
    forall i | 0 <= i < |g|
      ensures TieAgrees(a, g[i], h[i])
    {
      assert g[i] in s && h[i] in t && Tied(g[i], h[i]);
      assert Reported(ctx, a, g[i]);
    }
    if g != [] {
      GroupHeadLeads(a, key);
    }
  }

  lemma {:induction false} SameGroupCases(ctx: Context, a: seq<Evidence>, b: seq<Evidence>, keys: seq<Key>)
    requires forall k :: Survives(ctx, a, k) == Survives(ctx, b, k)
    requires forall k :: Survives(ctx, a, k) ==> CaseOf(ctx, a, k) == CaseOf(ctx, b, k)
    ensures GroupCases(ctx, a, keys) == GroupCases(ctx, b, keys)
  {
    hide Survives, CaseOf;
    if keys != [] {
      SameGroupCases(ctx, a, b, keys[..|keys| - 1]);
    }
  }

  /** Any order of evidence whose ties agree gives the identical result. */
  lemma EvidenceOrderIgnored(ctx: Context, a: seq<Evidence>, b: seq<Evidence>)
    requires multiset(a) == multiset(b) && TiesAgree(ctx, a)
    ensures Correlation(ctx, a) == Correlation(ctx, b)
  {
    hide GroupCases, Clustered, SuppressedCount, Survives, CaseOf, TiesAgree, Alike, Aligned, Keys, CasesOf, Sort,
      FindingLe, RuleIds, Group;
    var s, t := Sort(a, EvidenceLe), Sort(b, EvidenceLe);
    SortsAlign(a, b);
    forall k
      ensures Survives(ctx, s, k) == Survives(ctx, t, k)
      ensures Survives(ctx, s, k) ==> CaseOf(ctx, s, k) == CaseOf(ctx, t, k)
    {
      AlignedSurvival(ctx, s, t, k);
      if Survives(ctx, s, k) {
        AgreeingGroups(ctx, a, b, k);
        AlikeCases(ctx, s, t, k);
      }
    }
    AlignedKeys(s, t);
    SameGroupCases(ctx, s, t, SortedKeys(s));
    AlignedCounts(ctx, s, t, SortedKeys(s), "");
  }

  // ----- suppressions

  lemma SuppressionOrder(a: Context, b: Context, key: Key, path: string)
    requires a == b.(suppressions := a.suppressions) && multiset(a.suppressions) == multiset(b.suppressions)
    requires IsSuppressed(a, key, path)
    ensures IsSuppressed(b, key, path)
  {
    SameElements(a.suppressions, b.suppressions);
    var i :| 0 <= i < |a.suppressions| && Suppresses(a, a.suppressions[i], key, path);
    assert a.suppressions[i] in b.suppressions;
    var j :| 0 <= j < |b.suppressions| && b.suppressions[j] == a.suppressions[i];
    assert Suppresses(b, b.suppressions[j], key, path);
  }

  lemma SurvivalOrder(a: Context, b: Context, sorted: seq<Evidence>, key: Key)
    requires a == b.(suppressions := a.suppressions) && multiset(a.suppressions) == multiset(b.suppressions)
    ensures Survives(a, sorted, key) == Survives(b, sorted, key)
  {
    hide IsSuppressed, Group;
    var items := Group(sorted, key);
    if items != [] {
      var path := PathOf(a, items[0].artifactId);
      if IsSuppressed(a, key, path) {
        SuppressionOrder(a, b, key, path);
      }
      if IsSuppressed(b, key, path) {
        SuppressionOrder(b, a, key, path);
      }
    }
  }

  lemma {:induction false} GroupCasesOrder(a: Context, b: Context, sorted: seq<Evidence>, keys: seq<Key>)
    requires a == b.(suppressions := a.suppressions) && multiset(a.suppressions) == multiset(b.suppressions)
    ensures GroupCases(a, sorted, keys) == GroupCases(b, sorted, keys)
    ensures SuppressedCount(a, sorted, keys) == SuppressedCount(b, sorted, keys)
  {
    if keys != [] {
      var n := |keys| - 1;
      GroupCasesOrder(a, b, sorted, keys[..n]);
      SurvivalOrder(a, b, sorted, keys[n]);
      if Survives(a, sorted, keys[n]) {
        SameCase(a, b, sorted, keys[n]);
      }
    }
  }

  lemma SameCase(a: Context, b: Context, sorted: seq<Evidence>, key: Key)
    requires a == b.(suppressions := a.suppressions)
    requires Survives(a, sorted, key) && Survives(b, sorted, key)
    ensures CaseOf(a, sorted, key) == CaseOf(b, sorted, key)
  {
    hide Score, Group, FirstAt;
    var items := Group(sorted, key);
    var f := FindingOf(a, a.rules[key.0], items);
    assert f == FindingOf(b, b.rules[key.0], items);
    assert LocationsOf(a, f.id, items) == LocationsOf(b, f.id, items);
  }

  lemma {:induction false} ClusteredOrder(a: Context, b: Context, cases: seq<Case>, ruleIds: seq<string>)
    requires a == b.(suppressions := a.suppressions) && AllKnown(a, ruleIds)
    ensures AllKnown(b, ruleIds) && Clustered(a, cases, ruleIds) == Clustered(b, cases, ruleIds)
  {
    if ruleIds != [] {
      ClusteredOrder(a, b, cases, ruleIds[..|ruleIds| - 1]);
    }
  }

  lemma SuppressionOrderIgnored(a: Context, b: Context, evidence: seq<Evidence>)
    requires a == b.(suppressions := a.suppressions) && multiset(a.suppressions) == multiset(b.suppressions)
    ensures Correlation(a, evidence) == Correlation(b, evidence)
  {
    hide GroupCases, Clustered, SuppressedCount, EvidenceLe, FindingLe, RuleIds, Sort;
    var sorted := Sort(evidence, EvidenceLe);
    GroupCasesOrder(a, b, sorted, SortedKeys(sorted));
    var cases := AllGroupCases(a, sorted);
    GroupCasesKnown(a, sorted, SortedKeys(sorted));
    SortedRulesKnown(a, cases);
    ClusteredOrder(a, b, cases, SortedRules(cases));
  }

  /**
   Within one run, neither the order of the evidence nor that of the suppressions shows in the
   result: findings, ids, cluster hashes and locations come out identical and in the same order,
   provided tied evidence agrees.
   */
  lemma CorrelationIgnoresOrder(a: Context, b: Context, evidenceA: seq<Evidence>, evidenceB: seq<Evidence>)
    requires a == b.(suppressions := a.suppressions) && multiset(a.suppressions) == multiset(b.suppressions)
    requires multiset(evidenceA) == multiset(evidenceB) && TiesAgree(a, evidenceA)
    ensures Correlation(a, evidenceA) == Correlation(b, evidenceB)
  {
    hide Correlation, TiesAgree;
    EvidenceOrderIgnored(a, evidenceA, evidenceB);
    SuppressionOrderIgnored(a, b, evidenceB);
  }

  // ----- disagreeing ties show the order

  lemma InsertBehind<T>(x: T, head: T, rest: seq<T>, le: (T, T) -> bool)
    requires !le(x, head)
    ensures Insert(x, [head] + rest, le) == [head] + Insert(x, rest, le)
  {
    assert ([head] + rest)[1..] == rest;
  }

  lemma InsertBefore<T>(x: T, s: seq<T>, le: (T, T) -> bool)
    requires s == [] || le(x, s[0])
    ensures Insert(x, s, le) == [x] + s
  {
  }

  lemma {:induction false} InsertInto<T>(x: T, pre: seq<T>, post: seq<T>, le: (T, T) -> bool)
    requires forall e :: e in pre ==> !le(x, e)
    requires post == [] || le(x, post[0])
    ensures Insert(x, pre + post, le) == pre + [x] + post
  {
    hide Insert;
    if pre == [] {
      InsertBefore(x, post, le);
      assert pre + post == post && pre + [x] + post == [x] + post;
    } else {
      InsertInto(x, pre[1..], post, le);
      InsertBehind(x, pre[0], pre[1..] + post, le);
      assert pre + post == [pre[0]] + (pre[1..] + post);
      assert pre + [x] + post == [pre[0]] + (pre[1..] + [x] + post);
    }
  }

  /** Where an element goes: behind everything it does not precede. */
  lemma {:induction false} SplitFor<T>(x: T, s: seq<T>, le: (T, T) -> bool) returns (n: nat)
    ensures n <= |s| && (forall e :: e in s[..n] ==> !le(x, e)) && (n == |s| || le(x, s[n]))
  {
    n := 0;
    while n < |s| && !le(x, s[n])
      invariant n <= |s| && forall e :: e in s[..n] ==> !le(x, e)
    {
      assert s[..n + 1] == s[..n] + [s[n]];
      n := n + 1;
    }
  }

  lemma TiesCompareAlike(x: Evidence, y: Evidence, e: Evidence)
    requires Tied(x, y)
    ensures EvidenceLe(x, e) == EvidenceLe(y, e) && EvidenceLe(x, y)
  {
  }

  lemma SortFront<T>(x: T, s: seq<T>, le: (T, T) -> bool)
    ensures Sort([x] + s, le) == Insert(x, Sort(s, le), le)
  {
    assert ([x] + s)[1..] == s;
  }

  lemma Regroup<T>(pre: seq<T>, x: T, y: T, post: seq<T>)
    ensures pre + [y] + post == pre + ([y] + post)
    ensures pre + [x] + ([y] + post) == pre + [x, y] + post
  {
  }

  lemma TwoInserts(x: Evidence, y: Evidence, pre: seq<Evidence>, post: seq<Evidence>, rest: seq<Evidence>)
    requires Tied(x, y) && Sort(rest, EvidenceLe) == pre + post
    requires forall e :: e in pre ==> !EvidenceLe(x, e)
    requires post == [] || EvidenceLe(x, post[0])
    ensures Sort([x, y] + rest, EvidenceLe) == pre + [x, y] + post
  {
    hide EvidenceLe, Tied, Sort, Insert;
    OneInsert(x, y, pre, post);
    SortFront(y, rest, EvidenceLe);
    TiesCompareAlike(x, y, y);
    Regroup(pre, x, y, post);
    InsertInto(x, pre, [y] + post, EvidenceLe);
    SortFront(x, [y] + rest, EvidenceLe);
    assert [x, y] + rest == [x] + ([y] + rest);
  }

  lemma OneInsert(x: Evidence, y: Evidence, pre: seq<Evidence>, post: seq<Evidence>)
    requires Tied(x, y)
    requires forall e :: e in pre ==> !EvidenceLe(x, e)
    requires post == [] || EvidenceLe(x, post[0])
    ensures Insert(y, pre + post, EvidenceLe) == pre + [y] + post
  {
    hide EvidenceLe, Tied, Insert;
    forall e
      ensures EvidenceLe(x, e) == EvidenceLe(y, e)
    {
      TiesCompareAlike(x, y, e);
    }
    InsertInto(y, pre, post, EvidenceLe);
  }

  /** The two orders of a tied pair sort to lists that differ in that pair alone. */
  lemma TiedPairSorts(x: Evidence, y: Evidence, rest: seq<Evidence>) returns (pre: seq<Evidence>, post: seq<Evidence>)
    requires Tied(x, y)
    ensures Sort([x, y] + rest, EvidenceLe) == pre + [x, y] + post
    ensures Sort([y, x] + rest, EvidenceLe) == pre + [y, x] + post
    ensures forall e :: e in pre ==> !EvidenceLe(x, e)
  {
    hide EvidenceLe;
    var s := Sort(rest, EvidenceLe);
    var n := SplitFor(x, s, EvidenceLe);
    pre, post := s[..n], s[n..];
    assert s == pre + post;
    TwoInserts(x, y, pre, post, rest);
    forall e
      ensures EvidenceLe(x, e) == EvidenceLe(y, e)
    {
      TiesCompareAlike(x, y, e);
    }
    TwoInserts(y, x, pre, post, rest);
  }

  lemma {:induction false} GroupConcat(a: seq<Evidence>, b: seq<Evidence>, key: Key)
    ensures Group(a + b, key) == Group(a, key) + Group(b, key)
    decreases |b|
  {
    if b == [] {
      assert a + b == a;
    } else {
      var n := |b| - 1;
      assert (a + b)[..|a + b| - 1] == a + b[..n];
      GroupConcat(a, b[..n], key);
    }
  }

  lemma GroupOfPair(x: Evidence, y: Evidence)
    requires KeyOf(x) == KeyOf(y)
    ensures Group([x, y], KeyOf(x)) == [x, y]
  {
    assert [x, y][..1] == [x] && [x][..0] == [];
    assert Group([x], KeyOf(x)) == [x];
  }

  lemma GroupAround(pre: seq<Evidence>, x: Evidence, y: Evidence, post: seq<Evidence>)
    requires KeyOf(x) == KeyOf(y)
    ensures Group(pre + [x, y] + post, KeyOf(x)) == Group(pre, KeyOf(x)) + [x, y] + Group(post, KeyOf(x))
  {
    hide Group;
    GroupConcat(pre + [x, y], post, KeyOf(x));
    GroupConcat(pre, [x, y], KeyOf(x));
    GroupOfPair(x, y);
  }

  lemma {:induction false} FirstAtGrows(a: seq<Location>, b: seq<Location>)
    ensures FirstAt(a) <= FirstAt(a + b)
    decreases |b|
  {
    hide Places;
    if b == [] {
      assert a + b == a;
    } else {
      var n := |b| - 1;
      assert a + b == (a + b[..n]) + [b[n]];
      FirstAtGrows(a, b[..n]);
      FirstAtSnoc(a + b[..n], b[n]);
    }
  }

  /** A location at a new place is kept, right behind those kept so far. */
  lemma NewPlaceIsKept(a: seq<Location>, l: Location, b: seq<Location>)
    requires PlaceOf(l) !in Places(a)
    ensures FirstAt(a) + [l] <= FirstAt(a + [l] + b)
  {
    hide Places, FirstAt;
    FirstAtSnoc(a, l);
    FirstAtGrows(a + [l], b);
  }

  lemma LocationsAround(ctx: Context, id: string, pre: seq<Evidence>, x: Evidence, post: seq<Evidence>)
    ensures LocationsOf(ctx, id, pre + [x] + post)
         == LocationsOf(ctx, id, pre) + [LocationOf(ctx, id, x)] + LocationsOf(ctx, id, post)
  {
  }

  lemma LocatedAfter(ctx: Context, id: string, pre: seq<Evidence>, x: Evidence, post: seq<Evidence>)
    requires forall e :: e in pre ==> EvidencePlace(e) != EvidencePlace(x)
    ensures FirstAt(LocationsOf(ctx, id, pre)) + [LocationOf(ctx, id, x)]
         <= FirstAt(LocationsOf(ctx, id, pre + [x] + post))
  {
    hide FirstAt;
    var before := LocationsOf(ctx, id, pre);
    forall i | 0 <= i < |before|
      ensures PlaceOf(before[i]) != EvidencePlace(x)
    {
      assert pre[i] in pre;
    }
    LocationsAround(ctx, id, pre, x, post);
    NewPlaceIsKept(before, LocationOf(ctx, id, x), LocationsOf(ctx, id, post));
  }

  /** Swapping a tied pair whose places or sections or encodings differ changes the locations. */
  lemma SwapShowsInLocations(ctx: Context, id: string, pre: seq<Evidence>, x: Evidence, y: Evidence,
                             post: seq<Evidence>)
    requires Tied(x, y) && forall e :: e in pre ==> !EvidenceLe(x, e) && KeyOf(e) == KeyOf(x)
    requires FirstAt(LocationsOf(ctx, id, pre + [x, y] + post)) == FirstAt(LocationsOf(ctx, id, pre + [y, x] + post))
    ensures SamePlacing(x, y)
  {
    hide FirstAt, LocationsOf, StrLe;
    assert pre + [x, y] + post == pre + [x] + ([y] + post);
    assert pre + [y, x] + post == pre + [y] + ([x] + post);
    LocatedAfter(ctx, id, pre, x, [y] + post);
    LocatedAfter(ctx, id, pre, y, [x] + post);
    var n := |FirstAt(LocationsOf(ctx, id, pre))|;
    var all := FirstAt(LocationsOf(ctx, id, pre + [x, y] + post));
    assert all[n] == LocationOf(ctx, id, x) && all[n] == LocationOf(ctx, id, y);
  }

  /** With ids that tell values apart, a result determines the case of every group it reports. */
  lemma ResultDeterminesCase(ctx: Context, a: seq<Evidence>, b: seq<Evidence>, c: Case, d: Case)
    requires InjectiveIds(ctx) && Correlation(ctx, a) == Correlation(ctx, b)
    requires c in FinalCases(ctx, Sort(a, EvidenceLe)) && d in FinalCases(ctx, Sort(b, EvidenceLe))
    requires c.finding.id == d.finding.id
    ensures c == d
  {
    hide FinalCases, InjectiveIds, DistinctIds, SuppressedCount, LocationsFor, AllLocations, Sort, WellFormed;
    var s, t := Sort(a, EvidenceLe), Sort(b, EvidenceLe);
    FinalCasesDistinct(ctx, s);
    FinalCasesDistinct(ctx, t);
    LocationsInResult(ctx, s, c);
    LocationsInResult(ctx, t, d);
    FindingInResult(ctx, a, b, c, d);
  }

  lemma LocationsInResult(ctx: Context, sorted: seq<Evidence>, c: Case)
    requires InjectiveIds(ctx) && c in FinalCases(ctx, sorted)
    ensures LocationsFor(AllLocations(FinalCases(ctx, sorted)), c.finding.id) == c.locations
  {
    hide FinalCases, InjectiveIds, DistinctIds, LocationsFor, AllLocations, DistinctPlaces, IdOfRule;
    var final := FinalCases(ctx, sorted);
    FinalCasesDistinct(ctx, sorted);
    forall i | 0 <= i < |final|
      ensures forall l :: l in final[i].locations ==> l.findingId == final[i].finding.id
    {
      FinalCaseWellFormed(ctx, sorted, final[i]);
    }
    var i :| 0 <= i < |final| && final[i] == c;
    LocationsOfCase(final, i);
  }

  lemma FindingInResult(ctx: Context, a: seq<Evidence>, b: seq<Evidence>, c: Case, d: Case)
    requires InjectiveIds(ctx) && Correlation(ctx, a) == Correlation(ctx, b)
    requires c in FinalCases(ctx, Sort(a, EvidenceLe)) && d in FinalCases(ctx, Sort(b, EvidenceLe))
    requires c.finding.id == d.finding.id
    ensures c.finding == d.finding
  {
    hide Correlation, FinalCases, InjectiveIds, DistinctIds, Sort;
    var t := Sort(b, EvidenceLe);
    ResultFindings(ctx, a, c.finding);
    ResultFindings(ctx, b, c.finding);
    FinalCasesDistinct(ctx, t);
    var e :| e in FinalCases(ctx, t) && e.finding == c.finding;
    SameIdSameCase(FinalCases(ctx, t), d, e);
  }

  lemma UnclusteredCase(ctx: Context, sorted: seq<Evidence>, key: Key)
    requires Survives(ctx, sorted, key) && !Clusters(ctx, sorted, key.0)
    ensures CaseOf(ctx, sorted, key) in FinalCases(ctx, sorted)
  {
    hide Survives, CaseOf, FinalCases, Clusters, Condense;
    FinalCasesAreOwners(ctx, sorted, CaseOf(ctx, sorted, key));
    assert OwnerCase(ctx, sorted, key) == CaseOf(ctx, sorted, key);
  }

  /** Two orders of one evidence with one result give a group outside clusters one case. */
  lemma SameResultSameCase(ctx: Context, a: seq<Evidence>, b: seq<Evidence>, key: Key)
    requires InjectiveIds(ctx) && multiset(a) == multiset(b) && Correlation(ctx, a) == Correlation(ctx, b)
    requires Survives(ctx, Sort(a, EvidenceLe), key) && !Clusters(ctx, Sort(a, EvidenceLe), key.0)
    ensures Survives(ctx, Sort(b, EvidenceLe), key)
    ensures CaseOf(ctx, Sort(a, EvidenceLe), key) == CaseOf(ctx, Sort(b, EvidenceLe), key)
  {
    hide Correlation, FinalCases, InjectiveIds, Survives, CaseOf, Clusters, Aligned, Sort;
    var s, t := Sort(a, EvidenceLe), Sort(b, EvidenceLe);
    SortsAlign(a, b);
    AlignedSurvival(ctx, s, t, key);
    AlignedClusters(ctx, s, t, key.0);
    AlignedIds(ctx, s, t, key);
    UnclusteredCase(ctx, s, key);
    UnclusteredCase(ctx, t, key);
    ResultDeterminesCase(ctx, a, b, CaseOf(ctx, s, key), CaseOf(ctx, t, key));
  }

  lemma Without<T>(s: seq<T>, x: T) returns (rest: seq<T>)
    requires x in s
    ensures multiset(s) == multiset(rest) + multiset{x}
  {
    var i :| 0 <= i < |s| && s[i] == x;
    rest := s[..i] + s[i + 1..];
    Removed(s, i);
  }

  lemma InOther<T>(s: seq<T>, rest: seq<T>, x: T, y: T)
    requires multiset(s) == multiset(rest) + multiset{x} && y in s && x != y
    ensures y in rest
  {
    assert y in multiset(s);
    assert y in multiset(rest);
  }

  lemma PairFront<T>(x: T, y: T, rest: seq<T>)
    ensures multiset([x, y] + rest) == multiset(rest) + multiset{y} + multiset{x}
  {
    assert multiset([x, y]) == multiset{y} + multiset{x};
  }

  lemma WithoutPair(evidence: seq<Evidence>, x: Evidence, y: Evidence) returns (rest: seq<Evidence>)
    requires x in evidence && y in evidence && x != y
    ensures multiset([x, y] + rest) == multiset(evidence) && multiset([y, x] + rest) == multiset(evidence)
  {
    var most := Without(evidence, x);
    InOther(evidence, most, x, y);
    rest := Without(most, y);
    PairFront(x, y, rest);
    PairFront(y, x, rest);
  }

  lemma {:induction false} NoGroup(items: seq<Evidence>, key: Key)
    requires forall e :: e in items ==> KeyOf(e) != key
    ensures Group(items, key) == []
  {
    if items != [] {
      NoGroup(items[..|items| - 1], key);
    }
  }

  /** Were the two orders of a tied pair to give one case, the pair would agree. */
  lemma OneCaseMeansAgreement(ctx: Context, pre: seq<Evidence>, x: Evidence, y: Evidence, post: seq<Evidence>)
    requires Tied(x, y) && forall e :: e in pre ==> !EvidenceLe(x, e)
    requires Survives(ctx, pre + [x, y] + post, KeyOf(x)) && Survives(ctx, pre + [y, x] + post, KeyOf(x))
    requires CaseOf(ctx, pre + [x, y] + post, KeyOf(x)) == CaseOf(ctx, pre + [y, x] + post, KeyOf(x))
    ensures SamePlacing(x, y)
    ensures (forall e :: e in pre ==> KeyOf(e) != KeyOf(x)) ==> SameFace(x, y)
  {
    hide Score, FirstAt, EvidenceLe, Group, IsSuppressed;
    var key := KeyOf(x);
    GroupAround(pre, x, y, post);
    GroupAround(pre, y, x, post);
    var g, h := Group(pre, key), Group(post, key);
    var c := CaseOf(ctx, pre + [x, y] + post, key);
    SwapShowsInLocations(ctx, c.finding.id, g, x, y, h);
    if forall e :: e in pre ==> KeyOf(e) != KeyOf(x) {
      NoGroup(pre, key);
      assert (g + [x, y] + h)[0] == x && (g + [y, x] + h)[0] == y;
    }
  }

  /**
   The other half: a disagreeing tie of a rule at or under the threshold shows the order it
   arrived in, in two orders of the same evidence.
   */
  lemma DisagreeingTieShows(ctx: Context, evidence: seq<Evidence>, x: Evidence, y: Evidence)
      returns (a: seq<Evidence>, b: seq<Evidence>)
    requires InjectiveIds(ctx) && Reported(ctx, evidence, x) && y in evidence && Tied(x, y)
    requires !Clusters(ctx, Sort(evidence, EvidenceLe), x.ruleId) && !TieAgrees(evidence, x, y)
    ensures multiset(a) == multiset(evidence) && multiset(b) == multiset(evidence)
    ensures Correlation(ctx, a) != Correlation(ctx, b)
  {
    hide Correlation, Survives, Clusters, InjectiveIds, CaseOf, EvidenceLe, Sort, Aligned;
    var key := KeyOf(x);
    var rest := WithoutPair(evidence, x, y);
    a, b := [x, y] + rest, [y, x] + rest;
    var pre, post := TiedPairSorts(x, y, rest);
    SortsAlign(evidence, a);
    AlignedSurvival(ctx, Sort(evidence, EvidenceLe), Sort(a, EvidenceLe), key);
    AlignedClusters(ctx, Sort(evidence, EvidenceLe), Sort(a, EvidenceLe), x.ruleId);
    if Correlation(ctx, a) == Correlation(ctx, b) {
      SameResultSameCase(ctx, a, b, key);
      OneCaseMeansAgreement(ctx, pre, x, y, post);
      NothingBeforeTheHead(evidence, a, x, pre, post);
      assert false;
    }
  }

  lemma NothingBeforeTheHead(evidence: seq<Evidence>, a: seq<Evidence>, x: Evidence, pre: seq<Evidence>,
                             post: seq<Evidence>)
    requires multiset(a) == multiset(evidence) && pre <= Sort(a, EvidenceLe)
    requires forall e :: e in pre ==> !EvidenceLe(x, e)
    ensures LeadsGroup(evidence, x) ==> forall e :: e in pre ==> KeyOf(e) != KeyOf(x)
  {
    hide EvidenceLe, Sort;
    SortElements(a, EvidenceLe);
    SameElements(a, evidence);
    forall e | e in pre && LeadsGroup(evidence, x)
      ensures KeyOf(e) != KeyOf(x)
    {
      assert e in evidence;
      var i :| 0 <= i < |evidence| && evidence[i] == e;
    }
  }

  /** Some other order of the same evidence gives another result. */
  ghost predicate OrderShows(ctx: Context, evidence: seq<Evidence>) {
    exists other :: multiset(other) == multiset(evidence) && Correlation(ctx, other) != Correlation(ctx, evidence)
  }

  /** Where no rule clusters, the order shows exactly when some tie disagrees. */
  lemma WhenTheOrderShows(ctx: Context, evidence: seq<Evidence>)
    requires InjectiveIds(ctx) && forall r :: !Clusters(ctx, Sort(evidence, EvidenceLe), r)
    ensures OrderShows(ctx, evidence) <==> !TiesAgree(ctx, evidence)
  {
    hide Correlation, Clusters, InjectiveIds, Reported, TieAgrees, Tied, Sort;
    if OrderShows(ctx, evidence) && TiesAgree(ctx, evidence) {
      var other :| multiset(other) == multiset(evidence) && Correlation(ctx, other) != Correlation(ctx, evidence);
      EvidenceOrderIgnored(ctx, evidence, other);
    }
    if !TiesAgree(ctx, evidence) {
      var x, y :| Reported(ctx, evidence, x) && y in evidence && Tied(x, y) && !TieAgrees(evidence, x, y);
      var a, b := DisagreeingTieShows(ctx, evidence, x, y);
      assert Correlation(ctx, a) != Correlation(ctx, evidence) || Correlation(ctx, b) != Correlation(ctx, evidence);
    }
  }
}
