/**
 What an extraction run lists (core/unpack/extractor.py): every file a container writes gets a node
 under it, in order and once, and nothing else does.
 */
module ExtractedTree {
  import opened Extraction
  import opened Numbers
  import opened Options
  import opened Order

  // ----- one container

  /** Whether the action leaves a file behind. */
  predicate Writes(a: Action) {
    a.Write? || a.Fill?
  }

  /** `at` are the positions of the actions that leave a file behind. */
  ghost predicate WritesAt(actions: seq<Action>, at: seq<nat>) {
    && Increasing(at)
    && forall i: nat :: i in at <==> i < |actions| && Writes(actions[i])
  }

  /** `members` are the files left behind, in order. */
  ghost predicate AreWritten(actions: seq<Action>, at: seq<nat>, members: seq<Member>) {
    && WritesAt(actions, at) && |members| == |at|
    && forall k :: 0 <= k < |at| ==>
         at[k] < |actions| && members[k] == Member(actions[at[k]].name, actions[at[k]].file)
  }

  lemma WritesMore(actions: seq<Action>, at: seq<nat>, members: seq<Member>, a: Action)
      returns (at': seq<nat>, members': seq<Member>)
    requires AreWritten(actions, at, members)
    ensures members' == members + Lists(a) && AreWritten(actions + [a], at', members')
  {
    members' := members + Lists(a);
    at' := if Writes(a) then at + [|actions|] else at;
    forall k | 0 <= k < |at|
      ensures at[k] < |actions| && (actions + [a])[at[k]] == actions[at[k]]
    {
      assert at[k] in at;
    }
    MorePlaces(actions, at, a);
  }

  lemma MorePlaces(actions: seq<Action>, at: seq<nat>, a: Action)
    requires WritesAt(actions, at)
    ensures WritesAt(actions + [a], if Writes(a) then at + [|actions|] else at)
  {
    hide Writes;
    var more, all := actions + [a], if Writes(a) then at + [|actions|] else at;
    assert |actions| !in at;
    forall k | 0 <= k < |at|
      ensures at[k] < |actions|
    {
      assert at[k] in at;
    }
    forall i: nat
      ensures i in all <==> i < |more| && Writes(more[i])
    {
      if i < |actions| {
        assert more[i] == actions[i] && (i in at <==> Writes(actions[i]));
      }
    }
  }

  /** What opening does after `done` of the actions is, by parts, what it does to the rest. */
  lemma {:induction false} ListsWhatIsWritten(limits: Limits, s: State, done: seq<Action>, rest: seq<Action>,
                                              at: seq<nat>, members: seq<Member>)
      returns (all: seq<nat>)
    requires AreWritten(done, at, members)
    ensures var opening := Extract(limits, s, rest, members).1;
            opening.Listed? ==> AreWritten(done + rest, all, opening.members)
    decreases |rest|
  {
    hide AreWritten, Reserve, Breaks, Cost;
    all := at;
    if rest == [] {
      assert done + rest == done;
    } else {
      var a := rest[0];
      assert done + rest == (done + [a]) + rest[1..];
      var at', members' := WritesMore(done, at, members, a);
      match a {
        case Crash =>
        case Refuse(name) =>
          assert members' == members;
          var u := s.(faults := s.faults + [Refused(name)]);
          all := ListsWhatIsWritten(limits, u, done + [a], rest[1..], at', members');
        case _ =>
          var charged := s.(totals := Reserve(limits, s.totals, Cost(limits, s, a)));
          all := ListsWhatIsWritten(limits, charged, done + [a], rest[1..], at', members');
      }
    }
  }

  lemma ListsFromTheStart(limits: Limits, s: State, actions: seq<Action>) returns (at: seq<nat>)
    ensures var opening := Extract(limits, s, actions, []).1;
            opening.Listed? ==> AreWritten(actions, at, opening.members)
  {
    assert AreWritten([], [], []);
    hide Extract, AreWritten;
    at := ListsWhatIsWritten(limits, s, [], actions, [], []);
    assert [] + actions == actions;
  }

  /** An opened container lists exactly the files it wrote, in order and once each. */
  lemma OpeningListsEveryFile(limits: Limits, s: State, actions: seq<Action>) returns (at: seq<nat>)
    ensures var opening := Extract(limits, s, actions, []).1;
            opening.Listed? ==>
              && Increasing(at) && |opening.members| == |at|
              && (forall i: nat :: i in at <==> i < |actions| && (actions[i].Write? || actions[i].Fill?))
              && (forall k :: 0 <= k < |at| ==>
                    && at[k] < |actions| && (actions[at[k]].Write? || actions[at[k]].Fill?)
                    && opening.members[k] == Member(actions[at[k]].name, actions[at[k]].file))
  {
    at := ListsFromTheStart(limits, s, actions);
    hide Extract;
    assert forall k :: 0 <= k < |at| ==> at[k] in at;
  }

  // ----- what an opening charges

  predicate Charges(a: Action) {
    a.Write? || a.Fill? || a.Charge?
  }

  function FileCount(actions: seq<Action>): nat {
    if actions == [] then 0 else (if Charges(actions[0]) then 1 else 0) + FileCount(actions[1..])
  }

  /** The bytes declared by the entries; a plain gzip declares none. */
  function DeclaredBytes(actions: seq<Action>): int {
    if actions == [] then 0
    else (if actions[0].Write? || actions[0].Charge? then actions[0].size else 0) + DeclaredBytes(actions[1..])
  }

  /** What an action asks for when `written` bytes are charged: a plain gzip at most what is left. */
  function Asks(limits: Limits, written: int, a: Action): int {
    if a.Fill? then Min(Max(0, limits.maxTotalBytes - written), a.cap)
    else if a.Write? || a.Charge? then a.size
    else 0
  }

  /** Action `i` is the first that does not fit, and `limit` is the cap it breaks. */
  predicate BreaksAt(limits: Limits, s: Totals, t: Totals, actions: seq<Action>, i: nat, limit: Limit) {
    && i < |actions| && Charges(actions[i]) && t.filesWritten == s.filesWritten + FileCount(actions[..i])
    && (limit == MaxFiles || limit == MaxTotalBytes)
    && (limit == MaxFiles <==> t.filesWritten + 1 > limits.maxFiles)
    && (limit == MaxTotalBytes ==>
          t.bytesWritten + Asks(limits, t.bytesWritten, actions[i]) > limits.maxTotalBytes)
  }

  /**
   An opening ends in one of three ways: every entry was charged and none raised; an entry raised;
   or an entry did not fit under the cap that the opening names.
   */
  ghost predicate Accounts(limits: Limits, s: State, t: State, actions: seq<Action>, opening: Opening) {
    match opening
    case Listed(_) =>
      && (forall i :: 0 <= i < |actions| ==> !actions[i].Crash?)
      && t.totals.filesWritten == s.totals.filesWritten + FileCount(actions)
      && t.totals.exceeded == s.totals.exceeded
      && (forall i :: 0 <= i < |actions| && actions[i].Refuse? ==> Refused(actions[i].name) in t.faults)
      && ((forall i :: 0 <= i < |actions| ==> !actions[i].Fill?) ==>
            t.totals.bytesWritten == s.totals.bytesWritten + DeclaredBytes(actions))
    case Crashed => exists i :: 0 <= i < |actions| && actions[i].Crash?
    case Over(limit) => exists i: nat :: BreaksAt(limits, s.totals, t.totals, actions, i, limit)
  }

  lemma ShiftedBreak(limits: Limits, s: Totals, charged: Totals, t: Totals, actions: seq<Action>, i: nat,
                     limit: Limit)
    requires actions != [] && BreaksAt(limits, charged, t, actions[1..], i, limit)
    requires charged.filesWritten == s.filesWritten + if Charges(actions[0]) then 1 else 0
    ensures BreaksAt(limits, s, t, actions, i + 1, limit)
  {
    assert actions[..i + 1][1..] == actions[1..][..i];
  }

  lemma {:induction false} FaultsStay(limits: Limits, s: State, actions: seq<Action>, members: seq<Member>)
    ensures s.faults <= Extract(limits, s, actions, members).0.faults
    decreases |actions|
  {
    hide Reserve, Breaks;
    if actions != [] {
      var a, rest := actions[0], actions[1..];
      match a {
        case Crash =>
        case Refuse(name) =>
          FaultsStay(limits, s.(faults := s.faults + [Refused(name)]), rest, members);
        case _ =>
          FaultsStay(limits, s.(totals := Reserve(limits, s.totals, Cost(limits, s, a))), rest, members + Lists(a));
      }
    }
  }

  lemma {:induction false} OpeningAccounts(limits: Limits, s: State, actions: seq<Action>, members: seq<Member>)
    ensures var (t, opening) := Extract(limits, s, actions, members);
            Accounts(limits, s, t, actions, opening)
    decreases |actions|
  {
    if actions != [] {
      var a, rest := actions[0], actions[1..];
      match a {
        case Crash =>
        case Refuse(name) =>
          var u := s.(faults := s.faults + [Refused(name)]);
          OpeningAccounts(limits, u, rest, members);
          FaultsStay(limits, u, rest, members);
          assert Refused(name) in u.faults;
          CarriesOver(limits, s, u, actions, members);
        case _ =>
          var size := Cost(limits, s, a);
          var u := s.(totals := Reserve(limits, s.totals, size));
          if limit :| Breaks(limits, s.totals, size) == Some(limit) {
            assert BreaksAt(limits, s.totals, u.totals, actions, 0, limit);
          } else {
            OpeningAccounts(limits, u, rest, members + Lists(a));
            CarriesOver(limits, s, u, actions, members + Lists(a));
          }
      }
    }
  }

  lemma CarriesOver(limits: Limits, s: State, u: State, actions: seq<Action>, members: seq<Member>)
    requires actions != [] && !actions[0].Crash?
    requires u.totals.filesWritten == s.totals.filesWritten + if Charges(actions[0]) then 1 else 0
    requires u.totals.exceeded == s.totals.exceeded
    requires actions[0].Refuse? ==> Refused(actions[0].name) in Extract(limits, u, actions[1..], members).0.faults
    requires !actions[0].Fill? ==>
               u.totals.bytesWritten
               == s.totals.bytesWritten + if Charges(actions[0]) then actions[0].size else 0
    requires var (t, opening) := Extract(limits, u, actions[1..], members);
             Accounts(limits, u, t, actions[1..], opening)
    ensures var (t, opening) := Extract(limits, u, actions[1..], members);
            Accounts(limits, s, t, actions, opening)
  {
    hide Extract, BreaksAt;
    var (t, opening) := Extract(limits, u, actions[1..], members);
    match opening {
      case Listed(_) =>
        assert forall i :: 0 < i < |actions| ==> actions[i] == actions[1..][i - 1];
        assert forall i :: 0 <= i < |actions| - 1 ==> actions[1..][i] == actions[i + 1];
      case Crashed =>
        var i :| 0 <= i < |actions[1..]| && actions[1..][i].Crash?;
        assert actions[i + 1].Crash?;
      case Over(limit) =>
        var i: nat :| BreaksAt(limits, u.totals, t.totals, actions[1..], i, limit);
        ShiftedBreak(limits, s.totals, u.totals, t.totals, actions, i, limit);
    }
  }

  // ----- one visit

  /** Every node that a visit at `depth` adds is below that depth. */
  predicate Deeper(nodes: seq<Node>, from: nat, depth: int) {
    forall i :: from <= i < |nodes| ==> nodes[i].depth > depth
  }

  lemma {:induction false} WalkDeeper(limits: Limits, disk: Disk, s: State, file: File, path: string, depth: int)
    requires WithinCaps(limits, s.totals)
    ensures Deeper(Walk(limits, disk, s, file, path, depth).nodes, |s.nodes|, depth)
    decreases Levels(limits, depth), 1, 0
  {
    hide Extract;
    var c := disk(file);
    if depth <= limits.maxDepth && !Exhausted(limits, s.totals) && c.unpackable {
      ExtractCharges(limits, s, c.actions, []);
      var (t, opening) := Extract(limits, s, c.actions, []);
      if opening.Listed? {
        WalkAllDeeper(limits, disk, t.(unpacked := t.unpacked + [path]), opening.members, c.kind, path, depth);
      }
    }
  }

  lemma {:induction false} WalkAllDeeper(
      limits: Limits, disk: Disk, s: State, members: seq<Member>, kind: string, path: string, depth: int)
    requires WithinCaps(limits, s.totals) && depth <= limits.maxDepth
    ensures Deeper(WalkAll(limits, disk, s, members, kind, path, depth).nodes, |s.nodes|, depth)
    decreases Levels(limits, depth), 0, |members|
  {
    if members != [] {
      var node := NodeOf(disk, kind, path, depth, members[0]);
      var t := s.(nodes := s.nodes + [node]);
      var u := if node.unpackable then Walk(limits, disk, t, members[0].file, node.path, depth + 1) else t;
      if node.unpackable {
        WalkExtends(limits, disk, t, members[0].file, node.path, depth + 1);
        WalkDeeper(limits, disk, t, members[0].file, node.path, depth + 1);
      }
      hide Walk, NodeOf;
      assert u.nodes[|s.nodes|] == t.nodes[|s.nodes|];
      WalkAllExtends(limits, disk, u, members[1..], kind, path, depth);
      WalkAllDeeper(limits, disk, u, members[1..], kind, path, depth);
    }
  }

  /** The node of file `m`, written by a container of kind `kind` at `path` and `depth`. */
  predicate IsNodeOf(disk: Disk, node: Node, m: Member, kind: string, path: string, depth: int) {
    && node.path == path + ARROW + m.name && node.parent == path && node.depth == depth + 1
    && node.size == disk(m.file).size && node.kind == disk(m.file).kind
    && node.unpackable == disk(m.file).unpackable && node.extractedBy == kind
  }

  /** From `from` on, the nodes one level below `depth` are those of `members`, at `kids`, in order. */
  ghost predicate AreKids(disk: Disk, nodes: seq<Node>, from: nat, kids: seq<nat>, members: seq<Member>, kind: string,
                          path: string, depth: int) {
    && Increasing(kids) && |kids| == |members|
    && (forall k :: 0 <= k < |kids| ==>
          from <= kids[k] < |nodes| && IsNodeOf(disk, nodes[kids[k]], members[k], kind, path, depth))
    && (forall i: nat :: from <= i < |nodes| && i !in kids ==> nodes[i].depth > depth + 1)
  }

  lemma KidsCons(disk: Disk, nodes: seq<Node>, from: nat, next: nat, kids: seq<nat>, members: seq<Member>,
                 kind: string, path: string, depth: int)
    requires members != [] && from < next <= |nodes|
    requires IsNodeOf(disk, nodes[from], members[0], kind, path, depth)
    requires forall i :: from < i < next ==> nodes[i].depth > depth + 1
    requires AreKids(disk, nodes, next, kids, members[1..], kind, path, depth)
    ensures AreKids(disk, nodes, from, [from] + kids, members, kind, path, depth)
  {
    hide IsNodeOf;
    var all := [from] + kids;
    forall k | 0 <= k < |kids|
      ensures kids[k] in all
    {
      assert all[k + 1] == kids[k];
    }
    forall k | 0 <= k < |all|
      ensures from <= all[k] < |nodes| && IsNodeOf(disk, nodes[all[k]], members[k], kind, path, depth)
    {
      if k > 0 {
        assert all[k] == kids[k - 1] && members[k] == members[1..][k - 1];
      }
    }
    forall i: nat | from <= i < |nodes| && i !in all
      ensures nodes[i].depth > depth + 1
    {
      assert all[0] == from;
    }
  }

  lemma {:induction false} WalkAllKids(limits: Limits, disk: Disk, s: State, members: seq<Member>, kind: string,
                                       path: string, depth: int)
      returns (kids: seq<nat>)
    requires WithinCaps(limits, s.totals) && depth <= limits.maxDepth
    ensures AreKids(disk, WalkAll(limits, disk, s, members, kind, path, depth).nodes, |s.nodes|, kids, members, kind,
                    path, depth)
    decreases |members|
  {
    kids := [];
    if members != [] {
      var node := NodeOf(disk, kind, path, depth, members[0]);
      var t := s.(nodes := s.nodes + [node]);
      var u := if node.unpackable then Walk(limits, disk, t, members[0].file, node.path, depth + 1) else t;
      assert IsNodeOf(disk, node, members[0], kind, path, depth);
      if node.unpackable {
        WalkExtends(limits, disk, t, members[0].file, node.path, depth + 1);
        WalkDeeper(limits, disk, t, members[0].file, node.path, depth + 1);
      }
      hide Walk, NodeOf, AreKids, IsNodeOf;
      assert u.nodes[|s.nodes|] == node;
      WalkAllExtends(limits, disk, u, members[1..], kind, path, depth);
      kids := WalkAllKids(limits, disk, u, members[1..], kind, path, depth);
      var final := WalkAll(limits, disk, s, members, kind, path, depth).nodes;
      assert forall i :: 0 <= i < |u.nodes| ==> final[i] == u.nodes[i];
      KidsCons(disk, final, |s.nodes|, |u.nodes|, kids, members, kind, path, depth);
      kids := [|s.nodes|] + kids;
    }
  }

  /** Between `s` and `t` a visit opened its container. */
  predicate Opens(s: State, t: State) {
    |t.unpacked| > |s.unpacked|
  }

  /**
   A visit that opens a container lists, one level below it, a node for every file the container
   writes: in order, once each, with the file's own size and kind. A visit that does not lists nothing.
   */
  lemma VisitListsEveryFile(limits: Limits, disk: Disk, s: State, file: File, path: string, depth: int)
      returns (at: seq<nat>, members: seq<Member>, kids: seq<nat>)
    requires WithinCaps(limits, s.totals)
    ensures var t := Walk(limits, disk, s, file, path, depth);
            && (!Opens(s, t) ==> t.nodes == s.nodes)
            && (Opens(s, t) ==>
                  && t.unpacked[|s.unpacked|] == path && AreWritten(disk(file).actions, at, members)
                  && AreKids(disk, t.nodes, |s.nodes|, kids, members, disk(file).kind, path, depth))
  {
    hide Extract, AreWritten, AreKids;
    at, members, kids := [], [], [];
    var c := disk(file);
    if depth <= limits.maxDepth && !Exhausted(limits, s.totals) && c.unpackable {
      ExtractCharges(limits, s, c.actions, []);
      at := ListsFromTheStart(limits, s, c.actions);
      var (t, opening) := Extract(limits, s, c.actions, []);
      if opening.Listed? {
        members := opening.members;
        var u := t.(unpacked := t.unpacked + [path]);
        kids := WalkAllKids(limits, disk, u, members, c.kind, path, depth);
        WalkAllExtends(limits, disk, u, members, c.kind, path, depth);
        assert u.unpacked[|s.unpacked|] == path;
      }
    }
  }

  /** Why a visit that could have opened its container did not: an entry did not fit, or one raised. */
  ghost predicate Excuses(limits: Limits, s: State, t: State, c: Content, path: string, f: Fault) {
    match f
    case Stopped(p, limit) => p == path && exists i: nat :: BreaksAt(limits, s.totals, t.totals, c.actions, i, limit)
    case Unopened(p, kind) => p == path && kind == c.kind && exists i :: 0 <= i < |c.actions| && c.actions[i].Crash?
    case Refused(_) => false
  }

  /**
   A visit opens its container only within depth, with files and bytes to spare, and then always: unless
   an entry does not fit or raises, which the last error entry says.
   */
  lemma VisitOpensWhenItCan(limits: Limits, disk: Disk, s: State, file: File, path: string, depth: int)
    requires WithinCaps(limits, s.totals)
    ensures var c, t := disk(file), Walk(limits, disk, s, file, path, depth);
            var able := && c.unpackable && depth <= limits.maxDepth && s.totals.filesWritten < limits.maxFiles
                        && s.totals.bytesWritten < limits.maxTotalBytes;
            && (Opens(s, t) ==> able)
            && (able && !Opens(s, t) ==> t.faults != [] && Excuses(limits, s, t, c, path, t.faults[|t.faults| - 1]))
            && (depth > limits.maxDepth ==>
                  t.faults == s.faults + [Stopped(path, MaxDepth)]
                  && TooDeep(depth, limits.maxDepth) in t.totals.exceeded)
  {
    hide Extract, BreaksAt;
    var c := disk(file);
    if depth <= limits.maxDepth && !Exhausted(limits, s.totals) && c.unpackable {
      ExtractCharges(limits, s, c.actions, []);
      OpeningAccounts(limits, s, c.actions, []);
      var (t, opening) := Extract(limits, s, c.actions, []);
      if opening.Listed? {
        WalkAllExtends(limits, disk, t.(unpacked := t.unpacked + [path]), opening.members, c.kind, path, depth);
      }
    }
  }

  // ----- the whole run

  /** The file, path and depth of node `p`; those of the root for -1. */
  function FileAt(files: seq<File>, p: int, root: File): File {
    if 0 <= p < |files| then files[p] else root
  }

  function PathAt(nodes: seq<Node>, p: int, rootName: string): string {
    if 0 <= p < |nodes| then nodes[p].path else rootName
  }

  function DepthAt(nodes: seq<Node>, p: int): int {
    if 0 <= p < |nodes| then nodes[p].depth else 0
  }

  /** A run's nodes with the file that each stands for. */
  datatype Tagged = Tagged(disk: Disk, root: File, rootName: string, nodes: seq<Node>, files: seq<File>)

  ghost predicate Extended(a: Tagged, b: Tagged) {
    && b == a.(nodes := b.nodes, files := b.files) && a.nodes <= b.nodes && a.files <= b.files
    && |a.nodes| == |a.files| && |b.nodes| == |b.files|
  }

  /** File `f` writes the member when opened. */
  ghost predicate WrittenBy(disk: Disk, f: File, m: Member) {
    exists i :: && 0 <= i < |disk(f).actions| && Writes(disk(f).actions[i])
                && m == Member(disk(f).actions[i].name, disk(f).actions[i].file)
  }

  /** Node `c` is that of member `m` of node `p`. */
  predicate Kid(x: Tagged, c: int, m: Member, p: int) {
    && -1 <= p < c < |x.nodes| == |x.files| && x.files[c] == m.file
    && IsNodeOf(x.disk, x.nodes[c], m, x.disk(FileAt(x.files, p, x.root)).kind, PathAt(x.nodes, p, x.rootName),
                DepthAt(x.nodes, p))
  }

  /** Node `c` was written by an opened container that the run knows. */
  ghost predicate Sourced(x: Tagged, known: seq<string>, c: int) {
    exists p, m :: && Kid(x, c, m, p) && WrittenBy(x.disk, FileAt(x.files, p, x.root), m)
                   && PathAt(x.nodes, p, x.rootName) in known
  }

  ghost predicate AllSourced(x: Tagged, known: seq<string>) {
    |x.nodes| == |x.files| && forall c :: 0 <= c < |x.nodes| ==> Sourced(x, known, c)
  }

  /** Every file that node `p` writes has a node under it. */
  ghost predicate Complete(x: Tagged, p: int) {
    forall m :: WrittenBy(x.disk, FileAt(x.files, p, x.root), m) ==> exists c :: Kid(x, c, m, p)
  }

  /** The containers opened are these nodes, and each is complete. */
  ghost predicate AllComplete(x: Tagged, paths: seq<string>, heads: seq<int>) {
    && |heads| == |paths|
    && forall k :: 0 <= k < |heads| ==>
         -1 <= heads[k] < |x.nodes| && PathAt(x.nodes, heads[k], x.rootName) == paths[k] && Complete(x, heads[k])
  }

  lemma SameAt(a: Tagged, b: Tagged, p: int)
    requires Extended(a, b) && -1 <= p < |a.nodes|
    ensures FileAt(b.files, p, b.root) == FileAt(a.files, p, a.root)
    ensures PathAt(b.nodes, p, b.rootName) == PathAt(a.nodes, p, a.rootName)
    ensures DepthAt(b.nodes, p) == DepthAt(a.nodes, p)
  {
  }

  lemma KidStays(a: Tagged, b: Tagged, c: int, m: Member, p: int)
    requires Extended(a, b) && Kid(a, c, m, p)
    ensures Kid(b, c, m, p)
  {
    SameAt(a, b, p);
    hide FileAt, PathAt, DepthAt, IsNodeOf;
    assert b.nodes[c] == a.nodes[c];
  }

  lemma CompleteStays(a: Tagged, b: Tagged, paths: seq<string>, heads: seq<int>)
    requires Extended(a, b) && AllComplete(a, paths, heads)
    ensures AllComplete(b, paths, heads)
  {
    hide Kid, WrittenBy, FileAt, PathAt, Extended;
    forall k | 0 <= k < |heads|
      ensures -1 <= heads[k] < |b.nodes| && PathAt(b.nodes, heads[k], b.rootName) == paths[k]
      ensures Complete(b, heads[k])
    {
      OneCompleteStays(a, b, heads[k]);
    }
  }

  lemma OneCompleteStays(a: Tagged, b: Tagged, p: int)
    requires Extended(a, b) && -1 <= p < |a.nodes| && Complete(a, p)
    ensures -1 <= p < |b.nodes| && Complete(b, p)
    ensures PathAt(b.nodes, p, b.rootName) == PathAt(a.nodes, p, a.rootName)
  {
    SameAt(a, b, p);
    hide Kid, WrittenBy, FileAt, PathAt;
    forall m | WrittenBy(b.disk, FileAt(b.files, p, b.root), m)
      ensures exists c :: Kid(b, c, m, p)
    {
      var c :| Kid(a, c, m, p);
      KidStays(a, b, c, m, p);
    }
  }

  lemma OneMoreSourced(a: Tagged, b: Tagged, known: seq<string>, p: int, m: Member)
    requires Extended(a, b) && |b.nodes| == |a.nodes| + 1 && AllSourced(a, known)
    requires Kid(b, |a.nodes|, m, p) && WrittenBy(b.disk, FileAt(b.files, p, b.root), m)
    requires PathAt(b.nodes, p, b.rootName) in known
    ensures AllSourced(b, known)
  {
    hide Kid, WrittenBy, FileAt, PathAt, DepthAt;
    forall c | 0 <= c < |b.nodes|
      ensures Sourced(b, known, c)
    {
      if c < |a.nodes| {
        assert Sourced(a, known, c);
        var q, l :| Kid(a, c, l, q) && WrittenBy(a.disk, FileAt(a.files, q, a.root), l)
                    && PathAt(a.nodes, q, a.rootName) in known;
        KidStays(a, b, c, l, q);
        KidBounds(a, c, l, q);
        SameAt(a, b, q);
      }
    }
  }

  lemma KidBounds(x: Tagged, c: int, m: Member, p: int)
    requires Kid(x, c, m, p)
    ensures -1 <= p < c < |x.nodes|
  {
  }

  lemma MoreOpened(x: Tagged, few: seq<string>, many: seq<string>)
    requires AllSourced(x, few) && few <= many
    ensures AllSourced(x, many)
  {
    hide Kid, WrittenBy, FileAt, PathAt;
    forall c | 0 <= c < |x.nodes|
      ensures Sourced(x, many, c)
    {
      assert Sourced(x, few, c);
      var p, m :| Kid(x, c, m, p) && WrittenBy(x.disk, FileAt(x.files, p, x.root), m)
                  && PathAt(x.nodes, p, x.rootName) in few;
      assert PathAt(x.nodes, p, x.rootName) in many;
    }
  }

  lemma NewNode(x: Tagged, known: seq<string>, m: Member, p: int) returns (y: Tagged)
    requires AllSourced(x, known) && -1 <= p < |x.nodes| && PathAt(x.nodes, p, x.rootName) in known
    requires WrittenBy(x.disk, FileAt(x.files, p, x.root), m)
    ensures var node := NodeOf(x.disk, x.disk(FileAt(x.files, p, x.root)).kind, PathAt(x.nodes, p, x.rootName),
                               DepthAt(x.nodes, p), m);
            y == x.(nodes := x.nodes + [node], files := x.files + [m.file])
    ensures Extended(x, y) && AllSourced(y, known) && Kid(y, |x.nodes|, m, p)
  {
    hide WrittenBy, Sourced;
    var node := NodeOf(x.disk, x.disk(FileAt(x.files, p, x.root)).kind, PathAt(x.nodes, p, x.rootName),
                       DepthAt(x.nodes, p), m);
    y := x.(nodes := x.nodes + [node], files := x.files + [m.file]);
    SameAt(x, y, p);
    assert Kid(y, |x.nodes|, m, p);
    hide Kid, FileAt, PathAt, DepthAt, NodeOf;
    OneMoreSourced(x, y, known, p, m);
  }

  lemma ConcatComplete(x: Tagged, a: seq<string>, b: seq<string>, c: seq<int>, d: seq<int>)
    requires AllComplete(x, a, c) && AllComplete(x, b, d)
    ensures AllComplete(x, a + b, c + d)
  {
    hide Complete, PathAt;
  }

  lemma ExtendedThrough(a: Tagged, b: Tagged, c: Tagged)
    requires Extended(a, b) && Extended(b, c)
    ensures Extended(a, c)
  {
  }

  lemma {:induction false} WalkSources(limits: Limits, x: Tagged, s: State, p: int)
      returns (y: Tagged, heads: seq<int>)
    requires WithinCaps(limits, s.totals) && x.nodes == s.nodes && AllSourced(x, s.unpacked) && -1 <= p < |x.nodes|
    ensures var t := Walk(limits, x.disk, s, FileAt(x.files, p, x.root), PathAt(x.nodes, p, x.rootName),
                          DepthAt(x.nodes, p));
            && Extended(x, y) && y.nodes == t.nodes && AllSourced(y, t.unpacked) && s.unpacked <= t.unpacked
            && AllComplete(y, t.unpacked[|s.unpacked|..], heads)
    decreases Levels(limits, DepthAt(x.nodes, p)), 1, 0
  {
    var file, path, depth := FileAt(x.files, p, x.root), PathAt(x.nodes, p, x.rootName), DepthAt(x.nodes, p);
    y, heads := x, [];
    var c := x.disk(file);
    if depth <= limits.maxDepth && !Exhausted(limits, s.totals) && c.unpackable {
      ExtractCharges(limits, s, c.actions, []);
      var at := ListsFromTheStart(limits, s, c.actions);
      var (t, opening) := Extract(limits, s, c.actions, []);
      if opening.Listed? {
        var u := t.(unpacked := t.unpacked + [path]);
        WrittenMembers(x.disk, file, at, opening.members);
        MoreOpened(x, s.unpacked, u.unpacked);
        y, heads := OpenedSources(limits, x, u, opening.members, p);
      }
    }
  }

  lemma WrittenMembers(disk: Disk, file: File, at: seq<nat>, members: seq<Member>)
    requires AreWritten(disk(file).actions, at, members)
    ensures forall m :: m in members <==> WrittenBy(disk, file, m)
  {
    var actions := disk(file).actions;
    forall k | 0 <= k < |at|
      ensures WrittenBy(disk, file, members[k])
    {
      assert at[k] in at && Writes(actions[at[k]]);
    }
    forall m | WrittenBy(disk, file, m)
      ensures m in members
    {
      var i: nat :| i < |actions| && Writes(actions[i]) && m == Member(actions[i].name, actions[i].file);
      assert i in at;
      var k :| 0 <= k < |at| && at[k] == i;
      assert members[k] == m;
    }
  }

  /** The visit of node `p` once its container is opened. */
  lemma {:induction false} OpenedSources(limits: Limits, x: Tagged, s: State, members: seq<Member>, p: int)
      returns (y: Tagged, heads: seq<int>)
    requires WithinCaps(limits, s.totals) && x.nodes == s.nodes && -1 <= p < |x.nodes|
    requires s.unpacked != [] && s.unpacked[|s.unpacked| - 1] == PathAt(x.nodes, p, x.rootName)
    requires AllSourced(x, s.unpacked) && DepthAt(x.nodes, p) <= limits.maxDepth
    requires forall m :: m in members <==> WrittenBy(x.disk, FileAt(x.files, p, x.root), m)
    ensures var path, depth := PathAt(x.nodes, p, x.rootName), DepthAt(x.nodes, p);
            var t := WalkAll(limits, x.disk, s, members, x.disk(FileAt(x.files, p, x.root)).kind, path, depth);
            && Extended(x, y) && y.nodes == t.nodes && AllSourced(y, t.unpacked) && s.unpacked <= t.unpacked
            && AllComplete(y, t.unpacked[|s.unpacked| - 1..], heads)
    decreases Levels(limits, DepthAt(x.nodes, p)), 0, |members| + 1
  {
    hide WrittenBy, AllSourced, Kid, Walk, WithinCaps;
    var path, depth := PathAt(x.nodes, p, x.rootName), DepthAt(x.nodes, p);
    var t := WalkAll(limits, x.disk, s, members, x.disk(FileAt(x.files, p, x.root)).kind, path, depth);
    y, heads := WalkAllSources(limits, x, s, members, p);
    SameAt(x, y, p);
    hide WalkAll, FileAt, PathAt, DepthAt;
    assert Complete(y, p) by {
      forall m | WrittenBy(y.disk, FileAt(y.files, p, y.root), m)
        ensures exists c :: Kid(y, c, m, p)
      {
        assert m in members;
      }
    }
    assert AllComplete(y, [path], [p]);
    ConcatComplete(y, [path], t.unpacked[|s.unpacked|..], [p], heads);
    heads := [p] + heads;
    assert t.unpacked[|s.unpacked| - 1..] == [path] + t.unpacked[|s.unpacked|..];
  }

  /** The first member's node, and what its own visit adds. */
  lemma {:induction false} FirstSource(limits: Limits, x: Tagged, s: State, m: Member, p: int)
      returns (y: Tagged, u: State, heads: seq<int>)
    requires WithinCaps(limits, s.totals) && x.nodes == s.nodes && -1 <= p < |x.nodes|
    requires AllSourced(x, s.unpacked) && PathAt(x.nodes, p, x.rootName) in s.unpacked
    requires DepthAt(x.nodes, p) <= limits.maxDepth
    requires WrittenBy(x.disk, FileAt(x.files, p, x.root), m)
    ensures var path, depth := PathAt(x.nodes, p, x.rootName), DepthAt(x.nodes, p);
            var node := NodeOf(x.disk, x.disk(FileAt(x.files, p, x.root)).kind, path, depth, m);
            var t := s.(nodes := s.nodes + [node]);
            u == if node.unpackable then Walk(limits, x.disk, t, m.file, node.path, depth + 1) else t
    ensures Extended(x, y) && y.nodes == u.nodes && AllSourced(y, u.unpacked) && s.unpacked <= u.unpacked
    ensures AllComplete(y, u.unpacked[|s.unpacked|..], heads) && Kid(y, |s.nodes|, m, p)
    ensures WithinCaps(limits, u.totals)
    decreases Levels(limits, DepthAt(x.nodes, p)), 0, 0
  {
    var path, depth := PathAt(x.nodes, p, x.rootName), DepthAt(x.nodes, p);
    var v := NewNode(x, s.unpacked, m, p);
    var node := NodeOf(x.disk, x.disk(FileAt(x.files, p, x.root)).kind, path, depth, m);
    var t := s.(nodes := s.nodes + [node]);
    u, y, heads := t, v, [];
    hide WrittenBy, AllSourced, Kid, AllComplete, WithinCaps;
    if node.unpackable {
      WalkExtends(limits, x.disk, t, m.file, node.path, depth + 1);
      y, heads := WalkSources(limits, v, t, |s.nodes|);
      u := Walk(limits, x.disk, t, m.file, node.path, depth + 1);
      hide Walk, NodeOf, FileAt, PathAt, DepthAt;
      ExtendedThrough(x, v, y);
      KidStays(v, y, |s.nodes|, m, p);
    } else {
      NothingComplete(v);
    }
  }

  lemma {:induction false} WalkAllSources(limits: Limits, x: Tagged, s: State, members: seq<Member>, p: int)
      returns (y: Tagged, heads: seq<int>)
    requires WithinCaps(limits, s.totals) && x.nodes == s.nodes && -1 <= p < |x.nodes|
    requires AllSourced(x, s.unpacked) && PathAt(x.nodes, p, x.rootName) in s.unpacked
    requires DepthAt(x.nodes, p) <= limits.maxDepth
    requires forall m :: m in members ==> WrittenBy(x.disk, FileAt(x.files, p, x.root), m)
    ensures var path, depth := PathAt(x.nodes, p, x.rootName), DepthAt(x.nodes, p);
            var t := WalkAll(limits, x.disk, s, members, x.disk(FileAt(x.files, p, x.root)).kind, path, depth);
            && Extended(x, y) && y.nodes == t.nodes && AllSourced(y, t.unpacked) && s.unpacked <= t.unpacked
            && AllComplete(y, t.unpacked[|s.unpacked|..], heads)
            && forall m :: m in members ==> exists c :: Kid(y, c, m, p)
    decreases Levels(limits, DepthAt(x.nodes, p)), 0, |members|
  {
    y, heads := x, [];
    if members == [] {
      NothingComplete(x);
    } else {
      hide WrittenBy, AllSourced, Kid, AllComplete, WithinCaps, Walk, NodeOf;
      var w, u, first := FirstSource(limits, x, s, members[0], p);
      SameAt(x, w, p);
      InLonger(s.unpacked, u.unpacked, PathAt(x.nodes, p, x.rootName));
      var more: seq<int>;
      y, more := WalkAllSources(limits, w, u, members[1..], p);
      var path, depth := PathAt(x.nodes, p, x.rootName), DepthAt(x.nodes, p);
      var t := WalkAll(limits, x.disk, s, members, x.disk(FileAt(x.files, p, x.root)).kind, path, depth);
      hide FileAt, PathAt, DepthAt, WalkAll;
      ExtendedThrough(x, w, y);
      KidStays(w, y, |s.nodes|, members[0], p);
      KidsOfAll(y, members, p, |s.nodes|);
      CompleteStays(w, y, u.unpacked[|s.unpacked|..], first);
      ConcatComplete(y, u.unpacked[|s.unpacked|..], t.unpacked[|u.unpacked|..], first, more);
      heads := first + more;
      assert t.unpacked[|s.unpacked|..] == u.unpacked[|s.unpacked|..] + t.unpacked[|u.unpacked|..];
    }
  }

  lemma NothingComplete(x: Tagged)
    ensures AllComplete(x, [], [])
  {
  }

  lemma KidsOfAll(x: Tagged, members: seq<Member>, p: int, c: int)
    requires members != [] && Kid(x, c, members[0], p)
    requires forall m :: m in members[1..] ==> exists c :: Kid(x, c, m, p)
    ensures forall m :: m in members ==> exists c :: Kid(x, c, m, p)
  {
    hide Kid;
    assert members == [members[0]] + members[1..];
  }

  lemma InLonger(a: seq<string>, b: seq<string>, path: string)
    requires a <= b && path in a
    ensures path in b
  {
  }

  /**
   Over a whole run, with the file behind each node: every node was written by an opened container
   that the run knows, under that container's path, one level below it; and every file that any
   opened container writes has such a node.
   */
  lemma RunListsEveryFile(limits: Limits, disk: Disk, root: File, rootName: string)
      returns (x: Tagged, heads: seq<int>)
    requires limits.maxFiles >= 0 && limits.maxTotalBytes >= 0
    ensures var t := Tree(limits, disk, root, rootName);
            && x == Tagged(disk, root, rootName, t.nodes, x.files)
            && AllSourced(x, t.unpacked) && AllComplete(x, t.unpacked, heads)
  {
    hide AllComplete;
    var empty := Tagged(disk, root, rootName, [], []);
    x, heads := WalkSources(limits, empty, BEGIN, -1);
    var t := Tree(limits, disk, root, rootName);
    assert t.unpacked[0..] == t.unpacked;
  }
}
