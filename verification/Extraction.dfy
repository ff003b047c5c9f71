/**
 Recursive extraction under a cumulative budget (core/unpack/budget.py, core/unpack/extractor.py)
 and the tree of artifacts built from its manifest (core/pipeline/scan.py).
 */
module Extraction {
  import opened Numbers
  import opened Options
  import opened Order

  // ----- the budget

  /** The three caps of one extraction tree. */
  datatype Limits = Limits(maxDepth: int, maxFiles: int, maxTotalBytes: int)

  datatype Limit = MaxDepth | MaxFiles | MaxTotalBytes

  /** The reasons a budget records, as structure; the code formats them into text. */
  datatype Note = TooDeep(depth: int, max: int) | TooMany(max: int) | TooLarge(size: int, max: int)

  datatype Totals = Totals(filesWritten: int, bytesWritten: int, exceeded: seq<Note>)

  const DEFAULT_MAX_DEPTH := 8
  const DEFAULT_MAX_FILES := 20_000
  const FILES_PER_INPUT_MB := 600
  const MAX_FILES_CEILING := 250_000
  const DEFAULT_MAX_TOTAL_BYTES := 10 * 1024 * 1024 * 1024
  const DEFAULT_EXPANSION_FACTOR := 20
  const MB := 1024 * 1024

  /** `ExtractionBudget.for_input` without overrides. */
  function ForInput(inputSize: nat): Limits {
    Limits(DEFAULT_MAX_DEPTH,
           Max(DEFAULT_MAX_FILES, Min(Max(inputSize / MB, 1) * FILES_PER_INPUT_MB, MAX_FILES_CEILING)),
           Min(Max(inputSize * DEFAULT_EXPANSION_FACTOR, 64 * MB), DEFAULT_MAX_TOTAL_BYTES))
  }

  /** Both caps grow with the input and stay within their floor and ceiling. */
  lemma ForInputScales(small: nat, large: nat)
    requires small <= large
    ensures ForInput(small).maxFiles <= ForInput(large).maxFiles <= MAX_FILES_CEILING
    ensures ForInput(small).maxTotalBytes <= ForInput(large).maxTotalBytes <= DEFAULT_MAX_TOTAL_BYTES
    ensures DEFAULT_MAX_FILES <= ForInput(small).maxFiles && 64 * MB <= ForInput(small).maxTotalBytes
  {
    assert small / MB <= large / MB;
  }

  /** Twenty bytes for one and 600 files for a megabyte, between the floors and the ceilings; eight levels. */
  lemma ForInputMeaning(size: nat)
    ensures var l := ForInput(size);
            && l.maxDepth == 8
            && (67_108_864 <= 20 * size <= 10_737_418_240 ==> l.maxTotalBytes == 20 * size)
            && (20 * size < 67_108_864 ==> l.maxTotalBytes == 67_108_864)
            && (20 * size > 10_737_418_240 ==> l.maxTotalBytes == 10_737_418_240)
    ensures var l, mb := ForInput(size), size / 1_048_576;
            && (20_000 <= 600 * mb <= 250_000 ==> l.maxFiles == 600 * mb)
            && (600 * mb < 20_000 ==> l.maxFiles == 20_000)
            && (600 * mb > 250_000 ==> l.maxFiles == 250_000)
  {
  }

  function BytesRemaining(limits: Limits, t: Totals): int {
    Max(0, limits.maxTotalBytes - t.bytesWritten)
  }

  function FilesRemaining(limits: Limits, t: Totals): int {
    Max(0, limits.maxFiles - t.filesWritten)
  }

  predicate Exhausted(limits: Limits, t: Totals) {
    BytesRemaining(limits, t) <= 0 || FilesRemaining(limits, t) <= 0
  }

  function Noted(t: Totals, note: Note): Totals {
    if note in t.exceeded then t else t.(exceeded := t.exceeded + [note])
  }

  /** Which cap `reserve` would break. */
  function Breaks(limits: Limits, t: Totals, size: int): Option<Limit> {
    if t.filesWritten + 1 > limits.maxFiles then Some(MaxFiles)
    else if t.bytesWritten + size > limits.maxTotalBytes then Some(MaxTotalBytes)
    else None
  }

  function Reserve(limits: Limits, t: Totals, size: int): Totals {
    match Breaks(limits, t, size)
    case Some(MaxFiles) => Noted(t, TooMany(limits.maxFiles))
    case Some(_) => Noted(t, TooLarge(size, limits.maxTotalBytes))
    case None => t.(filesWritten := t.filesWritten + 1, bytesWritten := t.bytesWritten + size)
  }

  class ExtractionBudget {
    const limits: Limits
    var filesWritten: int
    var bytesWritten: int
    var exceeded: seq<Note>

    function View(): Totals
      reads this
    {
      Totals(filesWritten, bytesWritten, exceeded)
    }

    constructor (caps: Limits)
      ensures limits == caps && View() == Totals(0, 0, [])
    {
      limits := caps;
      filesWritten, bytesWritten, exceeded := 0, 0, [];
    }

    method AddNote(note: Note)
      modifies this
      ensures View() == Noted(old(View()), note)
    {
      if note !in exceeded {
        exceeded := exceeded + [note];
      }
    }

    /** Accounts for a file about to be written; a limit stands for `BudgetExceeded`. */
    method ReserveFile(size: int) returns (raised: Option<Limit>)
      modifies this
      ensures View() == Reserve(limits, old(View()), size)
      ensures raised == Breaks(limits, old(View()), size)
    {
      if filesWritten + 1 > limits.maxFiles {
        AddNote(TooMany(limits.maxFiles));
        return Some(MaxFiles);
      }
      if bytesWritten + size > limits.maxTotalBytes {
        AddNote(TooLarge(size, limits.maxTotalBytes));
        return Some(MaxTotalBytes);
      }
      filesWritten := filesWritten + 1;
      bytesWritten := bytesWritten + size;
      raised := None;
    }

    method CheckDepth(depth: int) returns (raised: Option<Limit>)
      modifies this
      ensures View()
           == if depth > limits.maxDepth then Noted(old(View()), TooDeep(depth, limits.maxDepth)) else old(View())
      ensures raised == if depth > limits.maxDepth then Some(MaxDepth) else None
    {
      if depth > limits.maxDepth {
        AddNote(TooDeep(depth, limits.maxDepth));
        return Some(MaxDepth);
      }
      raised := None;
    }
  }

  // ----- what an extractor does to one container

  /** Files are numbered; a container may hold anything, itself included. */
  type File = nat

  /** What opening a container does, in order, whatever the format. */
  datatype Action =
    | Write(size: int, name: string, file: File)      // reserve, write, list
    | Fill(cap: int, name: string, file: File)        // reserve at most what is left (a plain gzip)
    | Charge(size: int)                               // reserve a member that has no data
    | Refuse(name: string)                            // an entry that would leave the directory
    | Crash                                           // any other exception

  /** What detection and extraction find in a file. */
  datatype Content = Content(kind: string, unpackable: bool, size: int, actions: seq<Action>)

  type Disk = File -> Content

  datatype Member = Member(name: string, file: File)

  /** An error entry; all but the refused ones name the container. */
  datatype Fault = Refused(name: string) | Stopped(path: string, limit: Limit) | Unopened(path: string, kind: string)

  datatype Node = Node(path: string, parent: string, depth: int, size: int, kind: string, unpackable: bool,
        extractedBy: string)

  /** The mutable state of one run; `unpacked` records which containers were extracted. */
  datatype State = State(totals: Totals, nodes: seq<Node>, faults: seq<Fault>, unpacked: seq<string>)

  datatype Opening = Listed(members: seq<Member>) | Over(limit: Limit) | Crashed

  function Cost(limits: Limits, s: State, a: Action): int
    requires a.Write? || a.Fill? || a.Charge?
  {
    if a.Fill? then Min(BytesRemaining(limits, s.totals), a.cap) else a.size
  }

  /** What a successful action adds to the written files. */
  function Lists(a: Action): (r: seq<Member>)
    ensures |r| <= 1
  {
    match a
    case Write(_, name, file) => [Member(name, file)]
    case Fill(_, name, file) => [Member(name, file)]
    case _ => []
  }

  /** `_extract_one`: the actions in order, until one raises. */
  function Extract(limits: Limits, s: State, actions: seq<Action>, members: seq<Member>): (State, Opening)
    decreases |actions|
  {
    if actions == [] then (s, Listed(members))
    else
      var a, rest := actions[0], actions[1..];
      match a
      case Crash => (s, Crashed)
      case Refuse(name) => Extract(limits, s.(faults := s.faults + [Refused(name)]), rest, members)
      case _ =>
        var size := Cost(limits, s, a);
        var charged := s.(totals := Reserve(limits, s.totals, size));
        match Breaks(limits, s.totals, size)
        case Some(limit) => (charged, Over(limit))
        case None => Extract(limits, charged, rest, members + Lists(a))
  }

  // ----- the recursion

  const ARROW := " → "

  function NodeOf(disk: Disk, kind: string, path: string, depth: int, m: Member): Node {
    var c := disk(m.file);
    Node(path + ARROW + m.name, path, depth + 1, c.size, c.kind, c.unpackable, kind)
  }

  function Levels(limits: Limits, depth: int): nat {
    if depth > limits.maxDepth then 0 else limits.maxDepth - depth + 1
  }

  /** `_walk`. */
  function Walk(limits: Limits, disk: Disk, s: State, file: File, path: string, depth: int): State
    decreases Levels(limits, depth), 1, 0
  {
    var c := disk(file);
    if depth > limits.maxDepth then
      s.(totals := Noted(s.totals, TooDeep(depth, limits.maxDepth)), faults := s.faults + [Stopped(path, MaxDepth)])
    else if Exhausted(limits, s.totals) || !c.unpackable then s
    else
      var (t, opening) := Extract(limits, s, c.actions, []);
      match opening
      case Over(limit) => t.(faults := t.faults + [Stopped(path, limit)])
      case Crashed => t.(faults := t.faults + [Unopened(path, c.kind)])
      case Listed(members) => WalkAll(limits, disk, t.(unpacked := t.unpacked + [path]), members, c.kind, path, depth)
  }

  /** The loop over the files an extraction wrote. */
  function WalkAll(limits: Limits, disk: Disk, s: State, members: seq<Member>, kind: string, path: string,
        depth: int): State
    requires depth <= limits.maxDepth
    decreases Levels(limits, depth), 0, |members|
  {
    if members == [] then s
    else
      var node := NodeOf(disk, kind, path, depth, members[0]);
      var t := s.(nodes := s.nodes + [node]);
      var u := if node.unpackable then Walk(limits, disk, t, members[0].file, node.path, depth + 1) else t;
      WalkAll(limits, disk, u, members[1..], kind, path, depth)
  }

  const BEGIN := State(Totals(0, 0, []), [], [], [])

  /** `extract_tree`. */
  function Tree(limits: Limits, disk: Disk, root: File, rootName: string): State {
    Walk(limits, disk, BEGIN, root, rootName, 0)
  }

  class Extractor {
    const budget: ExtractionBudget
    var nodes: seq<Node>
    var faults: seq<Fault>
    ghost var unpacked: seq<string>

    ghost function View(): State
      reads this, budget
    {
      State(budget.View(), nodes, faults, unpacked)
    }

    constructor (b: ExtractionBudget)
      ensures budget == b && View() == State(b.View(), [], [], [])
    {
      budget := b;
      nodes, faults, unpacked := [], [], [];
    }

    method ExtractOne(actions: seq<Action>) returns (opening: Opening)
      modifies this, budget
      ensures (View(), opening) == Extract(budget.limits, old(View()), actions, [])
    {
      var members: seq<Member> := [];
      for i := 0 to |actions|
        invariant Extract(budget.limits, View(), actions[i..], members)
               == Extract(budget.limits, old(View()), actions, [])
      {
        assert actions[i..][1..] == actions[i + 1..];
        match actions[i] {
          case Crash =>
            return Crashed;
          case Refuse(name) =>
            faults := faults + [Refused(name)];
          case Write(size, name, file) =>
            var raised := budget.ReserveFile(size);
            if raised.Some? {
              return Over(raised.value);
            }
            members := members + [Member(name, file)];
          case Fill(cap, name, file) =>
            var raised := budget.ReserveFile(Min(BytesRemaining(budget.limits, budget.View()), cap));
            if raised.Some? {
              return Over(raised.value);
            }
            members := members + [Member(name, file)];
          case Charge(size) =>
            var raised := budget.ReserveFile(size);
            if raised.Some? {
              return Over(raised.value);
            }
            assert members + [] == members;
        }
      }
      opening := Listed(members);
    }

    method WalkFile(disk: Disk, file: File, path: string, depth: int)
      modifies this, budget
      ensures View() == Walk(budget.limits, disk, old(View()), file, path, depth)
      decreases Levels(budget.limits, depth), 1
    {
      var raised := budget.CheckDepth(depth);
      if raised.Some? {
        faults := faults + [Stopped(path, raised.value)];
        return;
      }
      if Exhausted(budget.limits, budget.View()) {
        return;
      }
      var c := disk(file);
      if !c.unpackable {
        return;
      }
      var opening := ExtractOne(c.actions);
      match opening {
        case Over(limit) =>
          faults := faults + [Stopped(path, limit)];
        case Crashed =>
          faults := faults + [Unopened(path, c.kind)];
        case Listed(members) =>
          unpacked := unpacked + [path];
          WalkMembers(disk, members, c.kind, path, depth);
      }
    }

    method WalkMembers(disk: Disk, members: seq<Member>, kind: string, path: string, depth: int)
      requires depth <= budget.limits.maxDepth
      modifies this, budget
      ensures View() == WalkAll(budget.limits, disk, old(View()), members, kind, path, depth)
      decreases Levels(budget.limits, depth), 0
    {
      for i := 0 to |members|
        invariant WalkAll(budget.limits, disk, View(), members[i..], kind, path, depth)
               == WalkAll(budget.limits, disk, old(View()), members, kind, path, depth)
      {
        assert members[i..][1..] == members[i + 1..];
        var node := NodeOf(disk, kind, path, depth, members[i]);
        nodes := nodes + [node];
        if node.unpackable {
          WalkFile(disk, members[i].file, node.path, depth + 1);
        }
      }
    }

    /** `extract_tree`, on a fresh extractor. */
    method ExtractTree(disk: Disk, root: File, rootName: string)
      requires View() == BEGIN
      modifies this, budget
      ensures View() == Tree(budget.limits, disk, root, rootName)
    {
      WalkFile(disk, root, rootName, 0);
    }
  }

  // ----- the caps hold

  predicate WithinCaps(limits: Limits, t: Totals) {
    t.filesWritten <= limits.maxFiles && t.bytesWritten <= limits.maxTotalBytes
  }

  /** Files charged but not listed as nodes. */
  function Slack(s: State): int {
    s.totals.filesWritten - |s.nodes|
  }

  lemma {:induction false} ExtractCharges(limits: Limits, s: State, actions: seq<Action>, members: seq<Member>)
    requires WithinCaps(limits, s.totals)
    ensures var (t, opening) := Extract(limits, s, actions, members);
            && WithinCaps(limits, t.totals) && t.nodes == s.nodes && t.unpacked == s.unpacked
            && Slack(t) >= Slack(s)
            && (opening.Listed? ==> Slack(t) - |opening.members| >= Slack(s) - |members|)
            && s.faults <= t.faults && s.totals.exceeded <= t.totals.exceeded
            && (opening.Over? ==> t.totals.exceeded != [])
    decreases |actions|
  {
    if actions != [] {
      var a, rest := actions[0], actions[1..];
      match a {
        case Crash =>
        case Refuse(name) =>
          ExtractCharges(limits, s.(faults := s.faults + [Refused(name)]), rest, members);
        case _ =>
          var size := Cost(limits, s, a);
          if Breaks(limits, s.totals, size).None? {
            var charged := s.(totals := Reserve(limits, s.totals, size));
            ExtractCharges(limits, charged, rest, members + Lists(a));
          }
      }
    }
  }

  /** What a walk keeps: the caps, every node and fault already there, and a file for every node. */
  ghost predicate Extends(limits: Limits, s: State, t: State, pending: nat) {
    && WithinCaps(limits, t.totals)
    && s.nodes <= t.nodes && s.faults <= t.faults && s.unpacked <= t.unpacked
    && s.totals.exceeded <= t.totals.exceeded
    && Slack(t) >= Slack(s) - pending
  }

  lemma {:induction false} WalkExtends(limits: Limits, disk: Disk, s: State, file: File, path: string, depth: int)
    requires WithinCaps(limits, s.totals)
    ensures Extends(limits, s, Walk(limits, disk, s, file, path, depth), 0)
    decreases Levels(limits, depth), 1, 0
  {
    var c := disk(file);
    if depth <= limits.maxDepth && !Exhausted(limits, s.totals) && c.unpackable {
      ExtractCharges(limits, s, c.actions, []);
      var (t, opening) := Extract(limits, s, c.actions, []);
      if opening.Listed? {
        WalkAllExtends(limits, disk, t.(unpacked := t.unpacked + [path]), opening.members, c.kind, path, depth);
      }
    }
  }

  lemma {:induction false} WalkAllExtends(
      limits: Limits, disk: Disk, s: State, members: seq<Member>, kind: string, path: string, depth: int)
    requires WithinCaps(limits, s.totals) && depth <= limits.maxDepth
    ensures Extends(limits, s, WalkAll(limits, disk, s, members, kind, path, depth), |members|)
    decreases Levels(limits, depth), 0, |members|
  {
    if members != [] {
      var node := NodeOf(disk, kind, path, depth, members[0]);
      var t := s.(nodes := s.nodes + [node]);
      var u := if node.unpackable then Walk(limits, disk, t, members[0].file, node.path, depth + 1) else t;
      if node.unpackable {
        WalkExtends(limits, disk, t, members[0].file, node.path, depth + 1);
      }
      WalkAllExtends(limits, disk, u, members[1..], kind, path, depth);
    }
  }

  /** No archive, nested or self-containing, gets past the caps, and every node was paid for. */
  lemma CapsHold(limits: Limits, disk: Disk, root: File, rootName: string)
    requires limits.maxFiles >= 0 && limits.maxTotalBytes >= 0
    ensures var t := Tree(limits, disk, root, rootName);
            && |t.nodes| <= t.totals.filesWritten <= limits.maxFiles
            && t.totals.bytesWritten <= limits.maxTotalBytes
  {
    WalkExtends(limits, disk, BEGIN, root, rootName, 0);
  }

  // ----- the nodes form a tree

  /** Node `i` hangs under the root, or under an earlier node one level up. */
  predicate Parented(nodes: seq<Node>, root: string, i: int)
    requires 0 <= i < |nodes|
  {
    || (nodes[i].parent == root && nodes[i].depth == 1)
    || exists j :: 0 <= j < i && nodes[j].path == nodes[i].parent && nodes[j].depth + 1 == nodes[i].depth
  }

  predicate WellParented(nodes: seq<Node>, root: string) {
    forall i :: 0 <= i < |nodes| ==> Parented(nodes, root, i)
  }

  /** `path` at `depth` is the root or one of the nodes. */
  predicate Placed(nodes: seq<Node>, root: string, path: string, depth: int) {
    (path == root && depth == 0) || exists j :: 0 <= j < |nodes| && nodes[j].path == path && nodes[j].depth == depth
  }

  lemma ParentedSnoc(nodes: seq<Node>, root: string, node: Node)
    requires WellParented(nodes, root) && Placed(nodes, root, node.parent, node.depth - 1)
    ensures WellParented(nodes + [node], root)
  {
    var more := nodes + [node];
    forall i | 0 <= i < |more|
      ensures Parented(more, root, i)
    {
      if i < |nodes| {
        assert Parented(nodes, root, i);
        if !(nodes[i].parent == root && nodes[i].depth == 1) {
          var j :| 0 <= j < i && nodes[j].path == nodes[i].parent && nodes[j].depth + 1 == nodes[i].depth;
          assert more[j] == nodes[j];
        }
      } else if !(node.parent == root && node.depth == 1) {
        var j :| 0 <= j < |nodes| && nodes[j].path == node.parent && nodes[j].depth == node.depth - 1;
        assert more[j] == nodes[j];
      }
    }
  }

  lemma PlacedInLonger(nodes: seq<Node>, more: seq<Node>, root: string, path: string, depth: int)
    requires nodes <= more && Placed(nodes, root, path, depth)
    ensures Placed(more, root, path, depth)
  {
    if !(path == root && depth == 0) {
      var j :| 0 <= j < |nodes| && nodes[j].path == path && nodes[j].depth == depth;
      assert more[j] == nodes[j];
    }
  }

  lemma {:induction false} WalkParents(
      limits: Limits, disk: Disk, s: State, file: File, path: string, depth: int, root: string)
    requires WithinCaps(limits, s.totals)
    requires WellParented(s.nodes, root) && Placed(s.nodes, root, path, depth)
    ensures WellParented(Walk(limits, disk, s, file, path, depth).nodes, root)
    decreases Levels(limits, depth), 1, 0
  {
    hide WellParented, Placed;
    var c := disk(file);
    if depth <= limits.maxDepth && !Exhausted(limits, s.totals) && c.unpackable {
      ExtractCharges(limits, s, c.actions, []);
      var (t, opening) := Extract(limits, s, c.actions, []);
      if opening.Listed? {
        WalkAllParents(limits, disk, t.(unpacked := t.unpacked + [path]), opening.members, c.kind, path, depth, root);
      }
    }
  }

  lemma {:induction false} WalkAllParents(
      limits: Limits, disk: Disk, s: State, members: seq<Member>, kind: string, path: string, depth: int, root: string)
    requires WithinCaps(limits, s.totals) && depth <= limits.maxDepth
    requires WellParented(s.nodes, root) && Placed(s.nodes, root, path, depth)
    ensures WellParented(WalkAll(limits, disk, s, members, kind, path, depth).nodes, root)
    decreases Levels(limits, depth), 0, |members|
  {
    hide WellParented, Placed, Extract;
    if members != [] {
      var node := NodeOf(disk, kind, path, depth, members[0]);
      var t := s.(nodes := s.nodes + [node]);
      ParentedSnoc(s.nodes, root, node);
      PlacedInLonger(s.nodes, t.nodes, root, path, depth);
      if node.unpackable {
        NodeIsPlaced(t.nodes, root, |s.nodes|);
        WalkParents(limits, disk, t, members[0].file, node.path, depth + 1, root);
        WalkExtends(limits, disk, t, members[0].file, node.path, depth + 1);
        var u := Walk(limits, disk, t, members[0].file, node.path, depth + 1);
        PlacedInLonger(t.nodes, u.nodes, root, path, depth);
        WalkAllParents(limits, disk, u, members[1..], kind, path, depth, root);
      } else {
        WalkAllParents(limits, disk, t, members[1..], kind, path, depth, root);
      }
    }
  }

  lemma NodeIsPlaced(nodes: seq<Node>, root: string, i: nat)
    requires i < |nodes|
    ensures Placed(nodes, root, nodes[i].path, nodes[i].depth)
  {
  }

  /** Every node's parent is the root or an earlier node one level up. */
  lemma NodesFormATree(limits: Limits, disk: Disk, root: File, rootName: string)
    requires limits.maxFiles >= 0 && limits.maxTotalBytes >= 0
    ensures WellParented(Tree(limits, disk, root, rootName).nodes, rootName)
  {
    WalkParents(limits, disk, BEGIN, root, rootName, 0, rootName);
  }

  // ----- no silent skips

  predicate Blames(f: Fault, path: string) {
    (f.Stopped? || f.Unopened?) && f.path == path
  }

  predicate Handled(s: State, path: string) {
    path in s.unpacked || exists i :: 0 <= i < |s.faults| && Blames(s.faults[i], path)
  }

  /** Every container listed so far was opened or has an error entry. */
  predicate AllHandled(s: State) {
    forall i :: 0 <= i < |s.nodes| && s.nodes[i].unpackable ==> Handled(s, s.nodes[i].path)
  }

  predicate Accounted(limits: Limits, s: State) {
    Exhausted(limits, s.totals) || AllHandled(s)
  }

  lemma HandledInLonger(s: State, t: State, path: string)
    requires s.faults <= t.faults && s.unpacked <= t.unpacked && Handled(s, path)
    ensures Handled(t, path)
  {
    if path !in s.unpacked {
      var i :| 0 <= i < |s.faults| && Blames(s.faults[i], path);
      assert Blames(t.faults[i], path);
    }
  }

  /** Once exhausted, a budget stays so: no later walk opens or charges anything. */
  lemma {:induction false} ExhaustionLasts(limits: Limits, disk: Disk, s: State, members: seq<Member>,
        kind: string, path: string, depth: int)
    requires Exhausted(limits, s.totals) && depth <= limits.maxDepth
    ensures var t := WalkAll(limits, disk, s, members, kind, path, depth);
            && t.totals.filesWritten == s.totals.filesWritten && t.totals.bytesWritten == s.totals.bytesWritten
            && t.unpacked == s.unpacked
    decreases |members|
  {
    if members != [] {
      var node := NodeOf(disk, kind, path, depth, members[0]);
      var t := s.(nodes := s.nodes + [node]);
      var u := if node.unpackable then Walk(limits, disk, t, members[0].file, node.path, depth + 1) else t;
      ExhaustionLasts(limits, disk, u, members[1..], kind, path, depth);
    }
  }

  /** A walk handles its own container and everything below it, unless the budget is exhausted. */
  lemma {:induction false} WalkAccounts(limits: Limits, disk: Disk, s: State, file: File, path: string, depth: int)
    requires WithinCaps(limits, s.totals) && disk(file).unpackable
    requires forall i :: 0 <= i < |s.nodes| && s.nodes[i].unpackable && s.nodes[i].path != path ==>
               Exhausted(limits, s.totals) || Handled(s, s.nodes[i].path)
    ensures Accounted(limits, Walk(limits, disk, s, file, path, depth))
    decreases Levels(limits, depth), 1, 0
  {
    hide Handled, Exhausted;
    var c := disk(file);
    var final := Walk(limits, disk, s, file, path, depth);
    WalkExtends(limits, disk, s, file, path, depth);
    if depth > limits.maxDepth {
      assert final.faults[|s.faults|] == Stopped(path, MaxDepth);
      NowHandled(s, final, path, |s.faults|);
      SameTotals(limits, s.totals, final.totals);
    } else if !Exhausted(limits, s.totals) {
      ExtractCharges(limits, s, c.actions, []);
      var (t, opening) := Extract(limits, s, c.actions, []);
      if opening.Listed? {
        var u := t.(unpacked := t.unpacked + [path]);
        UnpackedHandled(s, u, path);
        WalkAllAccounts(limits, disk, u, opening.members, c.kind, path, depth);
      } else {
        NowHandled(s, final, path, |t.faults|);
      }
    }
  }

  lemma SameTotals(limits: Limits, t: Totals, u: Totals)
    requires t.filesWritten == u.filesWritten && t.bytesWritten == u.bytesWritten
    ensures Exhausted(limits, t) == Exhausted(limits, u)
  {
  }

  lemma NowHandled(s: State, t: State, path: string, at: nat)
    requires s.faults <= t.faults && s.unpacked <= t.unpacked && s.nodes == t.nodes
    requires at < |t.faults| && Blames(t.faults[at], path)
    ensures Handled(t, path)
    ensures (forall i :: 0 <= i < |s.nodes| && s.nodes[i].unpackable && s.nodes[i].path != path ==>
               Handled(s, s.nodes[i].path)) ==> AllHandled(t)
  {
    forall p | Handled(s, p)
      ensures Handled(t, p)
    {
      HandledInLonger(s, t, p);
    }
  }

  lemma UnpackedHandled(s: State, t: State, path: string)
    requires s.faults <= t.faults && s.unpacked <= t.unpacked && s.nodes == t.nodes && path in t.unpacked
    requires forall i :: 0 <= i < |s.nodes| && s.nodes[i].unpackable && s.nodes[i].path != path ==>
               Handled(s, s.nodes[i].path)
    ensures AllHandled(t)
  {
    forall i | 0 <= i < |t.nodes| && t.nodes[i].unpackable
      ensures Handled(t, t.nodes[i].path)
    {
      if t.nodes[i].path != path {
        HandledInLonger(s, t, s.nodes[i].path);
      }
    }
  }

  lemma {:induction false} WalkAllAccounts(
      limits: Limits, disk: Disk, s: State, members: seq<Member>, kind: string, path: string, depth: int)
    requires WithinCaps(limits, s.totals) && depth <= limits.maxDepth && Accounted(limits, s)
    ensures Accounted(limits, WalkAll(limits, disk, s, members, kind, path, depth))
    decreases Levels(limits, depth), 0, |members|
  {
    hide Handled, Exhausted, Extract;
    if members != [] {
      if Exhausted(limits, s.totals) {
        ExhaustionLasts(limits, disk, s, members, kind, path, depth);
        SameTotals(limits, s.totals, WalkAll(limits, disk, s, members, kind, path, depth).totals);
      } else {
        var node := NodeOf(disk, kind, path, depth, members[0]);
        var t := s.(nodes := s.nodes + [node]);
        forall i | 0 <= i < |s.nodes| && s.nodes[i].unpackable
          ensures Handled(t, s.nodes[i].path)
        {
          HandledInLonger(s, t, s.nodes[i].path);
        }
        if node.unpackable {
          WalkAccounts(limits, disk, t, members[0].file, node.path, depth + 1);
          WalkExtends(limits, disk, t, members[0].file, node.path, depth + 1);
          var u := Walk(limits, disk, t, members[0].file, node.path, depth + 1);
          WalkAllAccounts(limits, disk, u, members[1..], kind, path, depth);
        } else {
          WalkAllAccounts(limits, disk, t, members[1..], kind, path, depth);
        }
      }
    }
  }

  /**
   On every run each container that was listed, and the root itself, was opened or has an error
   entry naming it, unless the budget ended up exhausted.
   */
  lemma NoSilentSkips(limits: Limits, disk: Disk, root: File, rootName: string)
    requires limits.maxFiles >= 0 && limits.maxTotalBytes >= 0
    ensures var t := Tree(limits, disk, root, rootName);
            Exhausted(limits, t.totals) || (
              && AllHandled(t)
              && (disk(root).unpackable ==> Handled(t, rootName)))
  {
    if disk(root).unpackable {
      WalkAccounts(limits, disk, BEGIN, root, rootName, 0);
      RootHandled(limits, disk, root, rootName);
    }
  }

  lemma RootHandled(limits: Limits, disk: Disk, root: File, rootName: string)
    requires limits.maxFiles >= 0 && limits.maxTotalBytes >= 0 && disk(root).unpackable
    ensures var t := Tree(limits, disk, root, rootName);
            Exhausted(limits, t.totals) || Handled(t, rootName)
  {
    hide Exhausted;
    var c, final := disk(root), Tree(limits, disk, root, rootName);
    if 0 > limits.maxDepth {
      assert Blames(final.faults[0], rootName);
    } else if !Exhausted(limits, BEGIN.totals) {
      ExtractCharges(limits, BEGIN, c.actions, []);
      var (t, opening) := Extract(limits, BEGIN, c.actions, []);
      if opening.Listed? {
        var u := t.(unpacked := t.unpacked + [rootName]);
        WalkAllExtends(limits, disk, u, opening.members, c.kind, rootName, 0);
        assert u.unpacked[0] in final.unpacked;
      } else {
        assert Blames(final.faults[|t.faults|], rootName);
      }
    }
  }

  // ----- when a skip goes unreported

  /** `truncated` is set on every run that an error entry blames on the budget. */
  predicate StopsNoted(s: State) {
    forall i :: 0 <= i < |s.faults| && s.faults[i].Stopped? ==> s.totals.exceeded != []
  }

  lemma {:induction false} ExtractStopsNoted(limits: Limits, s: State, actions: seq<Action>, members: seq<Member>)
    requires StopsNoted(s)
    ensures StopsNoted(Extract(limits, s, actions, members).0)
    decreases |actions|
  {
    if actions != [] {
      var a, rest := actions[0], actions[1..];
      match a {
        case Crash =>
        case Refuse(name) =>
          ExtractStopsNoted(limits, s.(faults := s.faults + [Refused(name)]), rest, members);
        case _ =>
          var charged := s.(totals := Reserve(limits, s.totals, Cost(limits, s, a)));
          ExtractStopsNoted(limits, charged, rest, members + Lists(a));
      }
    }
  }

  lemma {:induction false} WalkStopsNoted(limits: Limits, disk: Disk, s: State, file: File, path: string, depth: int)
    requires WithinCaps(limits, s.totals) && StopsNoted(s)
    ensures StopsNoted(Walk(limits, disk, s, file, path, depth))
    decreases Levels(limits, depth), 1, 0
  {
    hide Extract, Reserve;
    var c := disk(file);
    if depth <= limits.maxDepth && !Exhausted(limits, s.totals) && c.unpackable {
      ExtractCharges(limits, s, c.actions, []);
      ExtractStopsNoted(limits, s, c.actions, []);
      var (t, opening) := Extract(limits, s, c.actions, []);
      if opening.Listed? {
        WalkAllStopsNoted(limits, disk, t.(unpacked := t.unpacked + [path]), opening.members, c.kind, path, depth);
      }
    }
  }

  lemma {:induction false} WalkAllStopsNoted(
      limits: Limits, disk: Disk, s: State, members: seq<Member>, kind: string, path: string, depth: int)
    requires WithinCaps(limits, s.totals) && depth <= limits.maxDepth && StopsNoted(s)
    ensures StopsNoted(WalkAll(limits, disk, s, members, kind, path, depth))
    decreases Levels(limits, depth), 0, |members|
  {
    if members != [] {
      var node := NodeOf(disk, kind, path, depth, members[0]);
      var t := s.(nodes := s.nodes + [node]);
      var u := if node.unpackable then Walk(limits, disk, t, members[0].file, node.path, depth + 1) else t;
      if node.unpackable {
        WalkStopsNoted(limits, disk, t, members[0].file, node.path, depth + 1);
        WalkExtends(limits, disk, t, members[0].file, node.path, depth + 1);
      }
      WalkAllStopsNoted(limits, disk, u, members[1..], kind, path, depth);
    }
  }

  /** Between `s` and `t` the container at `path` was opened, or an error entry came to name it. */
  predicate NewlyHandled(s: State, t: State, path: string) {
    || (|s.unpacked| < |t.unpacked| && t.unpacked[|s.unpacked|] == path)
    || exists i :: |s.faults| <= i < |t.faults| && Blames(t.faults[i], path)
  }

  /**
   A visit passes a container over without a word exactly when the container is within depth and the
   budget is exhausted as it is reached; then the visit changes nothing at all.
   */
  lemma VisitSkipsIffExhausted(limits: Limits, disk: Disk, s: State, file: File, path: string, depth: int)
    requires WithinCaps(limits, s.totals) && disk(file).unpackable
    ensures var t := Walk(limits, disk, s, file, path, depth);
            && (!NewlyHandled(s, t, path) <==> depth <= limits.maxDepth && Exhausted(limits, s.totals))
            && (!NewlyHandled(s, t, path) ==> t == s)
  {
    hide Exhausted, Extract;
    var c, t := disk(file), Walk(limits, disk, s, file, path, depth);
    if depth > limits.maxDepth {
      assert Blames(t.faults[|s.faults|], path);
    } else if !Exhausted(limits, s.totals) {
      ExtractCharges(limits, s, c.actions, []);
      var (u, opening) := Extract(limits, s, c.actions, []);
      if opening.Listed? {
        var v := u.(unpacked := u.unpacked + [path]);
        WalkAllExtends(limits, disk, v, opening.members, c.kind, path, depth);
        assert t.unpacked[|s.unpacked|] == v.unpacked[|s.unpacked|];
      } else {
        assert Blames(t.faults[|u.faults|], path);
      }
    }
  }

  /**
   A run that does not report itself truncated missed a container only when its totals meet a cap
   exactly: short of that, every listed container was opened or failed to open for another reason.
   */
  lemma UnreportedSkipsFitExactly(limits: Limits, disk: Disk, root: File, rootName: string, i: nat)
    requires limits.maxFiles >= 0 && limits.maxTotalBytes >= 0
    requires var t := Tree(limits, disk, root, rootName);
             && i < |t.nodes| && t.nodes[i].unpackable && t.totals.exceeded == []
             && t.nodes[i].path !in t.unpacked
    ensures var t := Tree(limits, disk, root, rootName);
            || t.totals.filesWritten == limits.maxFiles || t.totals.bytesWritten == limits.maxTotalBytes
            || exists k :: 0 <= k < |t.faults| && t.faults[k].Unopened? && t.faults[k].path == t.nodes[i].path
  {
    hide Tree, Walk;
    var t := Tree(limits, disk, root, rootName);
    NoSilentSkips(limits, disk, root, rootName);
    CapsHold(limits, disk, root, rootName);
    TreeStopsNoted(limits, disk, root, rootName);
    if !Exhausted(limits, t.totals) {
      assert Handled(t, t.nodes[i].path);
      var k :| 0 <= k < |t.faults| && Blames(t.faults[k], t.nodes[i].path);
      assert t.faults[k].Unopened?;
    }
  }

  lemma TreeStopsNoted(limits: Limits, disk: Disk, root: File, rootName: string)
    requires limits.maxFiles >= 0 && limits.maxTotalBytes >= 0
    ensures StopsNoted(Tree(limits, disk, root, rootName))
  {
    WalkStopsNoted(limits, disk, BEGIN, root, rootName, 0);
  }

  function ExactFit(file: File): Content {
    if file == 0 then Content("zip", true, 10, [Write(5, "inner.zip", 1)])
    else if file == 1 then Content("zip", true, 5, [Write(5, "key", 2)])
    else Content("none", false, 5, [])
  }

  /** Such runs exist: an inner archive that uses up the file cap exactly is skipped without a word. */
  lemma ExactFitHidesAContainer()
    ensures var t := Tree(Limits(8, 1, 100), ExactFit, 0, "a.zip");
            && t.totals.exceeded == [] && t.faults == [] && |t.nodes| == 1 && t.nodes[0].unpackable
            && t.nodes[0].path !in t.unpacked
  {
    var limits := Limits(8, 1, 100);
    var c := ExactFit(0);
    assert c.actions[1..] == [];
    var m := [Member("inner.zip", 1)];
    var charged := BEGIN.(totals := Totals(1, 5, []));
    assert Extract(limits, BEGIN, c.actions, []) == (charged, Listed([] + m));
    assert [] + m == m && m[1..] == [];
    var node := NodeOf(ExactFit, "zip", "a.zip", 0, m[0]);
    var s := charged.(unpacked := ["a.zip"]);
    var t := s.(nodes := [node]);
    assert Walk(limits, ExactFit, t, 1, node.path, 1) == t;
    assert WalkAll(limits, ExactFit, s, m, "zip", "a.zip", 0) == t;
    assert |node.path| > |"a.zip"|;
  }

  // ----- the artifact rows built from the manifest

  datatype Artifact = Artifact(id: string, parentId: string, path: string, depth: int, size: int, extractedBy: string)

  predicate NodeLe(a: Node, b: Node) {
    a.depth < b.depth || (a.depth == b.depth && StrLe(a.path, b.path))
  }

  lemma NodeOrder()
    ensures Preorder(NodeLe)
  {
    forall x, y
      ensures NodeLe(x, y) || NodeLe(y, x)
    {
      StrTotal(x.path, y.path);
    }
    forall x, y, z | NodeLe(x, y) && NodeLe(y, z)
      ensures NodeLe(x, z)
    {
      if StrLe(x.path, y.path) && StrLe(y.path, z.path) {
        StrTransitive(x.path, y.path, z.path);
      }
    }
  }

  /** The last row with a path, if any: what `by_path` holds. */
  function RowFor(rows: seq<Artifact>, path: string): Option<string> {
    if rows == [] then None
    else if rows[|rows| - 1].path == path then Some(rows[|rows| - 1].id)
    else RowFor(rows[..|rows| - 1], path)
  }

  /** The parent link, fallback to the root included. */
  function ParentOf(rows: seq<Artifact>, node: Node, rootId: string, rootPath: string): string {
    if node.parent == rootPath then rootId
    else
      var row := RowFor(rows, node.parent);
      if row.Some? then row.value else rootId
  }

  /** `_materialise_tree`; `newId` gives the identifiers in turn. */
  method MaterialiseTree(nodes: seq<Node>, rootId: string, rootPath: string, newId: nat -> string)
      returns (rows: seq<Artifact>, byPath: map<string, string>)
    ensures |rows| == |nodes|
    ensures var sorted := Sort(nodes, NodeLe);
            forall i :: 0 <= i < |rows| ==>
              rows[i] == Artifact(newId(i), ParentOf(rows[..i], sorted[i], rootId, rootPath), sorted[i].path,
                                  sorted[i].depth, sorted[i].size, sorted[i].extractedBy)
    ensures forall path :: RowFor(rows, path) == if path in byPath then Some(byPath[path]) else None
  {
    var sorted := Sort(nodes, NodeLe);
    rows, byPath := [], map[];
    for i := 0 to |sorted|
      invariant |rows| == i
      invariant forall k :: 0 <= k < i ==>
                  rows[k] == Artifact(newId(k), ParentOf(rows[..k], sorted[k], rootId, rootPath), sorted[k].path,
                                      sorted[k].depth, sorted[k].size, sorted[k].extractedBy)
      invariant forall path :: RowFor(rows, path) == if path in byPath then Some(byPath[path]) else None
    {
      var node := sorted[i];
      var parent: Option<string> :=
        if node.parent == rootPath then Some(rootId)
        else if node.parent in byPath then Some(byPath[node.parent]) else None;
      if parent.None? {
        parent := Some(rootId);
      }
      var row := Artifact(newId(i), parent.value, node.path, node.depth, node.size, node.extractedBy);
      assert row.parentId == ParentOf(rows, node, rootId, rootPath);
      ghost var before := rows;
      rows := rows + [row];
      assert rows[..i] == before;
      assert forall k :: 0 <= k < i ==> rows[..k] == before[..k];
      byPath := byPath[node.path := row.id];
    }
  }

  lemma ParentOfNode(nodes: seq<Node>, root: string, node: Node) returns (parent: Node)
    requires WellParented(nodes, root) && node in nodes && node.parent != root
    ensures parent in nodes && parent.path == node.parent && parent.depth + 1 == node.depth
  {
    var k :| 0 <= k < |nodes| && nodes[k] == node;
    assert Parented(nodes, root, k);
    var p :| 0 <= p < k && nodes[p].path == nodes[k].parent && nodes[p].depth + 1 == nodes[k].depth;
    parent := nodes[p];
  }

  /** In depth order a node's parent comes before it. */
  lemma ParentComesFirst(nodes: seq<Node>, root: string, i: nat)
    requires WellParented(nodes, root) && i < |nodes|
    ensures var sorted := Sort(nodes, NodeLe);
            sorted[i].parent == root || exists j ::
                  0 <= j < i && sorted[j].path == sorted[i].parent && sorted[j].depth + 1 == sorted[i].depth
  {
    hide Sort, WellParented, Parented, StrLe;
    var sorted := Sort(nodes, NodeLe);
    NodeOrder();
    SortSorted(nodes, NodeLe);
    SortElements(nodes, NodeLe);
    assert sorted[i] in sorted;
    assert forall k :: i < k < |sorted| ==> NodeLe(sorted[i], sorted[k]);
    if sorted[i].parent != root {
      var parent := ParentOfNode(nodes, root, sorted[i]);
      var j :| 0 <= j < |sorted| && sorted[j] == parent;
    }
  }

  lemma {:induction false} RowExists(rows: seq<Artifact>, j: nat)
    requires j < |rows|
    ensures RowFor(rows, rows[j].path).Some?
  {
    if rows[|rows| - 1].path != rows[j].path {
      RowExists(rows[..|rows| - 1], j);
    }
  }

  /** The last node with a path, or -1. */
  function LastAt(nodes: seq<Node>, path: string): (k: int)
    ensures -1 <= k < |nodes| && (k >= 0 ==> nodes[k].path == path)
    ensures forall j :: k < j < |nodes| ==> nodes[j].path != path
  {
    if nodes == [] then -1
    else if nodes[|nodes| - 1].path == path then |nodes| - 1
    else LastAt(nodes[..|nodes| - 1], path)
  }

  lemma {:induction false} RowIsLast(rows: seq<Artifact>, nodes: seq<Node>, path: string)
    requires |rows| == |nodes| && forall k :: 0 <= k < |rows| ==> rows[k].path == nodes[k].path
    ensures var k := LastAt(nodes, path);
            RowFor(rows, path) == if k < 0 then None else Some(rows[k].id)
  {
    if rows != [] && nodes[|nodes| - 1].path != path {
      RowIsLast(rows[..|rows| - 1], nodes[..|nodes| - 1], path);
    }
  }

  /**
   The row a node is linked to is one level up exactly when no row before it, of its own depth, has
   the path of its parent. (An entry whose name holds the path separator can have such a path.)
   */
  lemma WhenTheLinkIsOneLevelUp(limits: Limits, disk: Disk, file: File, rootName: string, rows: seq<Artifact>, i: nat)
    requires limits.maxFiles >= 0 && limits.maxTotalBytes >= 0
    requires var sorted := Sort(Tree(limits, disk, file, rootName).nodes, NodeLe);
             && i < |sorted| == |rows| && (forall k :: 0 <= k < |rows| ==> rows[k].path == sorted[k].path)
             && sorted[i].parent != rootName
    ensures var sorted := Sort(Tree(limits, disk, file, rootName).nodes, NodeLe);
            var k := LastAt(sorted[..i], sorted[i].parent);
            && k >= 0 && RowFor(rows[..i], sorted[i].parent) == Some(rows[k].id)
            && (sorted[k].depth + 1 == sorted[i].depth
                <==> !exists j :: && 0 <= j < i && sorted[j].path == sorted[i].parent
                                  && sorted[j].depth == sorted[i].depth)
  {
    hide Tree, WellParented, Sort, NodeLe;
    var nodes := Tree(limits, disk, file, rootName).nodes;
    var sorted := Sort(nodes, NodeLe);
    NodesFormATree(limits, disk, file, rootName);
    ParentComesFirst(nodes, rootName, i);
    NodeOrder();
    SortSorted(nodes, NodeLe);
    hide LastAt, RowFor;
    DepthsGrow(sorted);
    RowIsLast(rows[..i], sorted[..i], sorted[i].parent);
    var j :| 0 <= j < i && sorted[j].path == sorted[i].parent && sorted[j].depth + 1 == sorted[i].depth;
    LastOfPath(sorted, i, sorted[i].parent, j);
  }

  /** Of the nodes before `i` that have a path, the last is one level up unless it is as deep as `i`. */
  lemma LastOfPath(sorted: seq<Node>, i: nat, path: string, j: nat)
    requires forall a, b :: 0 <= a <= b < |sorted| ==> sorted[a].depth <= sorted[b].depth
    requires j < i < |sorted| && sorted[j].path == path && sorted[j].depth + 1 == sorted[i].depth
    ensures var k := LastAt(sorted[..i], path);
            && j <= k
            && (sorted[k].depth + 1 == sorted[i].depth
                <==> !exists m :: 0 <= m < i && sorted[m].path == path && sorted[m].depth == sorted[i].depth)
  {
    hide LastAt;
    var k := LastAt(sorted[..i], path);
    assert sorted[..i][j].path == path;
    assert k >= 0 && sorted[..i][k] == sorted[k];
    forall m | 0 <= m < i && sorted[m].path == path
      ensures m <= k
    {
      assert sorted[..i][m] == sorted[m];
    }
  }

  lemma DepthsGrow(sorted: seq<Node>)
    requires Sorted(sorted, NodeLe)
    ensures forall j, k :: 0 <= j <= k < |sorted| ==> sorted[j].depth <= sorted[k].depth
  {
  }

  /**
   The tree of an extraction run never needs the fallback: at every row, the parent is the root
   or already has a row.
   */
  lemma NeverFallsBackToRoot(limits: Limits, disk: Disk, file: File, rootName: string, rows: seq<Artifact>, i: nat)
    requires limits.maxFiles >= 0 && limits.maxTotalBytes >= 0
    requires var sorted := Sort(Tree(limits, disk, file, rootName).nodes, NodeLe);
             && i < |sorted| == |rows| && forall k :: 0 <= k < |rows| ==> rows[k].path == sorted[k].path
    ensures var sorted := Sort(Tree(limits, disk, file, rootName).nodes, NodeLe);
            sorted[i].parent == rootName || RowFor(rows[..i], sorted[i].parent).Some?
  {
    hide Tree, WellParented, Sort;
    var nodes := Tree(limits, disk, file, rootName).nodes;
    var sorted := Sort(nodes, NodeLe);
    NodesFormATree(limits, disk, file, rootName);
    ParentComesFirst(nodes, rootName, i);
    if sorted[i].parent != rootName {
      var j :| 0 <= j < i && sorted[j].path == sorted[i].parent;
      assert rows[..i][j].path == sorted[j].path;
      RowExists(rows[..i], j);
    }
  }

  /** The i-th row hangs off the root, or off the last row before it that has its node's parent's path. */
  ghost predicate HangsOff(rows: seq<Artifact>, node: Node, rootId: string, rootName: string, i: nat)
    requires i < |rows|
  {
    if node.parent == rootName then rows[i].parentId == rootId
    else exists k :: && 0 <= k < i && rows[k].path == node.parent && rows[i].parentId == rows[k].id
                     && forall m :: k < m < i ==> rows[m].path != node.parent
  }

  lemma {:induction false} RowForIsLast(rows: seq<Artifact>, path: string) returns (k: int)
    ensures -1 <= k < |rows| && forall m :: k < m < |rows| ==> rows[m].path != path
    ensures RowFor(rows, path) == if k < 0 then None else Some(rows[k].id)
    ensures k >= 0 ==> rows[k].path == path
  {
    if rows == [] {
      k := -1;
    } else if rows[|rows| - 1].path == path {
      k := |rows| - 1;
    } else {
      k := RowForIsLast(rows[..|rows| - 1], path);
    }
  }

  /** In the tree of a run every row hangs off the root or off an earlier row. */
  lemma RowsHangTogether(limits: Limits, disk: Disk, file: File, rootId: string, rootName: string,
                         rows: seq<Artifact>, i: nat)
    requires limits.maxFiles >= 0 && limits.maxTotalBytes >= 0
    requires var sorted := Sort(Tree(limits, disk, file, rootName).nodes, NodeLe);
             && i < |sorted| == |rows| && (forall k :: 0 <= k < |rows| ==> rows[k].path == sorted[k].path)
             && rows[i].parentId == ParentOf(rows[..i], sorted[i], rootId, rootName)
    ensures HangsOff(rows, Sort(Tree(limits, disk, file, rootName).nodes, NodeLe)[i], rootId, rootName, i)
  {
    var node := Sort(Tree(limits, disk, file, rootName).nodes, NodeLe)[i];
    NeverFallsBackToRoot(limits, disk, file, rootName, rows, i);
    hide Tree, Sort, RowFor;
    if node.parent != rootName {
      var k := RowForIsLast(rows[..i], node.parent);
      assert forall m :: 0 <= m < i ==> rows[m] == rows[..i][m];
    }
  }
}
