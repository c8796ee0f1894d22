/** Export: the nodes of a tree as one stream, made in three ways. */
module Exports {
  import opened Bytes
  import opened Iavl
  import opened IavlContents
  import opened Hashing
  import opened Snapshots
  import opened SnapshotProps
  import opened MemTree

  /** An exported node; the height is zero for a leaf only. */
  datatype Item = Item(height: int, version: int, key: Bytes, value: Bytes)

  /** The nodes in post-order. */
  function Stream(t: Tree): (s: seq<Item>)
    ensures |s| >= 1
  {
    match t
    case Leaf(k, v, ver) => [Item(0, ver, k, v)]
    case Branch(k, height, _, ver, l, r) => Stream(l) + Stream(r) + [Item(height, ver, k, [])]
  }

  // ------------------------------------------ sequentially, from a snapshot

  function LeafItem(r: LeafRecord): Item {
    Item(0, r.entry.version, r.entry.key, r.entry.value)
  }

  function BranchItem(s: Snapshot, r: BranchRecord): Item
    requires 0 <= r.info.keyLeaf < |s.leaves|
  {
    Item(r.info.height, r.info.version, s.leaves[r.info.keyLeaf].entry.key, [])
  }

  function Wanting(s: Snapshot, i: int, pending: int): nat {
    if 0 <= i < |s.nodes| && pending < s.nodes[i].info.preTrees + 2 then s.nodes[i].info.preTrees + 2 - pending else 0
  }

  /** The rest of a sequential export: the next branch waits until the trees pending are
      those before it and its two children. */
  function From(s: Snapshot, i: int, j: int, pending: int): seq<Item>
    decreases |s.nodes| - i, Wanting(s, i, pending)
  {
    if !(0 <= i < |s.nodes|) then []
    else if pending < s.nodes[i].info.preTrees + 2 then
      if !(0 <= j < |s.leaves|) then [] else [LeafItem(s.leaves[j])] + From(s, i, j + 1, pending + 1)
    else if !(0 <= s.nodes[i].info.keyLeaf < |s.leaves|) then []
    else [BranchItem(s, s.nodes[i])] + From(s, i + 1, j, pending - 1)
  }

  lemma {:induction false} FirstBranchWaits(t: Tree, m: int, b: int, h: Hasher)
    requires t.Branch? && Exact(t)
    ensures |BranchRecords(t, m, b, h)| >= 1 && BranchRecords(t, m, b, h)[0].info.preTrees >= m - b
  {
    if t.left.Branch? {
      FirstBranchWaits(t.left, m, b, h);
    } else if t.right.Branch? {
      FirstBranchWaits(t.right, m + t.left.Size(), b + t.left.Size() - 1, h);
    }
  }

  ghost predicate Placed(s: Snapshot, t: Tree, m: int, b: int, h: Hasher) {
    Segment(s.leaves, m, LeafRecords(t, h)) && Segment(s.nodes, b, BranchRecords(t, m, b, h))
  }

  predicate NodeAt(s: Snapshot, i: int, info: BranchInfo) {
    0 <= i < |s.nodes| && s.nodes[i].info == info
  }

  predicate KeyAt(s: Snapshot, i: int, key: Bytes) {
    0 <= i < |s.leaves| && s.leaves[i].entry.key == key
  }

  /** Branch `i` is not complete while fewer than `pending` trees are. */
  predicate Waits(s: Snapshot, i: int, pending: int) {
    0 <= i < |s.nodes| && s.nodes[i].info.preTrees + 2 > pending
  }

  lemma {:induction false} PlacedLeaves(s: Snapshot, t: Tree, m: int, n: int, h: Hasher)
    requires t.Branch? && Exact(t) && Ordered(t) && n == t.left.Size() && Segment(s.leaves, m, LeafRecords(t, h))
    ensures Segment(s.leaves, m, LeafRecords(t.left, h)) && Segment(s.leaves, m + n, LeafRecords(t.right, h))
    ensures KeyAt(s, m + n, t.key)
  {
    RecordCounts(t.left, 0, 0, h);
    RecordCounts(t.right, 0, 0, h);
    assert LeafRecords(t, h) == LeafRecords(t.left, h) + LeafRecords(t.right, h);
    hide Segment, LeafRecords;
    SegmentSplits(s.leaves, m, LeafRecords(t.left, h), LeafRecords(t.right, h));
    SegmentHead(s.leaves, m + n, LeafRecords(t.right, h));
  }

  lemma {:induction false} BranchesOf(t: Tree, m: int, b: int, n: int, h: Hasher)
    returns (x: seq<BranchRecord>, y: seq<BranchRecord>, z: BranchRecord)
    requires t.Branch? && Exact(t) && n == t.left.Size()
    ensures BranchRecords(t, m, b, h) == (x + y) + [z]
    ensures x == BranchRecords(t.left, m, b, h) && |x| == n - 1
    ensures y == BranchRecords(t.right, m + n, b + n - 1, h) && |y| == t.size - n - 1
    ensures z.info == BranchInfo(t.height, m - b, t.version, t.size, m + n)
  {
    x, y := BranchRecords(t.left, m, b, h), BranchRecords(t.right, m + n, b + n - 1, h);
    z := BranchRecord(BranchInfo(t.height, m - b, t.version, t.size, m + n), HashOf(t, h));
    RecordCounts(t.left, m, b, h);
    RecordCounts(t.right, m + n, b + n - 1, h);
  }

  lemma {:induction false} PlacedBranches(s: Snapshot, t: Tree, m: int, b: int, n: int, h: Hasher)
    requires t.Branch? && Exact(t) && n == t.left.Size() && Segment(s.nodes, b, BranchRecords(t, m, b, h))
    ensures Segment(s.nodes, b, BranchRecords(t.left, m, b, h))
    ensures Segment(s.nodes, b + n - 1, BranchRecords(t.right, m + n, b + n - 1, h))
    ensures NodeAt(s, b + t.size - 2, BranchInfo(t.height, m - b, t.version, t.size, m + n))
    ensures Waits(s, b, m - b)
  {
    hide Segment, BranchRecords, Exact;
    FirstBranchWaits(t, m, b, h);
    SegmentHead(s.nodes, b, BranchRecords(t, m, b, h));
    var x, y, z := BranchesOf(t, m, b, n, h);
    SegmentSplits(s.nodes, b, x + y, [z]);
    SegmentSplits(s.nodes, b, x, y);
    SegmentHead(s.nodes, b + |x + y|, [z]);
  }

  lemma StreamParts(t: Tree, rest: seq<Item>)
    requires t.Branch?
    ensures Stream(t) + rest == Stream(t.left) + (Stream(t.right) + ([Item(t.height, t.version, t.key, [])] + rest))
  {
  }

  /** A branch follows its subtrees at once. */
  lemma FromRoot(s: Snapshot, i: int, j: int, info: BranchInfo, key: Bytes)
    requires NodeAt(s, i, info) && KeyAt(s, info.keyLeaf, key)
    ensures From(s, i, j, info.preTrees + 2) == [Item(info.height, info.version, key, [])]
      + From(s, i + 1, j, info.preTrees + 1)
  {
  }

  lemma FromLeaf(s: Snapshot, i: int, j: int, pending: int)
    requires Waits(s, i, pending) && 0 <= j < |s.leaves|
    ensures From(s, i, j, pending) == [LeafItem(s.leaves[j])] + From(s, i, j + 1, pending + 1)
  {
  }

  /** Waiting for leaves at the right moments, the two arrays merge into the post-order. */
  lemma {:induction false} FromStream(s: Snapshot, t: Tree, m: int, b: int, h: Hasher)
    requires Exact(t) && Ordered(t) && Placed(s, t, m, b, h)
    requires t.Leaf? ==> Waits(s, b, m - b)
    ensures From(s, b, m, m - b) == Stream(t) + From(s, b + t.Size() - 1, m + t.Size(), m - b + 1)
    decreases t
  {
    hide Segment, From, LeafRecords, BranchRecords, Waits, NodeAt, KeyAt;
    if t.Leaf? {
      LeafPlaced(s, t, m, h);
      FromLeaf(s, b, m, m - b);
    } else {
      var n, size := t.left.Size(), t.size;
      PlacedLeaves(s, t, m, n, h);
      PlacedBranches(s, t, m, b, n, h);
      FromSubtrees(s, t, m, b, n, h);
      var info := BranchInfo(t.height, m - b, t.version, size, m + n);
      FromRoot(s, b + size - 2, m + size, info, t.key);
      StreamParts(t, From(s, b + size - 1, m + size, m - b + 1));
    }
  }

  lemma SecondWaits(s: Snapshot, t: Tree, m: int, b: int, n: int)
    requires t.Branch? && Exact(t) && n == t.left.Size()
    requires NodeAt(s, b + t.size - 2, BranchInfo(t.height, m - b, t.version, t.size, m + n))
    ensures t.right.Leaf? ==> Waits(s, b + n - 1, m - b + 1)
  {
    ExactSizes(t.right);
  }

  lemma {:induction false} FromSubtrees(s: Snapshot, t: Tree, m: int, b: int, n: int, h: Hasher)
    requires t.Branch? && Exact(t) && Ordered(t) && n == t.left.Size()
    requires Placed(s, t.left, m, b, h) && Placed(s, t.right, m + n, b + n - 1, h)
    requires Waits(s, b, m - b)
    requires NodeAt(s, b + t.size - 2, BranchInfo(t.height, m - b, t.version, t.size, m + n))
    ensures From(s, b, m, m - b) == Stream(t.left) + (Stream(t.right) + From(s, b + t.size - 2, m + t.size, m - b + 2))
    decreases t, 0
  {
    hide Placed, From, Stream, NodeAt;
    SecondWaits(s, t, m, b, n);
    FromStream(s, t.left, m, b, h);
    FromStream(s, t.right, m + n, b + n - 1, h);
  }

  lemma LeafPlaced(s: Snapshot, t: Tree, m: int, h: Hasher)
    requires t.Leaf? && Segment(s.leaves, m, LeafRecords(t, h))
    ensures 0 <= m < |s.leaves| && LeafItem(s.leaves[m]) == Item(0, t.version, t.key, t.value)
  {
    SegmentHead(s.leaves, m, LeafRecords(t, h));
  }

  lemma {:induction false} StreamLength(t: Tree)
    requires Exact(t)
    ensures |Stream(t)| == 2 * t.Size() - 1
  {
    if t.Branch? {
      StreamLength(t.left);
      StreamLength(t.right);
    }
  }

  /** The records of a whole tree. */
  ghost predicate Whole(s: Snapshot, t: Tree, h: Hasher) {
    s.leaves == LeafRecords(t, h) && s.nodes == BranchRecords(t, 0, 0, h)
  }

  lemma {:induction false} FromWhole(s: Snapshot, t: Tree, h: Hasher)
    requires Exact(t) && Ordered(t) && Whole(s, t, h)
    ensures |s.leaves| == t.Size() && |s.nodes| == t.Size() - 1 && |Stream(t)| == |s.leaves| + |s.nodes|
    ensures |s.leaves| > 1 ==> From(s, 0, 0, 0) == Stream(t)
    ensures |s.leaves| == 1 ==> Stream(t) == [LeafItem(s.leaves[0])]
  {
    ExactSizes(t);
    RecordCounts(t, 0, 0, h);
    StreamLength(t);
    if t.Branch? {
      hide LeafRecords, BranchRecords, Stream;
      FromStream(s, t, 0, 0, h);
    }
  }

  /** The export so far and what remains of it. */
  ghost predicate Midway(s: Snapshot, i: int, j: int, pending: int, out: seq<Item>, all: seq<Item>) {
    && 0 <= i <= |s.nodes| && 0 <= j <= |s.leaves| && |out| == i + j
    && |all| == |s.leaves| + |s.nodes| && out + From(s, i, j, pending) == all
  }

  lemma StepLeaf(s: Snapshot, i: int, j: int, pending: int, out: seq<Item>, all: seq<Item>)
    requires Midway(s, i, j, pending, out, all) && i < |s.nodes| && pending < s.nodes[i].info.preTrees + 2
    ensures j < |s.leaves| && Midway(s, i, j + 1, pending + 1, out + [LeafItem(s.leaves[j])], all)
  {
  }

  lemma StepBranch(s: Snapshot, i: int, j: int, pending: int, out: seq<Item>, all: seq<Item>)
    requires Midway(s, i, j, pending, out, all) && i < |s.nodes| && pending >= s.nodes[i].info.preTrees + 2
    ensures 0 <= s.nodes[i].info.keyLeaf < |s.leaves|
    ensures Midway(s, i + 1, j, pending - 1, out + [BranchItem(s, s.nodes[i])], all)
  {
  }

  /** What has been reported when a callback stops after an item. */
  function UpTo(s: seq<Item>, last: nat): seq<Item> {
    if last < |s| then s[..last + 1] else s
  }

  /** The sequential export of a snapshot is the post-order of the tree that was written, as
      far as the callback lets it go. */
  method Export(s: Snapshot, stopAfter: nat, ghost t: Option<Tree>, ghost h: Hasher) returns (out: seq<Item>)
    requires if t.None? then s == EmptySnapshot else Exact(t.value) && Ordered(t.value) && Whole(s, t.value, h)
    ensures out == if t.None? then [] else UpTo(Stream(t.value), stopAfter)
  {
    hide Stream, Exact, Ordered, Whole, From, LeafItem;
    if t.Some? { FromWhole(s, t.value, h); }
    if |s.leaves| == 0 {
      return [];
    }
    if |s.leaves| == 1 {
      return [LeafItem(s.leaves[0])];
    }
    out := ExportNodes(s, stopAfter, Stream(t.value));
  }

  method ExportNodes(s: Snapshot, stopAfter: nat, ghost all: seq<Item>) returns (out: seq<Item>)
    requires Midway(s, 0, 0, 0, [], all)
    ensures out == UpTo(all, stopAfter)
  {
    hide From, LeafItem, BranchItem, Midway, UpTo;
    out := [];
    var pending, i, j: nat := 0, 0, 0;
    while i < |s.nodes|
      invariant Midway(s, i, j, pending, out, all) && |out| <= stopAfter
    {
      while pending < s.nodes[i].info.preTrees + 2
        invariant Midway(s, i, j, pending, out, all) && |out| <= stopAfter
        decreases s.nodes[i].info.preTrees + 2 - pending
      {
        StepLeaf(s, i, j, pending, out, all);
        out := out + [LeafItem(s.leaves[j])];
        j := j + 1;
        pending := pending + 1;
        if |out| == stopAfter + 1 {
          StoppedAt(s, i, j, pending, out, all, stopAfter);
          return;
        }
      }
      StepBranch(s, i, j, pending, out, all);
      out := out + [BranchItem(s, s.nodes[i])];
      pending := pending - 1;
      i := i + 1;
      if |out| == stopAfter + 1 {
        StoppedAt(s, i, j, pending, out, all, stopAfter);
        return;
      }
    }
    ExportDone(s, i, j, pending, out, all);
    NotStopped(all, stopAfter);
  }

  lemma StoppedAt(s: Snapshot, i: int, j: int, pending: int, out: seq<Item>, all: seq<Item>, stopAfter: nat)
    requires Midway(s, i, j, pending, out, all) && |out| == stopAfter + 1
    ensures out == UpTo(all, stopAfter)
  {
    hide From;
  }

  lemma NotStopped(all: seq<Item>, stopAfter: nat)
    requires |all| <= stopAfter
    ensures all == UpTo(all, stopAfter)
  {
  }

  lemma ExportDone(s: Snapshot, i: int, j: int, pending: int, out: seq<Item>, all: seq<Item>)
    requires Midway(s, i, j, pending, out, all) && i >= |s.nodes|
    ensures out == all
  {
  }

  // ---------------------------------------- with a stack, from any tree

  datatype StackEntry = StackEntry(node: Node, expanded: bool)

  function ItemOf(i: Info): Item {
    Item(i.height, i.version, i.key, i.value)
  }

  /** What a stack entry will still report. */
  ghost function Rest(a: Layout, expanded: bool): seq<Item> {
    var t := Abs(a);
    if t.Leaf? || !expanded then Stream(t) else [Item(t.height, t.version, t.key, [])]
  }

  ghost function RestAll(layouts: seq<Layout>, stack: seq<StackEntry>): seq<Item>
    requires |layouts| == |stack|
  {
    if stack == [] then []
    else Rest(layouts[|stack| - 1], stack[|stack| - 1].expanded) + RestAll(layouts[..|stack| - 1], stack[..|stack| - 1])
  }

  /** Nodes still to be looked at, counted twice if they are yet to be expanded. */
  ghost function Work(t: Tree, expanded: bool): nat {
    if expanded then 1 else match t
      case Leaf(_, _, _) => 2
      case Branch(_, _, _, _, l, r) => 2 + Work(l, false) + Work(r, false)
  }

  ghost function WorkAll(layouts: seq<Layout>, stack: seq<StackEntry>): nat
    requires |layouts| == |stack|
  {
    if stack == [] then 0
    else
      Work(Abs(layouts[|stack| - 1]), stack[|stack| - 1].expanded)
      + WorkAll(layouts[..|stack| - 1], stack[..|stack| - 1])
  }

  ghost predicate StackHolds(layouts: seq<Layout>, stack: seq<StackEntry>, h: Hasher)
    reads set k, r | 0 <= k < |layouts| && r in Refs(layouts[k]) :: r
  {
    && |layouts| == |stack|
    && forall k :: 0 <= k < |stack| ==> stack[k].node == Root(layouts[k]) && Good(layouts[k], h)
  }

  lemma Push(layouts: seq<Layout>, stack: seq<StackEntry>, a: Layout, e: StackEntry)
    requires |layouts| == |stack|
    ensures RestAll(layouts + [a], stack + [e]) == Rest(a, e.expanded) + RestAll(layouts, stack)
    ensures WorkAll(layouts + [a], stack + [e]) == Work(Abs(a), e.expanded) + WorkAll(layouts, stack)
  {
    assert (layouts + [a])[..|stack|] == layouts && (stack + [e])[..|stack|] == stack;
  }

  /** Expanding a branch reports the same nodes with less work. */
  lemma {:induction false} Expand(layouts: seq<Layout>, stack: seq<StackEntry>, a: Layout, l: Layout, r: Layout)
    requires |layouts| == |stack| && Abs(a).Branch? && Abs(l) == Abs(a).left && Abs(r) == Abs(a).right
    ensures var ls, st := layouts + [a] + [r] + [l],
          stack + [StackEntry(Root(a), true)] + [StackEntry(Root(r), false)] + [StackEntry(Root(l), false)];
      && RestAll(ls, st) == Rest(a, false) + RestAll(layouts, stack)
      && WorkAll(ls, st) < Work(Abs(a), false) + WorkAll(layouts, stack)
  {
    Push(layouts, stack, a, StackEntry(Root(a), true));
    Push(layouts + [a], stack + [StackEntry(Root(a), true)], r, StackEntry(Root(r), false));
    Push(layouts + [a] + [r], stack + [StackEntry(Root(a), true)] + [StackEntry(Root(r), false)],
         l, StackEntry(Root(l), false));
    StreamParts(Abs(a), RestAll(layouts, stack));
  }

  lemma Pop(layouts: seq<Layout>, stack: seq<StackEntry>)
    requires |layouts| == |stack| > 0
    ensures var n := |stack| - 1;
      && RestAll(layouts, stack) == Rest(layouts[n], stack[n].expanded) + RestAll(layouts[..n], stack[..n])
      && WorkAll(layouts, stack) == Work(Abs(layouts[n]), stack[n].expanded) + WorkAll(layouts[..n], stack[..n])
      && Work(Abs(layouts[n]), stack[n].expanded) > 0
  {
  }

  /** What one node reports. */
  lemma Reports(a: Layout, expanded: bool, h: Hasher)
    requires Good(a, h) && (Abs(a).Leaf? || expanded)
    requires a.OnDisk? ==> View(a.p) != Missing
    requires Inspect(Root(a)) == InfoOf(a)
    ensures Rest(a, expanded) == [ItemOf(Inspect(Root(a)))]
  {
  }

  ghost predicate Scanned(layouts: seq<Layout>, stack: seq<StackEntry>, out: seq<Item>, all: seq<Item>) {
    |layouts| == |stack| && out + RestAll(layouts, stack) == all
  }

  /** One turn of the scan: the top of the stack is reported, or expanded. */
  method ScanStep(stack: seq<StackEntry>, out: seq<Item>, ghost layouts: seq<Layout>, ghost all: seq<Item>,
                  ghost h: Hasher)
    returns (stack': seq<StackEntry>, out': seq<Item>, ghost layouts': seq<Layout>)
    requires StackHolds(layouts, stack, h) && Scanned(layouts, stack, out, all) && stack != []
    ensures StackHolds(layouts', stack', h) && Scanned(layouts', stack', out', all)
    ensures WorkAll(layouts', stack') < WorkAll(layouts, stack) && |out'| <= |out| + 1
  {
    hide Good, Inspect, InfoOf, LeftOf, RightOf, View, Refs, Abs, RestAll, WorkAll, Rest, Work;
    var n := |stack| - 1;
    var entry := stack[n];
    ghost var a := layouts[n];
    Seen(a, h);
    Pop(layouts, stack);
    var i := Inspect(entry.node);
    LeafSeen(a);
    if i.isLeaf || entry.expanded {
      Reports(a, entry.expanded, h);
      return stack[..n], out + [ItemOf(i)], layouts[..n];
    }
    ghost var l, r := ChildrenSeen(a, h);
    Expand(layouts[..n], stack[..n], a, l, r);
    stack' := stack[..n] + [StackEntry(entry.node, true)] + [StackEntry(i.right, false)] + [StackEntry(i.left, false)];
    return stack', out, layouts[..n] + [a] + [r] + [l];
  }

  lemma LeafSeen(a: Layout)
    requires Abs(a).Branch? && a.OnDisk? ==> View(a.p).BranchView?
    ensures InfoOf(a).isLeaf == Abs(a).Leaf?
  {
  }

  lemma {:induction false} ChildrenSeen(a: Layout, h: Hasher) returns (l: Layout, r: Layout)
    requires Good(a, h) && Abs(a).Branch? && (a.OnDisk? ==> View(a.p).BranchView?)
    ensures Abs(l) == Abs(a).left && Abs(r) == Abs(a).right && Good(l, h) && Good(r, h)
    ensures InfoOf(a).left == Root(l) && InfoOf(a).right == Root(r)
  {
    l, r := BranchParts(a, 0, h);
  }

  /** The scan with a stack, which the callback may stop after some node, reports the
      post-order up to that node. */
  method ScanPostOrder(root: Node, stopAfter: nat, ghost a: Option<Layout>, ghost h: Hasher) returns (out: seq<Item>)
    requires root == RootOf(a) && (a.Some? ==> Good(a.value, h))
    ensures a.None? ==> out == []
    ensures a.Some? ==> out == UpTo(Stream(Abs(a.value)), stopAfter)
  {
    if root == Nil {
      return [];
    }
    hide Good, Abs, RestAll, WorkAll, Stream, Refs, UpTo, Scanned;
    ghost var all := Stream(Abs(a.value));
    var stack := [StackEntry(root, false)];
    ghost var layouts := [a.value];
    Singleton(a.value);
    out := [];
    while stack != []
      invariant StackHolds(layouts, stack, h) && Scanned(layouts, stack, out, all) && |out| <= stopAfter
      decreases WorkAll(layouts, stack)
    {
      stack, out, layouts := ScanStep(stack, out, layouts, all, h);
      if |out| == stopAfter + 1 {
        ScanStops(layouts, stack, out, all, stopAfter);
        return;
      }
    }
    ScanStops(layouts, stack, out, all, stopAfter);
  }

  lemma ScanStops(layouts: seq<Layout>, stack: seq<StackEntry>, out: seq<Item>, all: seq<Item>, stopAfter: nat)
    requires Scanned(layouts, stack, out, all) && |out| <= stopAfter + 1
    requires stack == [] || |out| == stopAfter + 1
    ensures out == UpTo(all, stopAfter)
  {
  }

  lemma Singleton(a: Layout)
    ensures Scanned([a], [StackEntry(Root(a), false)], [], Stream(Abs(a)))
  {
    Push([], [], a, StackEntry(Root(a), false));
  }

  // ------------------------------------------------------- the export of a tree

  /** A stream tells its tree, whatever comes before it. */
  lemma {:induction false} StreamTells(a: seq<Item>, t: Tree, b: seq<Item>, u: Tree)
    requires Exact(t) && Exact(u) && a + Stream(t) == b + Stream(u)
    ensures a == b && t == u
    decreases t
  {
    var x, y := a + Stream(t), b + Stream(u);
    LastItem(a, t);
    LastItem(b, u);
    assert x[|x| - 1] == y[|y| - 1];
    if t.Branch? {
      var c, d := a + Stream(t.left), b + Stream(u.left);
      assert x[..|x| - 1] == c + Stream(t.right);
      assert y[..|y| - 1] == d + Stream(u.right);
      StreamTells(c, t.right, d, u.right);
      StreamTells(a, t.left, b, u.left);
    } else {
      assert a == x[..|x| - 1] && b == y[..|y| - 1];
    }
  }

  lemma LastItem(a: seq<Item>, t: Tree)
    requires Exact(t)
    ensures var s := a + Stream(t);
      s[|s| - 1] == (if t.Leaf? then Item(0, t.version, t.key, t.value) else Item(t.height, t.version, t.key, []))
    ensures t.Branch? ==> t.height > 0
  {
  }

  /** A tree is exported from its snapshot whenever their versions agree, as it was when the
      snapshot was written. By `SameStream` that is the tree if and only if it has not changed
      since. */
  method ExportTree(root: Node, version: nat, snapshot: Option<(Snapshot, nat)>, stopAfter: nat,
                    ghost written: Option<Tree>, ghost a: Option<Layout>, ghost h: Hasher) returns (out: seq<Item>)
    requires root == RootOf(a) && (a.Some? ==> Good(a.value, h))
    requires snapshot.Some? ==> if written.None? then snapshot.value.0 == EmptySnapshot
      else Exact(written.value) && Ordered(written.value) && Whole(snapshot.value.0, written.value, h)
    ensures var source := if snapshot.Some? && snapshot.value.1 == version then written else AbsOf(a);
      && (source.Some? ==> Exact(source.value)) && out == UpTo(StreamOf(source), stopAfter)
      && (a.Some? ==> Exact(Abs(a.value)))
      && (StreamOf(source) == StreamOf(AbsOf(a))
          <==> snapshot.None? || snapshot.value.1 != version || written == AbsOf(a))
  {
    hide Good, Stream, Whole, Exact, Ordered;
    if a.Some? { GoodExact(a.value, h); }
    if snapshot.Some? && version == snapshot.value.1 {
      SameStream(written, AbsOf(a));
      out := Export(snapshot.value.0, stopAfter, written, h);
    } else {
      out := ScanPostOrder(root, stopAfter, a, h);
    }
  }

  lemma GoodExact(a: Layout, h: Hasher)
    requires Good(a, h)
    ensures Exact(Abs(a))
  {
  }

  ghost function StreamOf(t: Option<Tree>): seq<Item> {
    if t.None? then [] else Stream(t.value)
  }

  lemma SameStream(t: Option<Tree>, u: Option<Tree>)
    requires (t.Some? ==> Exact(t.value)) && (u.Some? ==> Exact(u.value))
    ensures StreamOf(t) == StreamOf(u) <==> t == u
  {
    hide Exact, Stream;
    if t.Some? && u.Some? && Stream(t.value) == Stream(u.value) { StreamTells([], t.value, [], u.value); }
  }

  /** A tree written to after its snapshot, and not saved: the old value is exported. */
  method StaleExport(key: Bytes, v: Bytes, w: Bytes, h: Hasher)
    returns (out: seq<Item>, ghost was: Tree, ghost now: Tree)
    ensures was == Leaf(key, v, 1) && ApplyOp(Some(was), SetOp(key, w), 2) == Some(now)
    ensures out == Stream(was) && out != Stream(now)
  {
    was, now := Leaf(key, v, 1), Leaf(key, w, 2);
    CompareFlips(key, key);
    var n, a := NewLeaf(key, w, 2, h);
    var s := Snapshot([], LeafRecords(Leaf(key, v, 1), h));
    out := ExportTree(Mem(n), 1, Some((s, 1)), 2, Some(was), Some(a), h);
  }
}
