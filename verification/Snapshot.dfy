/** The on-disk form of a tree, as arrays of records in post-order. Children are not
    stored: they are found again by arithmetic on the index of a branch, its size, the
    number of trees pending before it, and the first leaf of its right subtree. */
module Snapshots {
  import opened Bytes
  import opened Iavl
  import opened Hashing

  datatype BranchInfo = BranchInfo(height: nat, preTrees: int, version: nat, size: nat, keyLeaf: int)
  datatype BranchRecord = BranchRecord(info: BranchInfo, hash: Hash)
  datatype LeafRecord = LeafRecord(entry: Entry, hash: Hash)
  datatype Snapshot = Snapshot(nodes: seq<BranchRecord>, leaves: seq<LeafRecord>)

  const EmptySnapshot := Snapshot([], [])

  // ------------------------------------------------------ persisted nodes

  datatype PersistedNode = PersistedNode(snapshot: Snapshot, isLeaf: bool, index: int)

  /** What the field accessors of a node read; a branch takes its key from a leaf. */
  datatype NodeView = Missing | LeafView(entry: Entry) | BranchView(info: BranchInfo, key: Bytes)

  function View(p: PersistedNode): NodeView {
    var s := p.snapshot;
    if p.isLeaf then
      if 0 <= p.index < |s.leaves| then LeafView(s.leaves[p.index].entry) else Missing
    else
      if 0 <= p.index < |s.nodes| && 0 <= s.nodes[p.index].info.keyLeaf < |s.leaves| then
        BranchView(s.nodes[p.index].info, s.leaves[s.nodes[p.index].info.keyLeaf].entry.key)
      else Missing
  }

  function StartLeaf(index: int, size: nat, preTrees: int): nat { U32(index + 2 - size + preTrees) }
  function EndLeaf(index: int, preTrees: int): nat { U32(index + preTrees + 1) }
  function LeftBranch(keyLeaf: int, preTrees: int): nat { U32(keyLeaf - preTrees - 2) }

  function Left(p: PersistedNode): PersistedNode
    requires View(p).BranchView?
  {
    var data := View(p).info;
    var start := StartLeaf(p.index, data.size, data.preTrees);
    if U32(start + 1) == data.keyLeaf then PersistedNode(p.snapshot, true, start)
    else PersistedNode(p.snapshot, false, LeftBranch(data.keyLeaf, data.preTrees))
  }

  function Right(p: PersistedNode): PersistedNode
    requires View(p).BranchView?
  {
    var data := View(p).info;
    if data.keyLeaf == EndLeaf(p.index, data.preTrees) then PersistedNode(p.snapshot, true, data.keyLeaf)
    else PersistedNode(p.snapshot, false, U32(p.index - 1))
  }

  // ------------------------------------------------------ the post-order

  function LeafRecords(t: Tree, h: Hasher): seq<LeafRecord> {
    match t
    case Leaf(k, v, ver) => [LeafRecord(Entry(k, v, ver), HashOf(t, h))]
    case Branch(_, _, _, _, l, r) => LeafRecords(l, h) + LeafRecords(r, h)
  }

  /** The branches of `t` in post-order, when `m` leaves and `b` branches come before. */
  function BranchRecords(t: Tree, m: int, b: int, h: Hasher): seq<BranchRecord> {
    match t
    case Leaf(_, _, _) => []
    case Branch(_, height, size, ver, l, r) =>
      var n := l.Size();
      BranchRecords(l, m, b, h) + BranchRecords(r, m + n, b + n - 1, h)
      + [BranchRecord(BranchInfo(height, m - b, ver, size, m + n), HashOf(t, h))]
  }

  predicate Segment<T(==)>(a: seq<T>, i: int, x: seq<T>) {
    0 <= i <= i + |x| <= |a| && a[i..i + |x|] == x
  }

  /** Node `p` is the root of `t`, whose leaf records start at `start`, and whose branch
      records end with that of `p`. */
  ghost predicate Stores(p: PersistedNode, t: Tree, start: nat, h: Hasher) {
    var b := p.index + 2 - t.Size();
    && p.isLeaf == t.Leaf?
    && start + t.Size() < TWO_32
    && Segment(p.snapshot.leaves, start, LeafRecords(t, h))
    && if t.Leaf? then p.index == start
       else 0 <= b <= start && Segment(p.snapshot.nodes, b, BranchRecords(t, start, b, h))
  }

  function StoredHash(p: PersistedNode): Hash
    requires View(p) != Missing
  {
    if p.isLeaf then p.snapshot.leaves[p.index].hash else p.snapshot.nodes[p.index].hash
  }

  // -------------------------------------------------------------- writing

  function EmitLeaf(s: Snapshot, e: Entry, hash: Hash): Snapshot {
    s.(leaves := s.leaves + [LeafRecord(e, hash)])
  }

  function EmitBranch(s: Snapshot, r: BranchRecord): Snapshot {
    s.(nodes := s.nodes + [r])
  }

  /** Depth-first post-order. The counters are 32-bit; the number of trees pending
      before a branch is kept in 8 bits. */
  function Emit(s: Snapshot, t: Tree, h: Hasher): Snapshot
    decreases t
  {
    match t
    case Leaf(k, v, ver) => EmitLeaf(s, Entry(k, v, ver), HashOf(t, h))
    case Branch(_, height, size, ver, l, r) =>
      var preTrees := U8(U32(|s.leaves|) - U32(|s.nodes|));
      var s1 := Emit(s, l, h);
      var s2 := Emit(s1, r, h);
      EmitBranch(s2, BranchRecord(BranchInfo(height, preTrees, ver, U32(size), U32(|s1.leaves|)), HashOf(t, h)))
  }

  /** The root of a snapshot that holds any leaf. */
  function RootNode(s: Snapshot): Option<PersistedNode> {
    if |s.nodes| > 0 then Some(PersistedNode(s, false, U32(|s.nodes| - 1)))
    else if |s.leaves| > 0 then Some(PersistedNode(s, true, 0))
    else None
  }
}

/** Writing a tree and walking it back by index arithmetic gives the same tree. */
module SnapshotProps {
  import opened Bytes
  import opened Iavl
  import opened IavlContents
  import opened Hashing
  import opened Snapshots

  /** There is room for `t`, and on no path into it do 256 trees become pending. */
  ghost predicate Room(s: Snapshot, t: Tree) {
    && |s.nodes| <= |s.leaves|
    && |s.leaves| + t.Size() < TWO_32
    && |s.leaves| - |s.nodes| + t.Height() < 0x100
  }

  lemma ExactSizes(t: Tree)
    requires Exact(t)
    ensures t.Size() >= 1 && (t.Size() == 1 <==> t.Leaf?)
    ensures |Leaves(t)| == t.Size()
  {
  }

  lemma {:induction false} RecordCounts(t: Tree, m: int, b: int, h: Hasher)
    requires Exact(t)
    ensures |LeafRecords(t, h)| == t.Size()
    ensures |BranchRecords(t, m, b, h)| == t.Size() - 1
    ensures LeafRecords(t, h)[0].entry.key == FirstKey(t)
  {
    ExactSizes(t);
    if t.Branch? {
      RecordCounts(t.left, m, b, h);
      RecordCounts(t.right, m + t.left.Size(), b + t.left.Size() - 1, h);
    }
  }

  /** The writer appends the records in post-order; no 8-bit or 32-bit field truncates. */
  lemma {:induction false} EmitAppends(s: Snapshot, t: Tree, h: Hasher)
    requires Exact(t) && Room(s, t)
    ensures Emit(s, t, h)
         == Snapshot(s.nodes + BranchRecords(t, |s.leaves|, |s.nodes|, h), s.leaves + LeafRecords(t, h))
    decreases t
  {
    if t.Branch? {
      var m, b, n := |s.leaves|, |s.nodes|, t.left.Size();
      ExactSizes(t.left);
      ExactSizes(t.right);
      EmitAppends(s, t.left, h);
      RecordCounts(t.left, m, b, h);
      var s1 := Emit(s, t.left, h);
      EmitAppends(s1, t.right, h);
      EmitBranchAppends(s, s1, Emit(s1, t.right, h), t, h);
    }
  }

  lemma {:induction false} EmitBranchAppends(s: Snapshot, s1: Snapshot, s2: Snapshot, t: Tree, h: Hasher)
    requires t.Branch?
    requires s1 == Snapshot(s.nodes + BranchRecords(t.left, |s.leaves|, |s.nodes|, h),
                            s.leaves + LeafRecords(t.left, h))
    requires s2 == Snapshot(s1.nodes + BranchRecords(t.right, |s1.leaves|, |s1.nodes|, h),
                            s1.leaves + LeafRecords(t.right, h))
    requires |s1.leaves| == |s.leaves| + t.left.Size() && |s1.nodes| == |s.nodes| + t.left.Size() - 1
    ensures EmitBranch(s2, BranchRecord(BranchInfo(t.height, |s.leaves| - |s.nodes|, t.version, t.size, |s1.leaves|),
      HashOf(t, h)))
         == Snapshot(s.nodes + BranchRecords(t, |s.leaves|, |s.nodes|, h), s.leaves + LeafRecords(t, h))
  {
    var x := BranchRecords(t.left, |s.leaves|, |s.nodes|, h);
    var y := BranchRecords(t.right, |s1.leaves|, |s1.nodes|, h);
    var z := BranchRecord(BranchInfo(t.height, |s.leaves| - |s.nodes|, t.version, t.size, |s1.leaves|), HashOf(t, h));
    AppendAssociates(s.nodes, x + y, [z]);
    AppendAssociates(s.nodes, x, y);
    AppendAssociates(s.leaves, LeafRecords(t.left, h), LeafRecords(t.right, h));
  }

  lemma AppendAssociates<T>(a: seq<T>, b: seq<T>, c: seq<T>)
    ensures (a + b) + c == a + (b + c)
  {
  }

  lemma SegmentSplits<T>(a: seq<T>, i: int, x: seq<T>, y: seq<T>)
    requires Segment(a, i, x + y)
    ensures Segment(a, i, x) && Segment(a, i + |x|, y)
  {
    assert a[i..i + |x|] == (x + y)[..|x|];
    assert a[i + |x|..i + |x| + |y|] == (x + y)[|x|..];
  }

  lemma SegmentHead<T>(a: seq<T>, i: int, x: seq<T>)
    requires Segment(a, i, x) && x != []
    ensures 0 <= i < |a| && a[i] == x[0]
  {
    assert a[i] == a[i..i + |x|][0];
  }

  lemma LeavesInParts(t: Tree, h: Hasher)
    requires t.Branch?
    ensures LeafRecords(t, h) == LeafRecords(t.left, h) + LeafRecords(t.right, h)
  {
  }

  lemma BranchesInParts(t: Tree, m: int, b: int, h: Hasher)
    requires t.Branch?
    ensures var n := t.left.Size();
      BranchRecords(t, m, b, h)
        == (BranchRecords(t.left, m, b, h) + BranchRecords(t.right, m + n, b + n - 1, h))
           + [BranchRecord(BranchInfo(t.height, m - b, t.version, t.size, m + n), HashOf(t, h))]
  {
  }

  /** The pieces of a stored branch. */
  lemma {:induction false} StoredParts(p: PersistedNode, t: Tree, start: nat, h: Hasher)
    requires t.Branch? && Exact(t) && Stores(p, t, start, h)
    ensures var s, b, n := p.snapshot, p.index + 2 - t.size, t.left.Size();
      && Segment(s.leaves, start, LeafRecords(t.left, h))
      && Segment(s.leaves, start + n, LeafRecords(t.right, h))
      && Segment(s.nodes, b, BranchRecords(t.left, start, b, h))
      && Segment(s.nodes, b + n - 1, BranchRecords(t.right, start + n, b + n - 1, h))
      && 0 <= p.index < |s.nodes|
      && s.nodes[p.index] == BranchRecord(BranchInfo(t.height, start - b, t.version, t.size, start + n), HashOf(t, h))
  {
    hide Segment, LeafRecords, BranchRecords, HashOf;
    var s, b, n := p.snapshot, p.index + 2 - t.size, t.left.Size();
    RecordCounts(t.left, start, b, h);
    RecordCounts(t.right, start + n, b + n - 1, h);
    LeavesInParts(t, h);
    SegmentSplits(s.leaves, start, LeafRecords(t.left, h), LeafRecords(t.right, h));
    var x, y := BranchRecords(t.left, start, b, h), BranchRecords(t.right, start + n, b + n - 1, h);
    var z := [BranchRecord(BranchInfo(t.height, start - b, t.version, t.size, start + n), HashOf(t, h))];
    BranchesInParts(t, start, b, h);
    SegmentSplits(s.nodes, b, x + y, z);
    SegmentSplits(s.nodes, b, x, y);
    SegmentHead(s.nodes, p.index, z);
  }

  /** A stored node reads as the root of its tree. */
  lemma {:induction false} StoredView(p: PersistedNode, t: Tree, start: nat, h: Hasher)
    requires Exact(t) && Ordered(t) && Stores(p, t, start, h)
    ensures View(p) == match t
      case Leaf(k, v, ver) => LeafView(Entry(k, v, ver))
      case Branch(k, height, size, ver, l, _) =>
        BranchView(BranchInfo(height, start + size - 2 - p.index, ver, size, start + l.Size()), k)
    ensures StoredHash(p) == HashOf(t, h)
  {
    hide Segment;
    if t.Leaf? {
      SegmentHead(p.snapshot.leaves, start, LeafRecords(t, h));
    } else {
      StoredParts(p, t, start, h);
      var s, n := p.snapshot, start + t.left.Size();
      RecordCounts(t.right, 0, 0, h);
      SegmentHead(s.leaves, n, LeafRecords(t.right, h));
    }
  }

  /** The index arithmetic finds the children, and the bounds of the leaves. */
  lemma {:induction false} ChildrenFound(p: PersistedNode, t: Tree, start: nat, h: Hasher)
    requires t.Branch? && Exact(t) && Ordered(t) && Stores(p, t, start, h)
    ensures View(p).BranchView?
    ensures Stores(Left(p), t.left, start, h)
    ensures Stores(Right(p), t.right, start + t.left.Size(), h)
    ensures var data := View(p).info;
      && StartLeaf(p.index, data.size, data.preTrees) == start
      && EndLeaf(p.index, data.preTrees) == start + t.size - 1
  {
    hide Segment, LeafRecords, BranchRecords;
    ExactSizes(t.left);
    ExactSizes(t.right);
    StoredView(p, t, start, h);
    StoredParts(p, t, start, h);
    var b, n := p.index + 2 - t.size, t.left.Size();
    assert Left(p) == PersistedNode(p.snapshot, n == 1, if n == 1 then start else b + n - 2);
    assert Right(p) == PersistedNode(p.snapshot, t.size - n == 1,
                                     if t.size - n == 1 then start + n else b + t.size - 3);
  }

  /** A well-formed tree of fewer than 2^32 leaves can be written and found again node
      for node: the height bound alone rules out truncation of the 8-bit counts. */
  lemma {:induction false} SnapshotRoundTrip(t: Tree, h: Hasher)
    requires WellFormed(t) && t.Size() < TWO_32
    ensures var s := Emit(EmptySnapshot, t, h);
      RootNode(s).Some? && Stores(RootNode(s).value, t, 0, h)
  {
    hide Emit, LeafRecords, BranchRecords, Exact, Balanced, Ordered;
    HeightAtMost45(t);
    ExactSizes(t);
    RecordCounts(t, 0, 0, h);
    EmitAppends(EmptySnapshot, t, h);
    var s := Emit(EmptySnapshot, t, h);
    assert s.nodes == BranchRecords(t, 0, 0, h) && s.leaves == LeafRecords(t, h);
  }

  lemma {:induction false} RecordsOfLeaves(t: Tree, h: Hasher, i: nat)
    requires Exact(t) && i < t.Size()
    ensures |LeafRecords(t, h)| == |Leaves(t)| == t.Size()
    ensures LeafRecords(t, h)[i].entry == Leaves(t)[i]
  {
    ExactSizes(t);
    RecordCounts(t, 0, 0, h);
    if t.Branch? {
      ExactSizes(t.left);
      RecordCounts(t.left, 0, 0, h);
      if i < t.left.Size() { RecordsOfLeaves(t.left, h, i); } else { RecordsOfLeaves(t.right, h, i - t.left.Size()); }
    }
  }

  /** The leaves of a stored tree are consecutive records, in order. */
  lemma {:induction false} StoredLeaves(p: PersistedNode, t: Tree, start: nat, h: Hasher, i: nat)
    requires Exact(t) && Stores(p, t, start, h)
    requires i < t.Size()
    ensures |Leaves(t)| == t.Size()
    ensures start + i < |p.snapshot.leaves|
    ensures p.snapshot.leaves[start + i].entry == Leaves(t)[i]
  {
    RecordsOfLeaves(t, h, i);
    var x := LeafRecords(t, h);
    assert p.snapshot.leaves[start + i] == p.snapshot.leaves[start..start + |x|][i];
  }

  /** A place stores at most one tree. */
  lemma {:induction false} StoredTreeIsUnique(p: PersistedNode, t: Tree, u: Tree, i: nat, j: nat, h: Hasher)
    requires Exact(t) && Exact(u) && Ordered(t) && Ordered(u)
    requires Stores(p, t, i, h) && Stores(p, u, j, h)
    ensures t == u
    decreases t
  {
    hide Stores;
    StoredView(p, t, i, h);
    StoredView(p, u, j, h);
    if t.Branch? {
      ChildrenFound(p, t, i, h);
      ChildrenFound(p, u, j, h);
      StoredTreeIsUnique(Left(p), t.left, u.left, i, j, h);
      StoredTreeIsUnique(Right(p), t.right, u.right, i + t.left.Size(), j + u.left.Size(), h);
    }
  }
}
