/** Import: a stream of nodes is written to a new snapshot with a stack of pending
    subtrees, of which only sizes, hashes and leaf counts are kept. */
module Imports {
  import opened Bytes
  import opened Iavl
  import opened IavlContents
  import opened Hashing
  import opened Snapshots
  import opened SnapshotProps
  import opened SnapshotFiles
  import opened SnapshotWriters
  import opened Exports

  // --------------------------------------- what a stream of nodes stands for

  /** The trees pending after one more node. A version above 32 bits is refused, and so
      is a branch that comes before its two subtrees. */
  function Feed(stack: seq<Tree>, n: Item): Option<seq<Tree>> {
    if n.version >= TWO_32 then None
    else if n.height == 0 then Some(stack + [Leaf(n.key, n.value, U32(n.version))])
    else if |stack| < 2 then None
    else
      var l, r := stack[|stack| - 2], stack[|stack| - 1];
      Some(stack[..|stack| - 2] + [Branch(n.key, U8(n.height), l.Size() + r.Size(), U32(n.version), l, r)])
  }

  function Parse(stack: seq<Tree>, items: seq<Item>): Option<seq<Tree>>
    decreases |items|
  {
    if items == [] then Some(stack)
    else
      var next := Feed(stack, items[0]);
      if next.None? then None else Parse(next.value, items[1..])
  }

  lemma {:induction false} ParseAppend(stack: seq<Tree>, a: seq<Item>, b: seq<Item>)
    ensures Parse(stack, a + b) == var mid := Parse(stack, a); if mid.None? then None else Parse(mid.value, b)
    decreases |a|
  {
    if a == [] {
      assert a + b == b;
    } else {
      assert (a + b)[0] == a[0] && (a + b)[1..] == a[1..] + b;
      var next := Feed(stack, a[0]);
      hide Feed;
      if next.Some? { ParseAppend(next.value, a[1..], b); }
    }
  }

  /** Versions fit in 32 bits and heights in 8. */
  predicate Narrow(t: Tree) {
    && t.version < TWO_32 && t.Height() < 0x100
    && (t.Branch? ==> Narrow(t.left) && Narrow(t.right))
  }

  lemma {:induction false} FeedRoot(stack: seq<Tree>, t: Tree)
    requires Exact(t) && Narrow(t)
    ensures t.Leaf? ==> Parse(stack, Stream(t)) == Some(stack + [t])
    ensures t.Branch? ==>
      Parse(stack + [t.left] + [t.right], [Item(t.height, t.version, t.key, [])]) == Some(stack + [t])
  {
    if t.Branch? {
      var s := stack + [t.left] + [t.right];
      assert s[..|s| - 2] == stack;
      assert Feed(s, Item(t.height, t.version, t.key, [])) == Some(stack + [t]);
    }
  }

  /** The stream of a tree stands for the tree: an import undoes an export. */
  lemma {:induction false} ParseStream(stack: seq<Tree>, t: Tree)
    requires Exact(t) && Narrow(t)
    ensures Parse(stack, Stream(t)) == Some(stack + [t])
    decreases t
  {
    FeedRoot(stack, t);
    if t.Branch? {
      var root := [Item(t.height, t.version, t.key, [])];
      assert Stream(t) == Stream(t.left) + Stream(t.right) + root;
      ParseStream(stack, t.left);
      ParseStream(stack + [t.left], t.right);
      hide Parse, Stream, Feed;
      ParseAppend(stack, Stream(t.left) + Stream(t.right), root);
      ParseAppend(stack, Stream(t.left), Stream(t.right));
    }
  }

  function StreamAll(stack: seq<Tree>): seq<Item> {
    if stack == [] then [] else StreamAll(stack[..|stack| - 1]) + Stream(stack[|stack| - 1])
  }

  /** A node as an export writes it. */
  predicate Plain(n: Item) {
    0 <= n.version && 0 <= n.height < 0x100 && (n.height != 0 ==> n.value == [])
  }

  lemma {:induction false} FeedKeepsStream(stack: seq<Tree>, n: Item)
    requires Feed(stack, n).Some? && Plain(n)
    ensures StreamAll(Feed(stack, n).value) == StreamAll(stack) + [n]
  {
    var next := Feed(stack, n).value;
    assert next[..|next| - 1] == if n.height == 0 then stack else stack[..|stack| - 2];
    if n.height != 0 {
      var init := stack[..|stack| - 1];
      assert init[..|init| - 1] == stack[..|stack| - 2];
      assert StreamAll(stack) == StreamAll(stack[..|stack| - 2]) + Stream(stack[|stack| - 2])
        + Stream(stack[|stack| - 1]);
    }
  }

  /** And any accepted stream is the stream of the trees that it stands for. */
  lemma {:induction false} StreamOfParse(stack: seq<Tree>, items: seq<Item>)
    requires Parse(stack, items).Some? && forall i :: 0 <= i < |items| ==> Plain(items[i])
    ensures StreamAll(Parse(stack, items).value) == StreamAll(stack) + items
    decreases |items|
  {
    if items == [] {
      assert StreamAll(stack) + items == StreamAll(stack);
    } else {
      var next := Feed(stack, items[0]).value;
      FeedKeepsStream(stack, items[0]);
      hide Feed, StreamAll;
      StreamOfParse(next, items[1..]);
      assert items == [items[0]] + items[1..];
      assert (StreamAll(stack) + [items[0]]) + items[1..] == StreamAll(stack) + items;
    }
  }

  // ------------------------------------------------ pending trees, as written

  /** The snapshot after several trees were written to it. */
  function EmitAll(ts: seq<Tree>, h: Hasher): Snapshot {
    if ts == [] then EmptySnapshot else Emit(EmitAll(ts[..|ts| - 1], h), ts[|ts| - 1], h)
  }

  lemma {:induction false} EmitCount(s: Snapshot, t: Tree, h: Hasher)
    ensures |Emit(s, t, h).leaves| - |Emit(s, t, h).nodes| == |s.leaves| - |s.nodes| + 1
    decreases t
  {
    if t.Branch? {
      EmitCount(s, t.left, h);
      EmitCount(Emit(s, t.left, h), t.right, h);
    }
  }

  /** As many trees are pending as leaves were written more than branches. */
  lemma {:induction false} EmitAllCount(ts: seq<Tree>, h: Hasher)
    ensures |EmitAll(ts, h).leaves| - |EmitAll(ts, h).nodes| == |ts|
    decreases |ts|
  {
    if ts != [] {
      hide Emit;
      EmitAllCount(ts[..|ts| - 1], h);
      EmitCount(EmitAll(ts[..|ts| - 1], h), ts[|ts| - 1], h);
    }
  }

  lemma SmallCounts(m: int, b: int)
    ensures U8(U32(m) - U32(b)) == U8(m - b)
  {
  }

  lemma EmitAllPush(ts: seq<Tree>, t: Tree, h: Hasher)
    ensures EmitAll(ts + [t], h) == Emit(EmitAll(ts, h), t, h)
  {
    assert (ts + [t])[..|ts|] == ts;
  }

  /** A branch over the last two pending trees: what the importer writes is what the
      writer of the joined tree would. */
  lemma {:induction false} EmitAllJoin(ts: seq<Tree>, t: Tree, h: Hasher)
    requires t.Branch?
    ensures EmitAll(ts + [t], h)
         == EmitBranch(EmitAll(ts + [t.left] + [t.right], h),
              BranchRecord(BranchInfo(t.height, U8(|ts|), t.version, U32(t.size),
                U32(|EmitAll(ts + [t.left], h).leaves|)), HashOf(t, h)))
  {
    hide EmitAll, Emit, EmitBranch, HashOf, U8, U32;
    var s := EmitAll(ts, h);
    EmitAllPush(ts, t, h);
    EmitAllPush(ts, t.left, h);
    EmitAllPush(ts + [t.left], t.right, h);
    EmitAllCount(ts, h);
    EmitOf(s, t, h);
  }

  lemma EmitOf(s: Snapshot, t: Tree, h: Hasher)
    requires t.Branch?
    ensures Emit(s, t, h) == EmitBranch(Emit(Emit(s, t.left, h), t.right, h),
      BranchRecord(BranchInfo(t.height, U8(|s.leaves| - |s.nodes|), t.version, U32(t.size),
        U32(|Emit(s, t.left, h).leaves|)), HashOf(t, h)))
  {
    hide U8, U32, HashOf, EmitBranch;
    SmallCounts(|s.leaves|, |s.nodes|);
  }

  /** The leaves written up to the end of a pending tree. */
  function LeafCount(ts: seq<Tree>, k: nat, h: Hasher): nat
    requires k < |ts|
  {
    U32(|EmitAll(ts[..k + 1], h).leaves|)
  }

  datatype Pending = Pending(size: nat, hash: Hash)

  /** The stacks of the importer, as it keeps them for the pending trees. */
  ghost predicate Tracks(leavesStack: seq<nat>, nodeStack: seq<Pending>, ts: seq<Tree>, h: Hasher) {
    && |leavesStack| == |nodeStack| == |ts|
    && (forall k :: 0 <= k < |ts| ==> nodeStack[k] == Pending(ts[k].Size(), HashOf(ts[k], h)))
    && (forall k :: 0 <= k < |ts| ==> leavesStack[k] == LeafCount(ts, k, h))
  }

  lemma TracksPush(leavesStack: seq<nat>, nodeStack: seq<Pending>, ts: seq<Tree>, t: Tree, h: Hasher)
    requires Tracks(leavesStack, nodeStack, ts, h)
    ensures Tracks(leavesStack + [U32(|EmitAll(ts + [t], h).leaves|)],
                   nodeStack + [Pending(t.Size(), HashOf(t, h))], ts + [t], h)
  {
    hide EmitAll, U32, HashOf;
    forall k | 0 <= k < |ts| ensures LeafCount(ts + [t], k, h) == LeafCount(ts, k, h) {
      assert (ts + [t])[..k + 1] == ts[..k + 1];
    }
    assert (ts + [t])[..|ts| + 1] == ts + [t];
  }

  lemma TracksPop(leavesStack: seq<nat>, nodeStack: seq<Pending>, ts: seq<Tree>, n: nat, h: Hasher)
    requires Tracks(leavesStack, nodeStack, ts, h) && n <= |ts|
    ensures Tracks(leavesStack[..n], nodeStack[..n], ts[..n], h)
  {
    hide EmitAll, U32, HashOf;
    forall k | 0 <= k < n ensures LeafCount(ts[..n], k, h) == LeafCount(ts, k, h) {
      assert ts[..n][..k + 1] == ts[..k + 1];
    }
  }

  class Importer {
    const writer: SnapshotWriter
    var leavesStack: seq<nat>
    var nodeStack: seq<Pending>
    ghost var trees: seq<Tree>

    ghost predicate Valid(h: Hasher)
      reads this, writer
    {
      writer.Valid() && writer.written == EmitAll(trees, h) && Tracks(leavesStack, nodeStack, trees, h)
    }

    constructor (ghost h: Hasher)
      ensures Valid(h) && trees == [] && fresh(writer)
    {
      writer := new SnapshotWriter();
      leavesStack, nodeStack, trees := [], [], [];
    }

    method Add(n: Item, h: Hasher) returns (ok: bool)
      requires Valid(h)
      modifies this, writer
      ensures Valid(h)
      ensures ok == Feed(old(trees), n).Some?
      ensures trees == if ok then Feed(old(trees), n).value else old(trees)
    {
      hide EmitAll, Tracks;
      if n.version >= TWO_32 {
        return false;
      }
      if n.height == 0 {
        AddLeaf(n, h);
        return true;
      }
      TracksLengths(leavesStack, nodeStack, trees, h);
      if |leavesStack| < 2 || |nodeStack| < 2 {
        return false;
      }
      AddBranch(n, h);
      return true;
    }

    method AddLeaf(n: Item, h: Hasher)
      requires Valid(h) && n.version < TWO_32 && n.height == 0
      modifies this, writer
      ensures Valid(h) && trees == Feed(old(trees), n).value
    {
      ghost var t := Leaf(n.key, n.value, U32(n.version));
      hide EmitAll, Tracks, U32;
      TracksPush(leavesStack, nodeStack, trees, t, h);
      EmitAllPush(trees, t, h);
      var hash := h.leaf(n.key, n.value, U32(n.version));
      writer.WriteLeaf(Entry(n.key, n.value, U32(n.version)), hash);
      leavesStack := leavesStack + [writer.leafCounter];
      nodeStack := nodeStack + [Pending(1, hash)];
      trees := trees + [t];
    }

    method AddBranch(n: Item, h: Hasher)
      requires Valid(h) && n.version < TWO_32 && n.height != 0 && |trees| >= 2
      modifies this, writer
      ensures Valid(h) && trees == Feed(old(trees), n).value
    {
      hide EmitAll, Tracks, U32, U8, HashOf, NodesFile, LeavesFile, KvsFile;
      ghost var t := Joined(trees, n);
      BranchTracks(leavesStack, nodeStack, trees, t, h);
      var k := |leavesStack| - 2;
      var keyLeaf := leavesStack[k];
      var left, right := nodeStack[k], nodeStack[k + 1];
      var hash := h.branch(U8(n.height), left.size + right.size, U32(n.version), left.hash, right.hash);
      assert hash == HashOf(t, h) by { HashOfJoined(t, h); }
      var r := BranchRecord(BranchInfo(U8(n.height), U8(k), U32(n.version), U32(left.size + right.size), keyLeaf),
        hash);
      WriteJoined(r, k, Pending(left.size + right.size, hash), trees[..k] + [t], h);
    }

    /** Writes a branch and puts it in place of its two subtrees. */
    method WriteJoined(r: BranchRecord, k: nat, p: Pending, ghost ts: seq<Tree>, ghost h: Hasher)
      requires writer.Valid() && k <= |leavesStack| && k <= |nodeStack|
      requires EmitAll(ts, h) == EmitBranch(writer.written, r)
      requires Tracks(leavesStack[..k] + [U32(|EmitAll(ts, h).leaves|)], nodeStack[..k] + [p], ts, h)
      modifies this, writer
      ensures Valid(h) && trees == ts
    {
      hide EmitAll, Tracks, U32, NodesFile, LeavesFile, KvsFile;
      writer.WriteBranch(r);
      leavesStack := leavesStack[..k] + [writer.leafCounter];
      nodeStack := nodeStack[..k] + [p];
      trees := ts;
    }
  }

  /** The branch over the last two pending trees. */
  ghost function Joined(ts: seq<Tree>, n: Item): Tree
    requires |ts| >= 2
  {
    var l, r := ts[|ts| - 2], ts[|ts| - 1];
    Branch(n.key, U8(n.height), l.Size() + r.Size(), U32(n.version), l, r)
  }

  lemma HashOfJoined(t: Tree, h: Hasher)
    requires t.Branch?
    ensures HashOf(t, h) == h.branch(t.height, t.size, t.version, HashOf(t.left, h), HashOf(t.right, h))
  {
  }

  lemma TracksLengths(leavesStack: seq<nat>, nodeStack: seq<Pending>, ts: seq<Tree>, h: Hasher)
    requires Tracks(leavesStack, nodeStack, ts, h)
    ensures |leavesStack| == |nodeStack| == |ts|
  {
  }

  lemma {:induction false} BranchTracks(leavesStack: seq<nat>, nodeStack: seq<Pending>, ts: seq<Tree>, t: Tree,
                                        h: Hasher)
    requires Tracks(leavesStack, nodeStack, ts, h) && |ts| >= 2 && t.Branch?
    requires t.left == ts[|ts| - 2] && t.right == ts[|ts| - 1]
    ensures |leavesStack| == |nodeStack| == |ts|
    ensures var k := |ts| - 2;
      && nodeStack[k] == Pending(t.left.Size(), HashOf(t.left, h))
      && nodeStack[k + 1] == Pending(t.right.Size(), HashOf(t.right, h))
      && EmitAll(ts[..k] + [t], h)
         == EmitBranch(EmitAll(ts, h), BranchRecord(BranchInfo(t.height, U8(k), t.version,
             U32(t.size), leavesStack[k]), HashOf(t, h)))
      && Tracks(leavesStack[..k] + [U32(|EmitAll(ts[..k] + [t], h).leaves|)],
                nodeStack[..k] + [Pending(t.Size(), HashOf(t, h))], ts[..k] + [t], h)
  {
    var k := |ts| - 2;
    assert ts[..k] + [t.left] == ts[..k + 1] && ts[..k] + [t.left] + [t.right] == ts;
    EmitAllJoin(ts[..k], t, h);
    TracksPop(leavesStack, nodeStack, ts, k, h);
    TracksPush(leavesStack[..k], nodeStack[..k], ts[..k], t, h);
  }

  /** An import fails, or leaves the files of a snapshot and the number of its leaves. */
  datatype Imported = ImportFailed | Files(nodes: Bytes, leaves: Bytes, kvs: Bytes, count: nat)

  function FilesOf(s: Snapshot): Imported {
    Files(NodesFile(s.nodes), LeavesFile(s.leaves), KvsFile(s.leaves), U32(|s.leaves|))
  }

  /** The files are those of the one tree that the stream stands for. */
  method DoImport(version: int, items: seq<Item>, h: Hasher) returns (r: Imported)
    ensures r == if version >= TWO_32 then ImportFailed
      else match Parse([], items)
        case None => ImportFailed
        case Some(ts) => if |ts| == 0 then FilesOf(EmptySnapshot)
          else if |ts| == 1 then FilesOf(Emit(EmptySnapshot, ts[0], h)) else ImportFailed
  {
    if version >= TWO_32 {
      return ImportFailed;
    }
    hide Emit, Tracks, Feed, NodesFile, LeavesFile, KvsFile, U32;
    var imp := new Importer(h);
    var i := 0;
    while i < |items|
      invariant 0 <= i <= |items| && imp.Valid(h) && fresh(imp) && fresh(imp.writer)
      invariant Parse(imp.trees, items[i..]) == Parse([], items)
    {
      var ok := imp.Add(items[i], h);
      assert items[i..][1..] == items[i + 1..];
      if !ok {
        return ImportFailed;
      }
      i := i + 1;
    }
    TracksLengths(imp.leavesStack, imp.nodeStack, imp.trees, h);
    var w := imp.writer;
    match |imp.leavesStack| {
      case 0 => return Files(w.nodes, w.leaves, w.kvs, w.leafCounter);
      case 1 => return Files(w.nodes, w.leaves, w.kvs, w.leafCounter);
      case _ => return ImportFailed;
    }
  }

  lemma {:induction false} FittingIsNarrow(t: Tree)
    requires Exact(t) && FieldsFit(t) && t.Height() < 0x100
    ensures Narrow(t)
  {
    if t.Branch? {
      FittingIsNarrow(t.left);
      FittingIsNarrow(t.right);
    }
  }

  /** Exporting a tree and importing the stream writes files that open as the same leaf
      and branch arrays, hashes included, from which the same stream is exported again. */
  lemma {:induction false} ImportRestoresExport(t: Tree, h: Hasher)
    requires WellFormed(t) && t.Size() < TWO_32
    requires FieldsFit(t) && |KvsFile(LeafRecords(t, h))| < TWO_64
    ensures Parse([], Stream(t)) == Some([t])
    ensures var f := FilesOf(Emit(EmptySnapshot, t, h)); var s := Open(f.nodes, f.leaves, f.kvs);
      s.Opened? && Whole(s.snapshot, t, h)
  {
    hide Parse, Stream, Emit, Open, LeafRecords, BranchRecords;
    HeightAtMost45(t);
    FittingIsNarrow(t);
    ParseStream([], t);
    assert [] + [t] == [t];
    FilesRoundTrip(t, h);
    EmitWhole(t, h);
  }

  lemma {:induction false} EmitWhole(t: Tree, h: Hasher)
    requires WellFormed(t) && t.Size() < TWO_32
    ensures Whole(Emit(EmptySnapshot, t, h), t, h)
  {
    HeightAtMost45(t);
    EmitAppends(EmptySnapshot, t, h);
    hide Emit, LeafRecords, BranchRecords;
    assert [] + LeafRecords(t, h) == LeafRecords(t, h) && [] + BranchRecords(t, 0, 0, h) == BranchRecords(t, 0, 0, h);
  }
}
