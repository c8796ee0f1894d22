/** The snapshot writer: it walks a tree on the heap, computes hashes on the way, and
    appends to the three files. */
module SnapshotWriters {
  import opened Bytes
  import opened Iavl
  import opened Hashing
  import opened Snapshots
  import opened SnapshotFiles
  import opened MemTree
  import opened MemHash

  class SnapshotWriter {
    var nodes: Bytes
    var leaves: Bytes
    var kvs: Bytes
    var branchCounter: nat
    var leafCounter: nat
    // Of the offset only the low 64 bits reach the leaves file.
    var kvsOffset: nat
    ghost var written: Snapshot

    /** The files hold exactly the records written so far. */
    ghost predicate Valid()
      reads this
    {
      && nodes == NodesFile(written.nodes) && leaves == LeavesFile(written.leaves) && kvs == KvsFile(written.leaves)
      && branchCounter == U32(|written.nodes|) && leafCounter == U32(|written.leaves|) && kvsOffset == |kvs|
    }

    constructor ()
      ensures Valid() && written == EmptySnapshot
    {
      nodes, leaves, kvs := [], [], [];
      branchCounter, leafCounter, kvsOffset := 0, 0, 0;
      written := EmptySnapshot;
    }

    method WriteKeyValue(key: Bytes, value: Bytes)
      modifies this`kvs, this`kvsOffset
      ensures kvs == old(kvs) + EncodeKeyValue(Entry(key, value, 0))
      ensures kvsOffset == old(kvsOffset) + |EncodeKeyValue(Entry(key, value, 0))|
    {
      hide PutLE;
      Appended(kvs, PutLE(|key|, 4), key, PutLE(|value|, 4), value);
      kvs := kvs + PutLE(|key|, 4);
      kvs := kvs + key;
      kvs := kvs + PutLE(|value|, 4);
      kvs := kvs + value;
      kvsOffset := kvsOffset + 4 + 4 + |key| + |value|;
    }

    method WriteLeaf(e: Entry, hash: Hash)
      requires Valid()
      modifies this
      ensures Valid() && written == EmitLeaf(old(written), e, hash)
    {
      hide EncodeLeaf, U32, EncodeKeyValue, NodesFile, LeavesFile, KvsFile;
      FilesOfLeaf(written.leaves, LeafRecord(e, hash));
      CountUp(|written.leaves|);
      var buf := EncodeLeaf(LeafFields(e.version, |e.key|, kvsOffset, hash));
      WriteKeyValue(e.key, e.value);
      leaves := leaves + buf;
      leafCounter := U32(leafCounter + 1);
      written := EmitLeaf(written, e, hash);
    }

    method WriteBranch(r: BranchRecord)
      requires Valid()
      modifies this
      ensures Valid() && written == EmitBranch(old(written), r)
    {
      hide EncodeBranch, U32, NodesFile, LeavesFile, KvsFile;
      FilesOfBranch(written.nodes, r);
      CountUp(|written.nodes|);
      nodes := nodes + EncodeBranch(r);
      branchCounter := U32(branchCounter + 1);
      written := EmitBranch(written, r);
    }

    /** Depth-first post-order. */
    method WriteRecursive(n: Node, h: Hasher, ghost a: Layout)
      requires Valid() && n == Root(a) && Good(a, h)
      modifies this, Refs(a)`hash
      ensures Valid() && written == Emit(old(written), Abs(a), h)
      ensures Good(a, h)
      decreases Abs(a)
    {
      hide Good, Refs, Inspect, LeftOf, RightOf, View, U8, U32, NodesFile, LeavesFile, KvsFile;
      Seen(a, h);
      var i := Inspect(n);
      if i.isLeaf {
        var x := HashNode(n, h, a);
        WriteLeaf(Entry(i.key, i.value, i.version), x);
      } else {
        WriteSubtrees(n, i, h, a);
      }
    }

    method WriteSubtrees(n: Node, i: Info, h: Hasher, ghost a: Layout)
      requires Valid() && n == Root(a) && Good(a, h) && Abs(a).Branch? && (a.OnDisk? ==> View(a.p).BranchView?)
      requires i == InfoOf(a)
      modifies this, Refs(a)`hash
      ensures Valid() && written == Emit(old(written), Abs(a), h)
      ensures Good(a, h)
      decreases Abs(a), 0
    {
      hide Good, Shape, RootHolds, MemoRoot, Refs, Abs, LeftOf, RightOf, U8, U32, NodesFile, LeavesFile, KvsFile;
      ghost var l, r := WriterParts(a, h);
      var preTrees := U8(leafCounter - branchCounter);
      WriteRecursive(i.left, h, l);
      var keyLeaf := leafCounter;
      WriteRecursive(i.right, h, r);
      StillGood(a, h);
      var x := HashNode(n, h, a);
      WriteBranch(BranchRecord(BranchInfo(i.height, preTrees, i.version, U32(i.size), keyLeaf), x));
    }
  }

  lemma {:induction false} WriterParts(a: Layout, h: Hasher) returns (l: Layout, r: Layout)
    requires Good(a, h) && Abs(a).Branch?
    ensures RootHolds(a, h) && MemoRoot(a, h) && Shape(a, h)
    ensures a.OnDisk? ==> View(a.p).BranchView?
    ensures l == LeftOf(a) && r == RightOf(a) && Abs(l) == Abs(a).left && Abs(r) == Abs(a).right
    ensures Good(l, h) && Good(r, h)
    ensures Refs(l) !! Refs(r) && Refs(l) + Refs(r) <= Refs(a)
    ensures !a.OnDisk? ==> a.ref !in Refs(l) && a.ref !in Refs(r)
    ensures forall r :: r in Refs(a) ==> allocated(r)
  {
    l, r := BranchParts(a, 0, h);
  }

  lemma Appended(s: Bytes, a: Bytes, b: Bytes, c: Bytes, d: Bytes)
    ensures (((s + a) + b) + c) + d == s + (a + b + c + d)
  {
  }

  lemma CountUp(n: nat)
    ensures U32(U32(n) + 1) == U32(n + 1)
  {
  }

  lemma FilesOfLeaf(rs: seq<LeafRecord>, r: LeafRecord)
    ensures KvsFile(rs + [r]) == KvsFile(rs) + EncodeKeyValue(Entry(r.entry.key, r.entry.value, 0))
    ensures LeavesFile(rs + [r])
         == LeavesFile(rs) + EncodeLeaf(LeafFields(r.entry.version, |r.entry.key|, |KvsFile(rs)|, r.hash))
  {
    hide EncodeLeaf;
    assert (rs + [r])[..|rs|] == rs;
  }

  lemma FilesOfBranch(rs: seq<BranchRecord>, r: BranchRecord)
    ensures NodesFile(rs + [r]) == NodesFile(rs) + EncodeBranch(r)
  {
    hide EncodeBranch;
    assert (rs + [r])[..|rs|] == rs;
  }

  lemma OpenEmpty()
    ensures Open(NodesFile([]), LeavesFile([]), KvsFile([])) == Opened(EmptySnapshot)
  {
  }

  /** Writing any tree on the heap, wherever its nodes are, leaves files that open as the
      same tree, node for node. */
  method WriteSnapshot(root: Node, h: Hasher, ghost a: Option<Layout>) returns (nodes: Bytes, leaves: Bytes, kvs: Bytes)
    requires root == RootOf(a) && (a.Some? ==> Good(a.value, h))
    requires a.Some? ==> WellFormed(Abs(a.value)) && Abs(a.value).Size() < TWO_32 && FieldsFit(Abs(a.value))
    requires a.Some? ==> |KvsFile(LeafRecords(Abs(a.value), h))| < TWO_64
    modifies (if a.Some? then Refs(a.value) else {})`hash
    ensures a.Some? ==> Good(a.value, h)
    ensures Open(nodes, leaves, kvs).Opened?
    ensures var s := Open(nodes, leaves, kvs).snapshot;
      if a.None? then RootNode(s).None? else RootNode(s).Some? && Stores(RootNode(s).value, Abs(a.value), 0, h)
  {
    hide Good, Refs, Stores, WellFormed, FieldsFit, Emit, Abs, Open, NodesFile, LeavesFile, KvsFile, LeafRecords, U32;
    if a.Some? { RefsAllocated(a.value); }
    var w := new SnapshotWriter();
    if root == Nil {
      OpenEmpty();
    } else {
      FilesRoundTrip(Abs(a.value), h);
      w.WriteRecursive(root, h, a.value);
    }
    return w.nodes, w.leaves, w.kvs;
  }
}
