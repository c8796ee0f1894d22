/** Memoised hashes, and what sharing nodes between trees means for them. */
module MemHash {
  import opened Bytes
  import opened Hashing
  import opened Snapshots
  import opened SnapshotProps
  import opened MemTree

  /** What a node in memory is does not depend on the tree it is seen from. */
  lemma {:induction false} SameNodeSameTree(a: Layout, b: Layout, h: Hasher)
    requires Shape(a, h) && Holds(a) && Shape(b, h) && Holds(b) && Root(a) == Root(b)
    ensures Abs(a) == Abs(b)
    decreases a
  {
    if a.OnDisk? {
      hide Stores;
      StoredTreeIsUnique(a.p, a.t, b.t, a.start, b.start, h);
    } else {
      assert CellOf(a) == CellOf(b);
      if a.BranchAt? {
        SameNodeSameTree(a.left, b.left, h);
        SameNodeSameTree(a.right, b.right, h);
      }
    }
  }

  /** The subtree at one of the memory nodes of a tree. */
  lemma {:induction false} SubtreeAt(a: Layout, r: MemNode, h: Hasher) returns (s: Layout)
    requires Good(a, h) && r in Refs(a)
    ensures Good(s, h) && !s.OnDisk? && s.ref == r
    decreases a
  {
    if a.ref == r {
      s := a;
    } else if r in Refs(a.left) {
      s := SubtreeAt(a.left, r, h);
    } else {
      s := SubtreeAt(a.right, r, h);
    }
  }

  /** The memoised hashes of a tree at some point in time, as a value. */
  ghost predicate MemoIn(a: Layout, memo: map<MemNode, Option<Hash>>, h: Hasher) {
    && (!a.OnDisk? ==> a.ref in memo && (memo[a.ref].Some? ==> memo[a.ref].value == HashOf(Abs(a), h)))
    && (a.BranchAt? ==> MemoIn(a.left, memo, h) && MemoIn(a.right, memo, h))
  }

  lemma {:induction false} MemoNow(a: Layout, memo: map<MemNode, Option<Hash>>, h: Hasher)
    requires Memo(a, h) && forall r :: r in Refs(a) ==> r in memo && memo[r] == r.hash
    ensures MemoIn(a, memo, h)
  {
    if a.BranchAt? {
      MemoNow(a.left, memo, h);
      MemoNow(a.right, memo, h);
    }
  }

  /** A tree that shares nodes with a good tree `a`, and whose other nodes still have the
      hashes `memo` they had, has no stale hash: a node of both trees has one hash. */
  lemma {:induction false} MemoShared(b: Layout, a: Layout, memo: map<MemNode, Option<Hash>>, h: Hasher)
    requires Shape(b, h) && Holds(b) && Good(a, h) && MemoIn(b, memo, h)
    requires forall r :: r in Refs(b) && r !in Refs(a) ==> r in memo && r.hash == memo[r]
    ensures Memo(b, h)
    decreases b
  {
    if !b.OnDisk? {
      if b.ref in Refs(a) {
        var s := SubtreeAt(a, b.ref, h);
        SameNodeSameTree(b, s, h);
      }
      if b.BranchAt? {
        MemoShared(b.left, a, memo, h);
        MemoShared(b.right, a, memo, h);
      }
    }
  }

  /** The hash of a node; computed once and kept in the node. */
  method HashNode(n: Node, h: Hasher, ghost a: Layout) returns (x: Hash)
    requires n == Root(a) && Good(a, h)
    modifies Refs(a)`hash
    ensures x == HashOf(Abs(a), h)
    ensures Good(a, h)
    decreases Abs(a)
  {
    GoodRoot(a, h);
    RefsAllocated(a);
    match n
    case Disk(p) =>
      StoredView(a.p, a.t, a.start, h);
      x := StoredHash(p);
    case Mem(m) =>
      if m.hash.Some? {
        x := m.hash.value;
      } else if m.height == 0 {
        x := h.leaf(m.key, m.value, m.version);
        m.hash := Some(x);
      } else {
        x := HashBranch(m, h, a);
      }
  }

  method HashBranch(m: MemNode, h: Hasher, ghost a: Layout) returns (x: Hash)
    requires Mem(m) == Root(a) && Good(a, h) && Abs(a).Branch?
    modifies Refs(a)`hash
    ensures x == HashOf(Abs(a), h)
    ensures Good(a, h)
    decreases Abs(a), 0
  {
    hide Good, Shape, RootHolds, Refs, Abs, CellOf, View, LeftOf, RightOf, Owned, OwnedRoot;
    ghost var l, r := BranchParts(a, 0, h);
    GoodShape(a, h);
    CellParts(a, m, l, r, h);
    var left := HashNode(m.left, h, l);
    var right := HashNode(m.right, h, r);
    x := h.branch(m.height, m.size, m.version, left, right);
    m.hash := Some(x);
    RootStill(a, h);
    StillGood(a, h);
  }

  lemma RootStill(a: Layout, h: Hasher)
    requires Shape(a, h) && !a.OnDisk? && a.ref.Fields() == CellOf(a)
    ensures RootHolds(a, h)
  {
  }

  lemma CellParts(a: Layout, m: MemNode, l: Layout, r: Layout, h: Hasher)
    requires Mem(m) == Root(a) && Good(a, h) && Abs(a).Branch? && l == LeftOf(a) && r == RightOf(a)
    ensures m.Fields() == Cell(Abs(a).height, Abs(a).size, Abs(a).version, Abs(a).key, [], Root(l), Root(r))
      == CellOf(a)
  {
  }
}
