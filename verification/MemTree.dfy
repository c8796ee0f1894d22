/** Tree nodes on the heap. A node is either in memory, where it is changed in place
    or cloned first, or persisted, where it is read-only. */
module MemTree {
  import opened Bytes
  import opened Iavl
  import opened Hashing
  import opened Snapshots
  import opened SnapshotProps

  datatype Node = Nil | Mem(node: MemNode) | Disk(pnode: PersistedNode)

  /** The contents of a node in memory, its memoised hash excepted. */
  datatype Cell = Cell(height: nat, size: nat, version: nat, key: Bytes, value: Bytes, left: Node, right: Node)

  /** A node up to its height and size. */
  datatype Links = Links(version: nat, key: Bytes, value: Bytes, left: Node, right: Node)

  class MemNode {
    var height: nat
    var size: nat
    var version: nat
    var key: Bytes
    var value: Bytes
    var left: Node
    var right: Node
    var hash: Option<Hash>

    ghost function Fields(): Cell
      reads this
    {
      Cell(height, size, version, key, value, left, right)
    }

    ghost function GetLinks(): Links
      reads this
    {
      Links(version, key, value, left, right)
    }

    constructor (c: Cell)
      ensures Fields() == c && hash == None
    {
      height, size, version, key, value, left, right := c.height, c.size, c.version, c.key, c.value, c.left, c.right;
      hash := None;
    }
  }

  // ------------------------------------------------- where a tree resides

  /** A tree together with the place of each of its nodes. */
  datatype Layout =
    | OnDisk(p: PersistedNode, start: nat, t: Tree)
    | LeafAt(ref: MemNode, key: Bytes, value: Bytes, version: nat)
    | BranchAt(ref: MemNode, key: Bytes, height: nat, size: nat, version: nat, left: Layout, right: Layout)

  ghost function Abs(a: Layout): Tree {
    match a
    case OnDisk(_, _, t) => t
    case LeafAt(_, k, v, ver) => Leaf(k, v, ver)
    case BranchAt(_, k, h, s, ver, l, r) => Branch(k, h, s, ver, Abs(l), Abs(r))
  }

  ghost function Root(a: Layout): Node {
    if a.OnDisk? then Disk(a.p) else Mem(a.ref)
  }

  /** The memory nodes of a tree. */
  ghost function Refs(a: Layout): set<MemNode> {
    match a
    case OnDisk(_, _, _) => {}
    case LeafAt(ref, _, _, _) => {ref}
    case BranchAt(ref, _, _, _, _, l, r) => {ref} + Refs(l) + Refs(r)
  }

  /** Those of them that a tree with this copy-on-write version changes in place. */
  ghost function Owned(a: Layout, cow: nat): (s: set<MemNode>)
    ensures s <= Refs(a)
  {
    match a
    case OnDisk(_, _, _) => {}
    case LeafAt(ref, _, _, ver) => if ver > cow then {ref} else {}
    case BranchAt(ref, _, _, _, ver, l, r) => (if ver > cow then {ref} else {}) + Owned(l, cow) + Owned(r, cow)
  }

  ghost function CellOf(a: Layout): Cell
    requires !a.OnDisk?
  {
    match a
    case LeafAt(_, k, v, ver) => Cell(0, 1, ver, k, v, Nil, Nil)
    case BranchAt(_, k, h, s, ver, l, r) => Cell(h, s, ver, k, [], Root(l), Root(r))
  }

  /** No memory node occurs twice. */
  ghost predicate Distinct(a: Layout) {
    a.BranchAt? ==>
      && Distinct(a.left) && Distinct(a.right)
      && Refs(a.left) !! Refs(a.right)
      && a.ref !in Refs(a.left) && a.ref !in Refs(a.right)
  }

  lemma {:induction false} RefsAllocated(a: Layout)
    ensures forall r :: r in Refs(a) ==> allocated(r)
  {
    if a.BranchAt? {
      RefsAllocated(a.left);
      RefsAllocated(a.right);
    }
  }

  /** The heap is as the layout says. */
  ghost predicate Holds(a: Layout)
    reads Refs(a)
  {
    && (!a.OnDisk? ==> a.ref.Fields() == CellOf(a))
    && (a.BranchAt? ==> Holds(a.left) && Holds(a.right))
  }

  /** No memoised hash is stale. */
  ghost predicate Memo(a: Layout, h: Hasher)
    reads Refs(a)
  {
    && (!a.OnDisk? && a.ref.hash.Some? ==> a.ref.hash.value == HashOf(Abs(a), h))
    && (a.BranchAt? ==> Memo(a.left, h) && Memo(a.right, h))
  }

  /** The persisted parts are what their snapshots store. */
  ghost predicate Backed(a: Layout, h: Hasher) {
    match a
    case OnDisk(p, start, t) => Exact(t) && Ordered(t) && Stores(p, t, start, h)
    case LeafAt(_, _, _, _) => true
    case BranchAt(_, _, _, _, _, l, r) => Backed(l, h) && Backed(r, h)
  }

  ghost predicate Shape(a: Layout, h: Hasher) {
    Exact(Abs(a)) && Distinct(a) && Backed(a, h)
  }

  ghost predicate Good(a: Layout, h: Hasher)
    reads Refs(a)
  {
    Shape(a, h) && Holds(a) && Memo(a, h)
  }

  /** A branch whose own height and size may be out of date, its hash being unset, over
      two good subtrees. */
  ghost predicate Loose(a: Layout, h: Hasher)
    reads Refs(a)
  {
    && a.BranchAt? && a.ref.Fields() == CellOf(a) && a.ref.hash == None
    && Good(a.left, h) && Good(a.right, h)
    && Refs(a.left) !! Refs(a.right) && a.ref !in Refs(a.left) && a.ref !in Refs(a.right)
  }

  // ------------------------------------------------------ node interface

  ghost function LeftOf(a: Layout): Layout
    requires Abs(a).Branch?
    requires a.OnDisk? ==> View(a.p).BranchView?
  {
    if a.OnDisk? then OnDisk(Left(a.p), a.start, a.t.left) else a.left
  }

  ghost function RightOf(a: Layout): Layout
    requires Abs(a).Branch?
    requires a.OnDisk? ==> View(a.p).BranchView?
  {
    if a.OnDisk? then OnDisk(Right(a.p), a.start + a.t.left.Size(), a.t.right) else a.right
  }

  /** What the accessors of a node return. */
  datatype Info = Info(isLeaf: bool, height: nat, size: nat, version: nat, key: Bytes, value: Bytes, left: Node,
                       right: Node)

  ghost function InfoOf(a: Layout): Info
    requires Abs(a).Branch? && a.OnDisk? ==> View(a.p).BranchView?
  {
    match Abs(a)
    case Leaf(k, v, ver) => Info(true, 0, 1, ver, k, v, Nil, Nil)
    case Branch(k, h, s, ver, _, _) => Info(false, h, s, ver, k, [], Root(LeftOf(a)), Root(RightOf(a)))
  }

  function Inspect(n: Node): Info
    requires n != Nil && (n.Disk? ==> View(n.pnode) != Missing)
    reads if n.Mem? then {n.node} else {}
  {
    match n
    case Mem(m) => Info(m.height == 0, m.height, m.size, m.version, m.key, m.value, m.left, m.right)
    case Disk(p) =>
      match View(p)
      case LeafView(e) => Info(true, 0, 1, e.version, e.key, e.value, Nil, Nil)
      case BranchView(i, key) => Info(false, i.height, i.size, i.version, key, [], Disk(Left(p)), Disk(Right(p)))
  }

  /** The root node is as the layout says. */
  ghost predicate RootHolds(a: Layout, h: Hasher)
    reads if a.OnDisk? then {} else {a.ref}
  {
    Exact(Abs(a)) && Backed(a, h) && (!a.OnDisk? ==> a.ref.Fields() == CellOf(a))
  }

  /** The accessors do not depend on where the node is. */
  lemma {:induction false} InspectAgrees(a: Layout, h: Hasher)
    requires RootHolds(a, h)
    ensures a.OnDisk? ==> View(a.p) != Missing
    ensures Abs(a).Branch? && a.OnDisk? ==> View(a.p).BranchView?
    ensures Inspect(Root(a)) == InfoOf(a)
  {
    if a.OnDisk? {
      StoredView(a.p, a.t, a.start, h);
    }
  }

  /** The children of a tree are trees, apart from each other and from its root. */
  lemma {:induction false} ChildShapes(a: Layout, h: Hasher)
    requires Shape(a, h) && Abs(a).Branch?
    ensures a.OnDisk? ==> View(a.p).BranchView?
    ensures Shape(LeftOf(a), h) && Abs(LeftOf(a)) == Abs(a).left
    ensures Shape(RightOf(a), h) && Abs(RightOf(a)) == Abs(a).right
    ensures Refs(LeftOf(a)) !! Refs(RightOf(a))
    ensures Refs(a) == (if a.OnDisk? then {} else {a.ref}) + Refs(LeftOf(a)) + Refs(RightOf(a))
    ensures !a.OnDisk? ==> a.ref !in Refs(LeftOf(a)) && a.ref !in Refs(RightOf(a))
  {
    hide Stores;
    if a.OnDisk? {
      hide View, Left, Right;
      ChildrenFound(a.p, a.t, a.start, h);
    }
  }

  lemma {:induction false} ChildrenGood(a: Layout, h: Hasher)
    requires Good(a, h) && Abs(a).Branch?
    ensures a.OnDisk? ==> View(a.p).BranchView?
    ensures Good(LeftOf(a), h) && Good(RightOf(a), h)
    ensures RootHolds(a, h)
  {
    ChildShapes(a, h);
  }

  // -------------------------------------------------------------- mutation

  /** The memory node at the root, if it may be changed in place. */
  ghost function OwnedRoot(a: Layout, cow: nat): set<MemNode> {
    if !a.OnDisk? && a.version > cow then {a.ref} else {}
  }

  ghost function Stamped(i: Info, version: nat): Cell {
    Cell(i.height, i.size, version, i.key, i.value, i.left, i.right)
  }

  /** Persisted nodes are always cloned, memory nodes only if they may be shared. */
  method Mutate(n: Node, version: nat, cow: nat, ghost a: Layout, ghost h: Hasher) returns (m: MemNode)
    requires n == Root(a) && RootHolds(a, h)
    modifies OwnedRoot(a, cow)
    ensures Abs(a).Branch? && a.OnDisk? ==> View(a.p).BranchView?
    ensures m.Fields() == Stamped(InfoOf(a), version) && m.hash == None
    ensures if OwnedRoot(a, cow) == {} then fresh(m) else m == a.ref
  {
    match n
    case Mem(node) =>
      if node.version <= cow {
        m := new MemNode(Cell(node.height, node.size, version, node.key, node.value, node.left, node.right));
      } else {
        m := node;
        m.version := version;
        m.hash := None;
      }
    case Disk(p) =>
      InspectAgrees(a, h);
      var i := Inspect(n);
      m := new MemNode(Cell(i.height, i.size, version, i.key, i.value, i.left, i.right));
  }

  /** A branch at `m` over two subtrees. */
  ghost function JoinAt(m: MemNode, key: Bytes, version: nat, l: Layout, r: Layout): (b: Layout)
    ensures Abs(b) == Join(key, version, Abs(l), Abs(r)) && Root(b) == Mem(m)
  {
    BranchAt(m, key, Max(Abs(l).Height(), Abs(r).Height()) + 1, Abs(l).Size() + Abs(r).Size(), version, l, r)
  }

  lemma GoodRoot(a: Layout, h: Hasher)
    requires Good(a, h)
    ensures RootHolds(a, h)
  {
  }

  /** The accessors of the root of a good tree. */
  lemma {:induction false} Seen(a: Layout, h: Hasher)
    requires Good(a, h)
    ensures a.OnDisk? ==> View(a.p) != Missing
    ensures Abs(a).Branch? && a.OnDisk? ==> View(a.p).BranchView?
    ensures Inspect(Root(a)) == InfoOf(a)
    ensures forall r :: r in Refs(a) ==> allocated(r)
  {
    GoodRoot(a, h);
    InspectAgrees(a, h);
    RefsAllocated(a);
  }

  /** A branch is good when its cell is right, its hash is unset, and its subtrees are good. */
  lemma {:induction false} JoinGood(m: MemNode, key: Bytes, version: nat, l: Layout, r: Layout, h: Hasher)
    requires Good(l, h) && Good(r, h)
    requires Refs(l) !! Refs(r) && m !in Refs(l) && m !in Refs(r)
    requires m.Fields() == CellOf(JoinAt(m, key, version, l, r)) && m.hash == None
    ensures Good(JoinAt(m, key, version, l, r), h)
    ensures Refs(JoinAt(m, key, version, l, r)) == {m} + Refs(l) + Refs(r)
  {
  }

  /** The height and size that a node reports. */
  lemma {:induction false} Measures(a: Layout, h: Hasher)
    requires Good(a, h)
    ensures a.OnDisk? ==> View(a.p) != Missing
    ensures Inspect(Root(a)).height == Abs(a).Height() && Inspect(Root(a)).size == Abs(a).Size()
  {
    GoodRoot(a, h);
    InspectAgrees(a, h);
  }

  /** The height and size of a branch over two subtrees. */
  method Combined(left: Node, right: Node, ghost l: Layout, ghost r: Layout, ghost h: Hasher)
    returns (height: nat, size: nat)
    requires left == Root(l) && right == Root(r) && Good(l, h) && Good(r, h)
    ensures height == Max(Abs(l).Height(), Abs(r).Height()) + 1 && size == Abs(l).Size() + Abs(r).Size()
  {
    Measures(l, h);
    Measures(r, h);
    hide Good, Abs, View;
    var x, y := Inspect(left), Inspect(right);
    height, size := Max(x.height, y.height) + 1, x.size + y.size;
  }

  /** Recomputes the height and size of a branch from its children. */
  method UpdateHeightSize(m: MemNode, ghost key: Bytes, ghost version: nat, ghost l: Layout, ghost r: Layout,
                          ghost h: Hasher)
    requires m.GetLinks() == Links(version, key, [], Root(l), Root(r)) && m.hash == None
    requires Good(l, h) && Good(r, h)
    requires Refs(l) !! Refs(r) && m !in Refs(l) && m !in Refs(r)
    modifies m`height, m`size
    ensures Good(JoinAt(m, key, version, l, r), h)
    ensures Refs(JoinAt(m, key, version, l, r)) == {m} + Refs(l) + Refs(r)
  {
    RefsAllocated(l);
    RefsAllocated(r);
    hide Good, Abs, Refs;
    var height, size := Combined(m.left, m.right, l, r, h);
    m.height, m.size := height, size;
    JoinGood(m, key, version, l, r, h);
  }

  // -------------------------------------------------------------- rotation

  /** Makes `node` the right child of `r`, in place of the subtree `y`, which becomes the
      left child of `node`. */
  method HangRight(node: MemNode, r: MemNode, ghost x: Layout, ghost y: Layout, ghost z: Layout, ghost h: Hasher)
    requires node.value == [] && node.right == Root(z) && node.hash == None
    requires r.value == [] && r.left == Root(x) && r.right == Root(y) && r.hash == None
    requires Good(x, h) && Good(y, h) && Good(z, h)
    requires Refs(x) !! Refs(y) !! Refs(z)
    requires node != r && {node, r} !! Refs(x) + Refs(y) + Refs(z)
    modifies node, r
    ensures Good(JoinAt(r, old(r.key), old(r.version), x, JoinAt(node, old(node.key), old(node.version), y, z)), h)
    ensures r.hash == None
  {
    RefsAllocated(x);
    RefsAllocated(y);
    RefsAllocated(z);
    hide Good, Refs, JoinAt;
    node.left := r.right;
    r.right := Mem(node);
    UpdateHeightSize(node, node.key, node.version, y, z, h);
    UpdateHeightSize(r, r.key, r.version, x, JoinAt(node, node.key, node.version, y, z), h);
  }

  method HangLeft(node: MemNode, r: MemNode, ghost x: Layout, ghost y: Layout, ghost z: Layout, ghost h: Hasher)
    requires node.value == [] && node.left == Root(x) && node.hash == None
    requires r.value == [] && r.left == Root(y) && r.right == Root(z) && r.hash == None
    requires Good(x, h) && Good(y, h) && Good(z, h)
    requires Refs(x) !! Refs(y) !! Refs(z)
    requires node != r && {node, r} !! Refs(x) + Refs(y) + Refs(z)
    modifies node, r
    ensures Good(JoinAt(r, old(r.key), old(r.version), JoinAt(node, old(node.key), old(node.version), x, y), z), h)
    ensures r.hash == None
  {
    RefsAllocated(x);
    RefsAllocated(y);
    RefsAllocated(z);
    hide Good, Refs, JoinAt;
    node.right := r.left;
    r.left := Mem(node);
    UpdateHeightSize(node, node.key, node.version, x, y, h);
    UpdateHeightSize(r, r.key, r.version, JoinAt(node, node.key, node.version, x, y), z, h);
  }

  method RotateRight(node: MemNode, version: nat, cow: nat, ghost a: Layout, ghost h: Hasher)
    returns (r: MemNode, ghost b: Layout)
    requires a.BranchAt? && Loose(a, h) && a.ref == node && Abs(a.left).Branch?
    modifies {node} + OwnedRoot(a.left, cow)
    ensures Root(b) == Mem(r) && r.hash == None && Good(b, h)
    ensures Abs(b) == Iavl.RotateRight(Abs(a), version)
    ensures forall x :: x in Refs(b) ==> x in Refs(a) || fresh(x)
    ensures forall x :: x in Owned(b, cow) ==> x in Owned(a, cow) || fresh(x)
  {
    hide Good, Loose, Shape, RootHolds, Refs, Owned, Abs, JoinAt, View, LeftOf, RightOf, Iavl.RotateRight;
    ghost var top, right := a.left, a.right;
    ghost var ll, lr := RotationParts(a, top, cow, h);
    BranchCell(top, version);
    r := Mutate(node.left, version, cow, top, h);
    HangRight(node, r, ll, lr, right, h);
    b := JoinAt(r, Abs(top).key, version, ll, JoinAt(node, a.key, a.version, lr, right));
    RotatedRight(a, r, version, cow, h);
  }

  method RotateLeft(node: MemNode, version: nat, cow: nat, ghost a: Layout, ghost h: Hasher)
    returns (r: MemNode, ghost b: Layout)
    requires a.BranchAt? && Loose(a, h) && a.ref == node && Abs(a.right).Branch?
    modifies {node} + OwnedRoot(a.right, cow)
    ensures Root(b) == Mem(r) && r.hash == None && Good(b, h)
    ensures Abs(b) == Iavl.RotateLeft(Abs(a), version)
    ensures forall x :: x in Refs(b) ==> x in Refs(a) || fresh(x)
    ensures forall x :: x in Owned(b, cow) ==> x in Owned(a, cow) || fresh(x)
  {
    hide Good, Loose, Shape, RootHolds, Refs, Owned, Abs, JoinAt, View, LeftOf, RightOf, Iavl.RotateLeft;
    ghost var left, top := a.left, a.right;
    ghost var rl, rr := RotationParts(a, top, cow, h);
    BranchCell(top, version);
    r := Mutate(node.right, version, cow, top, h);
    HangLeft(node, r, left, rl, rr, h);
    b := JoinAt(r, Abs(top).key, version, JoinAt(node, a.key, a.version, left, rl), rr);
    RotatedLeft(a, r, version, cow, h);
  }

  lemma {:induction false} RotatedRight(a: Layout, r: MemNode, version: nat, cow: nat, h: Hasher)
    requires a.BranchAt? && Shape(a.left, h) && Abs(a.left).Branch?
    ensures a.left.OnDisk? ==> View(a.left.p).BranchView?
    ensures var low := JoinAt(a.ref, a.key, a.version, RightOf(a.left), a.right);
      var b := JoinAt(r, Abs(a.left).key, version, LeftOf(a.left), low);
      && Abs(b) == Iavl.RotateRight(Abs(a), version)
      && Refs(b) <= Refs(a) + {r}
      && Owned(b, cow) <= Owned(a, cow) + {r}
  {
    ChildShapes(a.left, h);
  }

  lemma {:induction false} RotatedLeft(a: Layout, r: MemNode, version: nat, cow: nat, h: Hasher)
    requires a.BranchAt? && Shape(a.right, h) && Abs(a.right).Branch?
    ensures a.right.OnDisk? ==> View(a.right.p).BranchView?
    ensures var low := JoinAt(a.ref, a.key, a.version, a.left, LeftOf(a.right));
      var b := JoinAt(r, Abs(a.right).key, version, low, RightOf(a.right));
      && Abs(b) == Iavl.RotateLeft(Abs(a), version)
      && Refs(b) <= Refs(a) + {r}
      && Owned(b, cow) <= Owned(a, cow) + {r}
  {
    ChildShapes(a.right, h);
  }

  /** The pieces of a branch one of whose children is about to be rotated up. */
  lemma {:induction false} RotationParts(a: Layout, top: Layout, cow: nat, h: Hasher) returns (l: Layout, r: Layout)
    requires Loose(a, h) && (top == a.left || top == a.right) && Abs(top).Branch?
    ensures RootHolds(top, h) && Shape(top, h) && a.ref.Fields() == CellOf(a) && a.ref.hash == None
    ensures top.OnDisk? ==> View(top.p).BranchView?
    ensures l == LeftOf(top) && r == RightOf(top)
    ensures Good(l, h) && Good(r, h) && Good(a.left, h) && Good(a.right, h)
    ensures Refs(l) !! Refs(r) && Refs(l) + Refs(r) <= Refs(top)
    ensures OwnedRoot(top, cow) <= Refs(top) && OwnedRoot(top, cow) !! Refs(l) && OwnedRoot(top, cow) !! Refs(r)
    ensures Refs(a) == {a.ref} + Refs(a.left) + Refs(a.right) && forall r :: r in Refs(a) ==> allocated(r)
    ensures a.ref !in Refs(a.left) && a.ref !in Refs(a.right) && Refs(a.left) !! Refs(a.right)
    ensures OwnedRoot(top, cow) <= Owned(a, cow)
  {
    hide Good, Shape, RootHolds, View, Distinct, Backed, Exact;
    RefsAllocated(a);
    GoodShape(top, h);
    ChildShapes(top, h);
    ChildrenGood(top, h);
    l, r := LeftOf(top), RightOf(top);
  }

  /** Mutates a branch of a good tree. */
  method MutateBranch(n: Node, version: nat, cow: nat, ghost a: Layout, ghost h: Hasher)
    returns (m: MemNode, ghost b: Layout)
    requires n == Root(a) && Good(a, h) && Abs(a).Branch?
    modifies OwnedRoot(a, cow)
    ensures b.BranchAt? && b.ref == m && Loose(b, h) && Abs(b) == Abs(a).Stamp(version)
    ensures m in OwnedRoot(a, cow) || fresh(m)
    ensures forall x :: x in Refs(b) ==> x in Refs(a) || fresh(x)
    ensures forall x :: x in Owned(b, cow) ==> x in Owned(a, cow) || fresh(x)
  {
    ghost var l, r := BranchParts(a, cow, h);
    hide Good, Shape, RootHolds, Refs, Owned, Abs;
    m := Mutate(n, version, cow, a, h);
    b := BranchAt(m, Abs(a).key, Abs(a).height, Abs(a).size, version, l, r);
    BranchAtFacts(a, m, version, l, r, cow);
  }

  lemma {:induction false} BranchParts(a: Layout, cow: nat, h: Hasher) returns (l: Layout, r: Layout)
    requires Good(a, h) && Abs(a).Branch?
    ensures RootHolds(a, h)
    ensures a.OnDisk? ==> View(a.p).BranchView?
    ensures l == LeftOf(a) && r == RightOf(a) && Abs(l) == Abs(a).left && Abs(r) == Abs(a).right
    ensures Good(l, h) && Good(r, h)
    ensures Refs(l) !! Refs(r) && Refs(l) + Refs(r) <= Refs(a)
    ensures OwnedRoot(a, cow) !! Refs(l) && OwnedRoot(a, cow) !! Refs(r)
      && OwnedRoot(a, cow) <= Owned(a, cow) <= Refs(a)
    ensures Owned(l, cow) + Owned(r, cow) <= Owned(a, cow)
    ensures !a.OnDisk? ==> a.ref in Refs(a) && a.ref !in Refs(l) && a.ref !in Refs(r)
    ensures forall r :: r in Refs(a) ==> allocated(r)
  {
    RefsAllocated(a);
    ChildShapes(a, h);
    ChildrenGood(a, h);
    l, r := LeftOf(a), RightOf(a);
  }

  lemma {:induction false} BranchAtFacts(a: Layout, m: MemNode, version: nat, l: Layout, r: Layout, cow: nat)
    requires Abs(a).Branch?
    ensures var b := BranchAt(m, Abs(a).key, Abs(a).height, Abs(a).size, version, l, r);
      && Refs(b) == {m} + Refs(l) + Refs(r)
      && Owned(b, cow) <= {m} + Owned(l, cow) + Owned(r, cow)
      && Abs(b) == Branch(Abs(a).key, Abs(a).height, Abs(a).size, version, Abs(l), Abs(r))
  {
  }

  ghost function WithChildren(a: Layout, l: Tree, r: Tree): Tree
    requires a.BranchAt?
  {
    Branch(a.key, a.height, a.size, a.version, l, r)
  }

  /** What is known of the parts of a loose branch. */
  lemma {:induction false} LooseParts(a: Layout, cow: nat, h: Hasher)
    requires Loose(a, h)
    ensures Good(a.left, h) && Good(a.right, h)
    ensures a.ref.Fields() == CellOf(a) && a.ref.hash == None
    ensures Refs(a) == {a.ref} + Refs(a.left) + Refs(a.right) && forall r :: r in Refs(a) ==> allocated(r)
    ensures a.ref !in Refs(a.left) && a.ref !in Refs(a.right) && Refs(a.left) !! Refs(a.right)
    ensures Owned(a.left, cow) + Owned(a.right, cow) <= Owned(a, cow)
    ensures OwnedRoot(a.left, cow) <= Owned(a.left, cow) && OwnedRoot(a.right, cow) <= Owned(a.right, cow)
    ensures Abs(a) == WithChildren(a, Abs(a.left), Abs(a.right))
  {
    RefsAllocated(a);
  }

  /** A branch whose children were exchanged for other good trees. */
  lemma {:induction false} Relinked(b: Layout, a: Layout, cow: nat, h: Hasher)
    requires b.BranchAt? && b.ref.Fields() == CellOf(b) && b.ref.hash == None
    requires Good(b.left, h) && Good(b.right, h)
    requires Refs(b.left) !! Refs(b.right) && b.ref !in Refs(b.left) && b.ref !in Refs(b.right)
    requires a.BranchAt? && b.ref == a.ref && b.version == a.version
    ensures Loose(b, h)
    ensures Refs(b) == {b.ref} + Refs(b.left) + Refs(b.right)
    ensures Owned(b, cow) <= {b.ref} + Owned(b.left, cow) + Owned(b.right, cow)
    ensures Owned(b, cow) <= Owned(a, cow) + Owned(b.left, cow) + Owned(b.right, cow)
    ensures OwnedRoot(b.left, cow) <= Owned(b.left, cow) && OwnedRoot(b.right, cow) <= Owned(b.right, cow)
    ensures Abs(b) == WithChildren(b, Abs(b.left), Abs(b.right))
  {
  }

  method MutateRotateLeft(n: Node, version: nat, cow: nat, ghost a: Layout, ghost h: Hasher)
    returns (r: MemNode, ghost b: Layout)
    requires n == Root(a) && Good(a, h) && Abs(a).Branch? && Abs(a).right.Branch?
    modifies Owned(a, cow)
    ensures Root(b) == Mem(r) && Good(b, h)
    ensures Abs(b) == Iavl.RotateLeft(Abs(a).Stamp(version), version)
    ensures forall x :: x in Refs(b) ==> x in Refs(a) || fresh(x)
    ensures forall x :: x in Owned(b, cow) ==> x in Owned(a, cow) || fresh(x)
  {
    hide Good, Loose, Shape, RootHolds, Refs, Abs, Iavl.RotateLeft;
    var m, c := MutateBranch(n, version, cow, a, h);
    LooseParts(c, cow, h);
    r, b := RotateLeft(m, version, cow, c, h);
  }

  method MutateRotateRight(n: Node, version: nat, cow: nat, ghost a: Layout, ghost h: Hasher)
    returns (r: MemNode, ghost b: Layout)
    requires n == Root(a) && Good(a, h) && Abs(a).Branch? && Abs(a).left.Branch?
    modifies Owned(a, cow)
    ensures Root(b) == Mem(r) && Good(b, h)
    ensures Abs(b) == Iavl.RotateRight(Abs(a).Stamp(version), version)
    ensures forall x :: x in Refs(b) ==> x in Refs(a) || fresh(x)
    ensures forall x :: x in Owned(b, cow) ==> x in Owned(a, cow) || fresh(x)
  {
    hide Good, Loose, Shape, RootHolds, Refs, Abs, Iavl.RotateRight;
    var m, c := MutateBranch(n, version, cow, a, h);
    LooseParts(c, cow, h);
    r, b := RotateRight(m, version, cow, c, h);
  }

  /** Rotates the left child of a branch to the left. */
  method LiftLeft(node: MemNode, version: nat, cow: nat, ghost a: Layout, ghost h: Hasher) returns (ghost b: Layout)
    requires a.BranchAt? && Loose(a, h) && a.ref == node
    requires Abs(a.left).Branch? && Abs(a.left).right.Branch?
    modifies {node} + Owned(a.left, cow)
    ensures b.BranchAt? && b.ref == node && Loose(b, h)
    ensures OwnedRoot(b.left, cow) <= Owned(b.left, cow)
    ensures forall x :: x in Owned(b.left, cow) ==> x in Owned(a.left, cow) || fresh(x)
    ensures Abs(b.left) == Iavl.RotateLeft(Abs(a.left).Stamp(version), version)
    ensures Abs(b) == WithChildren(a, Abs(b.left), Abs(a.right))
    ensures forall x :: x in Refs(b) ==> x in Refs(a) || fresh(x)
    ensures forall x :: x in Owned(b, cow) ==> x in Owned(a, cow) || fresh(x)
  {
    hide Good, Loose, Shape, RootHolds, Refs, Owned, Abs, OwnedRoot, Iavl.RotateLeft;
    LooseParts(a, cow, h);
    var t, c := MutateRotateLeft(node.left, version, cow, a.left, h);
    node.left := Mem(t);
    b := a.(left := c);
    Relinked(b, a, cow, h);
  }

  /** Rotates the right child of a branch to the right. */
  method LiftRight(node: MemNode, version: nat, cow: nat, ghost a: Layout, ghost h: Hasher) returns (ghost b: Layout)
    requires a.BranchAt? && Loose(a, h) && a.ref == node
    requires Abs(a.right).Branch? && Abs(a.right).left.Branch?
    modifies {node} + Owned(a.right, cow)
    ensures b.BranchAt? && b.ref == node && Loose(b, h)
    ensures OwnedRoot(b.right, cow) <= Owned(b.right, cow)
    ensures forall x :: x in Owned(b.right, cow) ==> x in Owned(a.right, cow) || fresh(x)
    ensures Abs(b.right) == Iavl.RotateRight(Abs(a.right).Stamp(version), version)
    ensures Abs(b) == WithChildren(a, Abs(a.left), Abs(b.right))
    ensures forall x :: x in Refs(b) ==> x in Refs(a) || fresh(x)
    ensures forall x :: x in Owned(b, cow) ==> x in Owned(a, cow) || fresh(x)
  {
    hide Good, Loose, Shape, RootHolds, Refs, Owned, Abs, OwnedRoot, Iavl.RotateRight;
    LooseParts(a, cow, h);
    var t, c := MutateRotateRight(node.right, version, cow, a.right, h);
    node.right := Mem(t);
    b := a.(right := c);
    Relinked(b, a, cow, h);
  }

  // ------------------------------------------------------------- balancing

  /** What a good branch says of the shape around its root. */
  lemma {:induction false} GoodIsLoose(a: Layout, h: Hasher)
    requires a.BranchAt? && Good(a, h) && a.ref.hash == None
    ensures Loose(a, h) && Exact(Abs(a))
    ensures Abs(a) == WithChildren(a, Abs(a.left), Abs(a.right))
  {
  }

  /** The difference of the heights of the children of a node. */
  method CalcBalance(n: Node, ghost a: Layout, ghost h: Hasher) returns (d: int)
    requires n == Root(a) && Good(a, h) && Abs(a).Branch?
    ensures d == Balance(Abs(a))
  {
    hide Good, RootHolds, Shape, Refs, Owned, OwnedRoot, Abs, Inspect, View;
    ghost var l, r := BranchParts(a, 0, h);
    InspectAgrees(a, h);
    var i := Inspect(n);
    Measures(l, h);
    Measures(r, h);
    d := Inspect(i.left).height - Inspect(i.right).height;
  }

  method ReBalance(node: MemNode, version: nat, cow: nat, ghost a: Layout, ghost h: Hasher)
    returns (r: MemNode, ghost b: Layout)
    requires a.BranchAt? && Good(a, h) && a.ref == node && node.hash == None && Exact(Abs(a))
    modifies {node} + Owned(a, cow)
    ensures Root(b) == Mem(r) && r.hash == None && Good(b, h)
    ensures Abs(b) == Iavl.ReBalance(Abs(a), version)
    ensures forall x :: x in Refs(b) ==> x in Refs(a) || fresh(x)
    ensures forall x :: x in Owned(b, cow) ==> x in Owned(a, cow) || fresh(x)
  {
    hide Good, Loose, Shape, RootHolds, Refs, Owned, Abs, OwnedRoot, Iavl.RotateRight, Iavl.RotateLeft;
    GoodIsLoose(a, h);
    LooseParts(a, cow, h);
    var balance := CalcBalance(Mem(node), a, h);
    if balance > 1 {
      var leftBalance := CalcBalance(node.left, a.left, h);
      if leftBalance >= 0 {
        r, b := RotateRight(node, version, cow, a, h);
      } else {
        ghost var c := LiftLeft(node, version, cow, a, h);
        r, b := RotateRight(node, version, cow, c, h);
      }
    } else if balance < -1 {
      var rightBalance := CalcBalance(node.right, a.right, h);
      if rightBalance <= 0 {
        r, b := RotateLeft(node, version, cow, a, h);
      } else {
        ghost var c := LiftRight(node, version, cow, a, h);
        r, b := RotateLeft(node, version, cow, c, h);
      }
    } else {
      r, b := node, a;
    }
  }

  // ------------------------------------------------------- set and remove

  lemma {:induction false} LooseIsGood(a: Layout, h: Hasher)
    requires Loose(a, h) && Exact(Abs(a))
    ensures Good(a, h)
  {
  }

  /** Recomputes and rebalances a branch one of whose subtrees has changed, unless its
      shape is the same as before. */
  method Settle(m: MemNode, keep: bool, version: nat, cow: nat, ghost a: Layout, ghost h: Hasher)
    returns (r: MemNode, ghost b: Layout)
    requires a.BranchAt? && Loose(a, h) && a.ref == m && (keep ==> Exact(Abs(a)))
    modifies {m} + Owned(a, cow)
    ensures Root(b) == Mem(r) && Good(b, h)
    ensures Exact(Abs(a.left)) && Exact(Abs(a.right))
    ensures Abs(b) == if keep then Abs(a)
      else Iavl.ReBalance(Join(a.key, a.version, Abs(a.left), Abs(a.right)), version)
    ensures keep ==> b == a
    ensures forall x :: x in Refs(b) ==> x in Refs(a) || fresh(x)
    ensures forall x :: x in Owned(b, cow) ==> x in Owned(a, cow) || fresh(x)
  {
    LooseParts(a, cow, h);
    assert Exact(Abs(a.left)) && Exact(Abs(a.right));
    hide Good, Loose, Shape, RootHolds, Abs, Iavl.ReBalance, Join;
    if keep {
      LooseIsGood(a, h);
      r, b := m, a;
    } else {
      UpdateHeightSize(m, a.key, a.version, a.left, a.right, h);
      ghost var c := JoinAt(m, a.key, a.version, a.left, a.right);
      r, b := ReBalance(m, version, cow, c, h);
    }
  }

  /** The cell of a mutated branch. */
  lemma {:induction false} BranchCell(a: Layout, version: nat)
    requires Abs(a).Branch? && (a.OnDisk? ==> View(a.p).BranchView?)
    ensures Stamped(InfoOf(a), version)
         == Cell(Abs(a).height, Abs(a).size, version, Abs(a).key, [], Root(LeftOf(a)), Root(RightOf(a)))
  {
  }

  /** A node over two good subtrees, its hash unset. */
  lemma {:induction false} Assembled(b: Layout, cow: nat, h: Hasher)
    requires b.BranchAt? && b.ref.Fields() == CellOf(b) && b.ref.hash == None
    requires Good(b.left, h) && Good(b.right, h)
    requires Refs(b.left) !! Refs(b.right) && b.ref !in Refs(b.left) && b.ref !in Refs(b.right)
    ensures Loose(b, h)
    ensures Refs(b) == {b.ref} + Refs(b.left) + Refs(b.right)
    ensures Owned(b, cow) <= {b.ref} + Owned(b.left, cow) + Owned(b.right, cow)
    ensures Abs(b) == WithChildren(b, Abs(b.left), Abs(b.right))
  {
  }

  /** Mutates a branch and exchanges its left subtree. */
  method ReplaceLeft(n: Node, child: Node, version: nat, cow: nat, ghost a: Layout, ghost c: Layout, ghost h: Hasher)
    returns (m: MemNode, ghost b: Layout)
    requires n == Root(a) && RootHolds(a, h) && Abs(a).Branch? && (a.OnDisk? ==> View(a.p).BranchView?)
    requires child == Root(c) && Good(c, h) && Good(RightOf(a), h) && Refs(c) !! Refs(RightOf(a))
    requires !a.OnDisk? ==> a.ref !in Refs(c) && a.ref !in Refs(RightOf(a))
    modifies OwnedRoot(a, cow)
    ensures b == BranchAt(m, Abs(a).key, Abs(a).height, Abs(a).size, version, c, RightOf(a)) && Loose(b, h)
    ensures if OwnedRoot(a, cow) == {} then fresh(m) else OwnedRoot(a, cow) == {m}
    ensures Refs(b) == {m} + Refs(c) + Refs(RightOf(a)) && Owned(b, cow) <= {m} + Owned(c, cow) + Owned(RightOf(a), cow)
    ensures Abs(b) == WithChildren(b, Abs(c), Abs(RightOf(a)))
  {
    RefsAllocated(c);
    RefsAllocated(RightOf(a));
    BranchCell(a, version);
    hide Good, Loose, RootHolds, Refs, Owned, Abs, View, InfoOf, Stamped, LeftOf, RightOf;
    m := Mutate(n, version, cow, a, h);
    b := HangLeftChild(m, child, c, RightOf(a), cow, h);
  }

  function KeyOr(newKey: Option<Bytes>, key: Bytes): Bytes {
    if newKey.Some? then newKey.value else key
  }

  method HangLeftChild(m: MemNode, child: Node, ghost c: Layout, ghost r: Layout, ghost cow: nat, ghost h: Hasher)
    returns (ghost b: Layout)
    requires m.value == [] && m.right == Root(r) && m.hash == None && child == Root(c)
    requires Good(c, h) && Good(r, h) && Refs(c) !! Refs(r) && m !in Refs(c) && m !in Refs(r)
    modifies m
    ensures b == BranchAt(m, old(m.key), old(m.height), old(m.size), old(m.version), c, r) && Loose(b, h)
    ensures Refs(b) == {m} + Refs(c) + Refs(r) && Owned(b, cow) <= {m} + Owned(c, cow) + Owned(r, cow)
    ensures Abs(b) == WithChildren(b, Abs(c), Abs(r))
  {
    hide Good, Loose, Refs, Owned, Abs;
    m.left := child;
    b := BranchAt(m, m.key, m.height, m.size, m.version, c, r);
    Assembled(b, cow, h);
  }

  method HangRightChild(m: MemNode, child: Node, newKey: Option<Bytes>, ghost l: Layout, ghost c: Layout,
                        ghost cow: nat, ghost h: Hasher)
    returns (ghost b: Layout)
    requires m.value == [] && m.left == Root(l) && m.hash == None && child == Root(c)
    requires Good(l, h) && Good(c, h) && Refs(l) !! Refs(c) && m !in Refs(l) && m !in Refs(c)
    modifies m
    ensures b == BranchAt(m, KeyOr(newKey, old(m.key)), old(m.height), old(m.size), old(m.version), l, c) && Loose(b, h)
    ensures Refs(b) == {m} + Refs(l) + Refs(c) && Owned(b, cow) <= {m} + Owned(l, cow) + Owned(c, cow)
    ensures Abs(b) == WithChildren(b, Abs(l), Abs(c))
  {
    hide Good, Loose, Refs, Owned, Abs;
    m.right := child;
    if newKey.Some? {
      m.key := newKey.value;
    }
    b := BranchAt(m, m.key, m.height, m.size, m.version, l, c);
    Assembled(b, cow, h);
  }

  /** Mutates a branch and exchanges its right subtree, and its key if a new one is given. */
  method ReplaceRight(n: Node, child: Node, newKey: Option<Bytes>, version: nat, cow: nat, ghost a: Layout,
                      ghost c: Layout, ghost h: Hasher)
    returns (m: MemNode, ghost b: Layout)
    requires n == Root(a) && RootHolds(a, h) && Abs(a).Branch? && (a.OnDisk? ==> View(a.p).BranchView?)
    requires child == Root(c) && Good(c, h) && Good(LeftOf(a), h) && Refs(LeftOf(a)) !! Refs(c)
    requires !a.OnDisk? ==> a.ref !in Refs(c) && a.ref !in Refs(LeftOf(a))
    modifies OwnedRoot(a, cow)
    ensures b == BranchAt(m, KeyOr(newKey, Abs(a).key), Abs(a).height, Abs(a).size, version, LeftOf(a), c)
    ensures Loose(b, h)
    ensures if OwnedRoot(a, cow) == {} then fresh(m) else OwnedRoot(a, cow) == {m}
    ensures Refs(b) == {m} + Refs(LeftOf(a)) + Refs(c) && Owned(b, cow) <= {m} + Owned(LeftOf(a), cow) + Owned(c, cow)
    ensures Abs(b) == WithChildren(b, Abs(LeftOf(a)), Abs(c))
  {
    RefsAllocated(c);
    RefsAllocated(LeftOf(a));
    BranchCell(a, version);
    hide Good, Loose, RootHolds, Refs, Owned, Abs, View, InfoOf, Stamped, LeftOf, RightOf, KeyOr;
    m := Mutate(n, version, cow, a, h);
    b := HangRightChild(m, child, newKey, LeftOf(a), c, cow, h);
  }

  method NewLeaf(key: Bytes, value: Bytes, version: nat, ghost h: Hasher) returns (m: MemNode, ghost b: Layout)
    ensures fresh(m) && b == LeafAt(m, key, value, version) && Good(b, h)
  {
    m := new MemNode(Cell(0, 1, version, key, value, Nil, Nil));
    b := LeafAt(m, key, value, version);
  }

  /** Exchanges the left subtree of a branch, and recomputes and rebalances it. */
  method RebuildLeft(n: Node, child: Node, version: nat, cow: nat, ghost a: Layout, ghost c: Layout, ghost h: Hasher)
    returns (m: MemNode, ghost b: Layout)
    requires n == Root(a) && RootHolds(a, h) && Abs(a).Branch? && (a.OnDisk? ==> View(a.p).BranchView?)
    requires child == Root(c) && Good(c, h) && Good(RightOf(a), h) && Refs(c) !! Refs(RightOf(a))
    requires !a.OnDisk? ==> a.ref !in Refs(c) && a.ref !in Refs(RightOf(a))
    requires Exact(Abs(c)) && Exact(Abs(RightOf(a)))
    modifies OwnedRoot(a, cow) + Owned(c, cow) + Owned(RightOf(a), cow)
    ensures Root(b) == Mem(m) && Good(b, h)
    ensures Abs(b) == Iavl.ReBalance(Join(Abs(a).key, version, Abs(c), Abs(RightOf(a))), version)
    ensures forall x :: x in Refs(b) ==> x in Refs(c) + Refs(RightOf(a)) || x in OwnedRoot(a, cow) || fresh(x)
    ensures forall x :: x in Owned(b, cow) ==>
      x in Owned(c, cow) + Owned(RightOf(a), cow) || x in OwnedRoot(a, cow) || fresh(x)
  {
    hide Good, Loose, Shape, RootHolds, Refs, Owned, OwnedRoot, Abs, Iavl.ReBalance, Join;
    var m0, d := ReplaceLeft(n, child, version, cow, a, c, h);
    m, b := Settle(m0, false, version, cow, d, h);
  }

  /** Exchanges the right subtree of a branch, and recomputes and rebalances it. */
  method RebuildRight(n: Node, child: Node, newKey: Option<Bytes>, version: nat, cow: nat, ghost a: Layout,
                      ghost c: Layout, ghost h: Hasher)
    returns (m: MemNode, ghost b: Layout)
    requires n == Root(a) && RootHolds(a, h) && Abs(a).Branch? && (a.OnDisk? ==> View(a.p).BranchView?)
    requires child == Root(c) && Good(c, h) && Good(LeftOf(a), h) && Refs(c) !! Refs(LeftOf(a))
    requires !a.OnDisk? ==> a.ref !in Refs(c) && a.ref !in Refs(LeftOf(a))
    requires Exact(Abs(c)) && Exact(Abs(LeftOf(a)))
    modifies OwnedRoot(a, cow) + Owned(c, cow) + Owned(LeftOf(a), cow)
    ensures Root(b) == Mem(m) && Good(b, h)
    ensures Abs(b) == Iavl.ReBalance(Join(KeyOr(newKey, Abs(a).key), version, Abs(LeftOf(a)), Abs(c)), version)
    ensures forall x :: x in Refs(b) ==> x in Refs(c) + Refs(LeftOf(a)) || x in OwnedRoot(a, cow) || fresh(x)
    ensures forall x :: x in Owned(b, cow) ==>
      x in Owned(c, cow) + Owned(LeftOf(a), cow) || x in OwnedRoot(a, cow) || fresh(x)
  {
    hide Good, Loose, Shape, RootHolds, Refs, Owned, OwnedRoot, Abs, Iavl.ReBalance, Join;
    var m0, d := ReplaceRight(n, child, newKey, version, cow, a, c, h);
    m, b := Settle(m0, false, version, cow, d, h);
  }

  /** A set that ends at a leaf: it becomes a branch of two leaves, or takes the value. */
  method SetLeaf(n: Node, key: Bytes, value: Bytes, version: nat, cow: nat, ghost a: Layout, ghost h: Hasher)
    returns (m: MemNode, updated: bool, ghost b: Layout)
    requires n == Root(a) && Good(a, h) && Abs(a).Leaf?
    modifies OwnedRoot(a, cow)
    ensures Root(b) == Mem(m) && Good(b, h)
    ensures updated && OwnedRoot(a, cow) != {} ==> m == a.ref
    ensures (Abs(b), updated) == SetNode(Abs(a), key, value, version)
    ensures forall x :: x in Refs(b) ==> x in Refs(a) || fresh(x)
    ensures forall x :: x in Owned(b, cow) ==> x in Owned(a, cow) || fresh(x)
  {
    hide Good, RootHolds, Shape, View, Inspect, Less;
    LeafSeen(a, h);
    GoodRoot(a, h);
    LessIsTotalOrder();
    var i := Inspect(n);
    if Less(key, i.key) {
      var leaf, l := NewLeaf(key, value, version, h);
      assert Refs(l) == {leaf};
      m := new MemNode(Cell(1, 2, version, i.key, [], Mem(leaf), n));
      JoinGood(m, i.key, version, l, a, h);
      b, updated := JoinAt(m, i.key, version, l, a), false;
    } else if Less(i.key, key) {
      var leaf, r := NewLeaf(key, value, version, h);
      assert Refs(r) == {leaf};
      m := new MemNode(Cell(1, 2, version, key, [], n, Mem(leaf)));
      JoinGood(m, key, version, a, r, h);
      b, updated := JoinAt(m, key, version, a, r), false;
    } else {
      m := Mutate(n, version, cow, a, h);
      m.value := value;
      b, updated := LeafAt(m, i.key, value, version), true;
      NewLeafGood(b, h);
    }
  }

  lemma LeafSeen(a: Layout, h: Hasher)
    requires Good(a, h) && Abs(a).Leaf?
    ensures a.OnDisk? ==> View(a.p) != Missing
    ensures Inspect(Root(a)) == InfoOf(a)
    ensures forall r :: r in Refs(a) ==> allocated(r)
  {
    GoodRoot(a, h);
    InspectAgrees(a, h);
    RefsAllocated(a);
  }

  lemma NewLeafGood(b: Layout, h: Hasher)
    requires b.LeafAt? && b.ref.Fields() == CellOf(b) && b.ref.hash == None
    ensures Good(b, h)
  {
  }

  /** How a tree lies beside the tree that updates the value of a key: the first owned node
      on the path of the key is used again, all above it are cloned, and the rest is shared. */
  ghost predicate Beside(a: Layout, b: Layout, key: Bytes, cow: nat) {
    if a.OnDisk? then true
    else if a.version > cow then Root(b) == Root(a)
    else if a.LeafAt? then true
    else
      && b.BranchAt? && a.ref !in Refs(b)
      && if Less(key, a.key) then b.right == a.right && Beside(a.left, b.left, key, cow)
         else b.left == a.left && Beside(a.right, b.right, key, cow)
  }

  lemma {:induction false} BesideLeaf(a: Layout, b: Layout, m: MemNode, key: Bytes, cow: nat)
    requires Abs(a).Leaf? && Root(b) == Mem(m) && (OwnedRoot(a, cow) != {} ==> m == a.ref)
    ensures Beside(a, b, key, cow)
  {
  }

  lemma {:induction false} BesideLeft(a: Layout, b: Layout, l: Layout, key: Bytes, cow: nat)
    requires Abs(a).Branch? && (a.OnDisk? ==> View(a.p).BranchView?) && l == LeftOf(a) && Less(key, Abs(a).key)
    requires b.BranchAt? && b.right == RightOf(a) && Beside(l, b.left, key, cow)
    requires if OwnedRoot(a, cow) == {} then !a.OnDisk? ==> a.ref !in Refs(b) else OwnedRoot(a, cow) == {b.ref}
    ensures Beside(a, b, key, cow)
  {
    if a.BranchAt? && a.version > cow { assert a.ref in OwnedRoot(a, cow); }
  }

  lemma {:induction false} BesideRight(a: Layout, b: Layout, r: Layout, key: Bytes, cow: nat)
    requires Abs(a).Branch? && (a.OnDisk? ==> View(a.p).BranchView?) && r == RightOf(a) && !Less(key, Abs(a).key)
    requires b.BranchAt? && b.left == LeftOf(a) && Beside(r, b.right, key, cow)
    requires if OwnedRoot(a, cow) == {} then !a.OnDisk? ==> a.ref !in Refs(b) else OwnedRoot(a, cow) == {b.ref}
    ensures Beside(a, b, key, cow)
  {
    if a.BranchAt? && a.version > cow { assert a.ref in OwnedRoot(a, cow); }
  }

  lemma {:induction false} SetBranchIs(t: Tree, key: Bytes, value: Bytes, version: nat)
    requires t.Branch? && Exact(t)
    ensures Exact(t.left) && Exact(t.right)
    ensures SetNode(t, key, value, version) ==
      if Less(key, t.key) then
        var sub := SetNode(t.left, key, value, version);
        if sub.1 then (t.(left := sub.0).Stamp(version), true)
          else (Iavl.ReBalance(Join(t.key, version, sub.0, t.right), version), false)
      else
        var sub := SetNode(t.right, key, value, version);
        if sub.1 then (t.(right := sub.0).Stamp(version), true)
          else (Iavl.ReBalance(Join(t.key, version, t.left, sub.0), version), false)
    ensures var sub := SetNode(t.left, key, value, version); sub.1 ==> Exact(t.(left := sub.0).Stamp(version))
    ensures var sub := SetNode(t.right, key, value, version); sub.1 ==> Exact(t.(right := sub.0).Stamp(version))
  {
  }

  method SetRecursive(n: Node, key: Bytes, value: Bytes, version: nat, cow: nat, ghost a: Layout, ghost h: Hasher)
    returns (m: MemNode, updated: bool, ghost b: Layout)
    requires n == Root(a) && Good(a, h) && Exact(Abs(a))
    modifies Owned(a, cow)
    ensures Root(b) == Mem(m) && Good(b, h)
    ensures (Abs(b), updated) == SetNode(Abs(a), key, value, version)
    ensures updated ==> Beside(a, b, key, cow)
    ensures forall x :: x in Refs(b) ==> x in Refs(a) || fresh(x)
    ensures forall x :: x in Owned(b, cow) ==> x in Owned(a, cow) || fresh(x)
    decreases Abs(a)
  {
    hide Good, Loose, Shape, RootHolds, Refs, Owned, OwnedRoot, SetNode, Beside, Iavl.ReBalance, Join, Less, View;
    Seen(a, h);
    var i := Inspect(n);
    if i.isLeaf {
      LeafRoot(a, cow);
      m, updated, b := SetLeaf(n, key, value, version, cow, a, h);
      if updated { BesideLeaf(a, b, m, key, cow); }
    } else {
      m, updated, b := SetBranch(n, i, key, value, version, cow, a, h);
    }
  }

  lemma ExactParts(t: Tree)
    requires Exact(t) && t.Branch?
    ensures Exact(t.left) && Exact(t.right)
  {
  }

  lemma LeafRoot(a: Layout, cow: nat)
    ensures OwnedRoot(a, cow) <= Owned(a, cow)
  {
  }

  method SetBranch(n: Node, i: Info, key: Bytes, value: Bytes, version: nat, cow: nat, ghost a: Layout, ghost h: Hasher)
    returns (m: MemNode, updated: bool, ghost b: Layout)
    requires n == Root(a) && Good(a, h) && Exact(Abs(a)) && Abs(a).Branch? && (a.OnDisk? ==> View(a.p).BranchView?)
    requires i == InfoOf(a)
    modifies Owned(a, cow)
    ensures Root(b) == Mem(m) && Good(b, h)
    ensures (Abs(b), updated) == SetNode(Abs(a), key, value, version)
    ensures updated ==> Beside(a, b, key, cow)
    ensures forall x :: x in Refs(b) ==> x in Refs(a) || fresh(x)
    ensures forall x :: x in Owned(b, cow) ==> x in Owned(a, cow) || fresh(x)
    decreases Abs(a), 1
  {
    hide Good, Loose, Shape, RootHolds, Refs, Owned, SetNode, Beside, Iavl.ReBalance, Join, Less, View, Exact, Abs,
         LeftOf, RightOf;
    SetBranchIs(Abs(a), key, value, version);
    ghost var c: Layout;
    if Less(key, i.key) {
      m, updated, c := SetLeft(n, i.left, key, value, version, cow, a, h);
    } else {
      m, updated, c := SetRight(n, i.right, key, value, version, cow, a, h);
    }
    AbsBranch(c);
    m, b := Settle(m, updated, version, cow, c, h);
  }

  lemma AbsBranch(c: Layout)
    requires c.BranchAt?
    ensures Abs(c) == Branch(c.key, c.height, c.size, c.version, Abs(c.left), Abs(c.right))
  {
  }

  /** Sets in the left subtree of a branch and mutates the branch. */
  method SetLeft(n: Node, left: Node, key: Bytes, value: Bytes, version: nat, cow: nat, ghost a: Layout,
                 ghost h: Hasher)
    returns (m: MemNode, updated: bool, ghost b: Layout)
    requires n == Root(a) && Good(a, h) && Exact(Abs(a)) && Abs(a).Branch? && (a.OnDisk? ==> View(a.p).BranchView?)
    requires left == Root(LeftOf(a)) && Less(key, Abs(a).key)
    modifies Owned(a, cow)
    ensures b.BranchAt? && b.ref == m && Loose(b, h) && (m in Owned(a, cow) || fresh(m))
    ensures var sub := SetNode(Abs(a).left, key, value, version);
      updated == sub.1 && Abs(b) == Abs(a).(left := sub.0).Stamp(version)
    ensures updated ==> Beside(a, b, key, cow)
    ensures forall x :: x in Refs(b) ==> x in Refs(a) || fresh(x)
    ensures forall x :: x in Owned(b, cow) ==> x in Owned(a, cow) || fresh(x)
    decreases Abs(a), 0
  {
    hide Good, Loose, Shape, RootHolds, Abs, Refs, Owned, OwnedRoot, SetNode, Beside, Less, View, Exact, LeftOf,
         RightOf;
    ghost var l, r := BranchParts(a, cow, h);
    ExactParts(Abs(a));
    var child, up, c := SetRecursive(left, key, value, version, cow, l, h);
    m, b := ReplaceLeft(n, Mem(child), version, cow, a, c, h);
    if up { BesideLeft(a, b, l, key, cow); }
    updated := up;
  }

  /** Sets in the right subtree of a branch and mutates the branch. */
  method SetRight(n: Node, right: Node, key: Bytes, value: Bytes, version: nat, cow: nat, ghost a: Layout,
                  ghost h: Hasher)
    returns (m: MemNode, updated: bool, ghost b: Layout)
    requires n == Root(a) && Good(a, h) && Exact(Abs(a)) && Abs(a).Branch? && (a.OnDisk? ==> View(a.p).BranchView?)
    requires right == Root(RightOf(a)) && !Less(key, Abs(a).key)
    modifies Owned(a, cow)
    ensures b.BranchAt? && b.ref == m && Loose(b, h) && (m in Owned(a, cow) || fresh(m))
    ensures var sub := SetNode(Abs(a).right, key, value, version);
      updated == sub.1 && Abs(b) == Abs(a).(right := sub.0).Stamp(version)
    ensures updated ==> Beside(a, b, key, cow)
    ensures forall x :: x in Refs(b) ==> x in Refs(a) || fresh(x)
    ensures forall x :: x in Owned(b, cow) ==> x in Owned(a, cow) || fresh(x)
    decreases Abs(a), 0
  {
    hide Good, Loose, Shape, RootHolds, Abs, Refs, Owned, OwnedRoot, SetNode, Beside, Less, View, Exact, LeftOf,
         RightOf;
    ghost var l, r := BranchParts(a, cow, h);
    ExactParts(Abs(a));
    var child, up, c := SetRecursive(right, key, value, version, cow, r, h);
    m, b := ReplaceRight(n, Mem(child), None, version, cow, a, c, h);
    if up { BesideRight(a, b, r, key, cow); }
    updated := up;
  }

  ghost function RootOf(a: Option<Layout>): Node {
    if a.None? then Nil else Root(a.value)
  }

  ghost function AbsOf(a: Option<Layout>): Option<Tree> {
    if a.None? then None else Some(Abs(a.value))
  }

  ghost predicate MemoRoot(a: Layout, h: Hasher)
    reads if a.OnDisk? then {} else {a.ref}
  {
    !a.OnDisk? && a.ref.hash.Some? ==> a.ref.hash.value == HashOf(Abs(a), h)
  }

  /** A tree whose subtrees are good and whose root did not change is still good. */
  lemma {:induction false} StillGood(a: Layout, h: Hasher)
    requires Shape(a, h) && RootHolds(a, h) && MemoRoot(a, h) && Abs(a).Branch? && (a.OnDisk? ==> View(a.p).BranchView?)
    requires Good(LeftOf(a), h) && Good(RightOf(a), h)
    ensures Good(a, h)
  {
  }

  lemma GoodShape(a: Layout, h: Hasher)
    requires Good(a, h)
    ensures Shape(a, h) && MemoRoot(a, h)
  {
  }

  method RemoveRecursive(n: Node, key: Bytes, version: nat, cow: nat, ghost a: Layout, ghost h: Hasher)
    returns (value: Option<Bytes>, r: Node, newKey: Option<Bytes>, ghost b: Option<Layout>)
    requires n == Root(a) && Good(a, h) && Exact(Abs(a))
    modifies Owned(a, cow)
    ensures r == RootOf(b) && (b.Some? ==> Good(b.value, h))
    ensures Removal(value, AbsOf(b), newKey) == RemoveNode(Abs(a), key, version)
    ensures value.None? ==> b == Some(a)
    ensures b.Some? ==> forall x :: x in Refs(b.value) ==> x in Refs(a) || fresh(x)
    ensures b.Some? ==> forall x :: x in Owned(b.value, cow) ==> x in Owned(a, cow) || fresh(x)
    decreases Abs(a)
  {
    GoodRoot(a, h);
    InspectAgrees(a, h);
    var i := Inspect(n);
    if i.isLeaf {
      if i.key == key {
        return Some(i.value), Nil, None, None;
      } else {
        return None, n, None, Some(a);
      }
    } else if Less(key, i.key) {
      value, r, newKey, b := RemoveLeft(n, i, key, version, cow, a, h);
    } else {
      value, r, newKey, b := RemoveRight(n, i, key, version, cow, a, h);
    }
  }

  lemma {:induction false} RemoveLeftIs(t: Tree, key: Bytes, version: nat)
    requires t.Branch? && Exact(t) && Less(key, t.key)
    ensures Exact(t.left) && Exact(t.right)
    ensures var sub := RemoveNode(t.left, key, version);
      RemoveNode(t, key, version) ==
        if sub.value.None? then Removal(None, Some(t), None)
        else if sub.node.None? then Removal(sub.value, Some(t.right), Some(t.key))
        else Removal(sub.value, Some(Iavl.ReBalance(Join(t.key, version, sub.node.value, t.right), version)),
          sub.newKey)
  {
  }

  lemma {:induction false} RemoveRightIs(t: Tree, key: Bytes, version: nat)
    requires t.Branch? && Exact(t) && !Less(key, t.key)
    ensures Exact(t.left) && Exact(t.right)
    ensures var sub := RemoveNode(t.right, key, version);
      RemoveNode(t, key, version) ==
        if sub.value.None? then Removal(None, Some(t), None)
        else if sub.node.None? then Removal(sub.value, Some(t.left), None)
        else Removal(sub.value, Some(Iavl.ReBalance(Join(KeyOr(sub.newKey, t.key), version, t.left, sub.node.value),
          version)), None)
  {
  }

  method RemoveLeft(n: Node, i: Info, key: Bytes, version: nat, cow: nat, ghost a: Layout, ghost h: Hasher)
    returns (value: Option<Bytes>, r: Node, newKey: Option<Bytes>, ghost b: Option<Layout>)
    requires n == Root(a) && Good(a, h) && Exact(Abs(a)) && Abs(a).Branch? && (a.OnDisk? ==> View(a.p).BranchView?)
    requires i == InfoOf(a) && Less(key, i.key)
    modifies Owned(a, cow)
    ensures r == RootOf(b) && (b.Some? ==> Good(b.value, h))
    ensures Removal(value, AbsOf(b), newKey) == RemoveNode(Abs(a), key, version)
    ensures value.None? ==> b == Some(a)
    ensures b.Some? ==> forall x :: x in Refs(b.value) ==> x in Refs(a) || fresh(x)
    ensures b.Some? ==> forall x :: x in Owned(b.value, cow) ==> x in Owned(a, cow) || fresh(x)
    decreases Abs(a), 0
  {
    hide Good, Loose, Shape, RootHolds, MemoRoot, Refs, Owned, OwnedRoot, Abs, Iavl.ReBalance, RemoveNode, Exact,
         Less, View;
    ghost var left, right := BranchParts(a, cow, h);
    GoodShape(a, h);
    RemoveLeftIs(Abs(a), key, version);
    var v, child, k, c := RemoveRecursive(i.left, key, version, cow, left, h);
    if v.None? {
      StillGood(a, h);
      return None, n, None, Some(a);
    } else if child == Nil {
      return v, i.right, Some(i.key), Some(right);
    } else {
      var m, e := RebuildLeft(n, child, version, cow, a, c.value, h);
      return v, Mem(m), k, Some(e);
    }
  }

  method RemoveRight(n: Node, i: Info, key: Bytes, version: nat, cow: nat, ghost a: Layout, ghost h: Hasher)
    returns (value: Option<Bytes>, r: Node, newKey: Option<Bytes>, ghost b: Option<Layout>)
    requires n == Root(a) && Good(a, h) && Exact(Abs(a)) && Abs(a).Branch? && (a.OnDisk? ==> View(a.p).BranchView?)
    requires i == InfoOf(a) && !Less(key, i.key)
    modifies Owned(a, cow)
    ensures r == RootOf(b) && (b.Some? ==> Good(b.value, h))
    ensures Removal(value, AbsOf(b), newKey) == RemoveNode(Abs(a), key, version)
    ensures value.None? ==> b == Some(a)
    ensures b.Some? ==> forall x :: x in Refs(b.value) ==> x in Refs(a) || fresh(x)
    ensures b.Some? ==> forall x :: x in Owned(b.value, cow) ==> x in Owned(a, cow) || fresh(x)
    decreases Abs(a), 0
  {
    hide Good, Loose, Shape, RootHolds, MemoRoot, Refs, Owned, OwnedRoot, Abs, Iavl.ReBalance, RemoveNode, Exact,
         Less, View;
    ghost var left, right := BranchParts(a, cow, h);
    GoodShape(a, h);
    RemoveRightIs(Abs(a), key, version);
    var v, child, k, c := RemoveRecursive(i.right, key, version, cow, right, h);
    if v.None? {
      StillGood(a, h);
      return None, n, None, Some(a);
    } else if child == Nil {
      return v, i.left, None, Some(left);
    } else {
      var m, e := RebuildRight(n, child, k, version, cow, a, c.value, h);
      return v, Mem(m), None, Some(e);
    }
  }
}
