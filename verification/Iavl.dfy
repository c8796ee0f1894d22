/** The reference IAVL tree: what a set or a remove does to a tree seen as a value,
    with no regard to where its nodes are stored. */
module Iavl {
  import opened Bytes

  datatype Tree =
    | Leaf(key: Bytes, value: Bytes, version: nat)
    | Branch(key: Bytes, height: nat, size: nat, version: nat, left: Tree, right: Tree)
  {
    function Height(): nat { if Leaf? then 0 else height }
    function Size(): nat { if Leaf? then 1 else size }

    function Stamp(v: nat): Tree {
      match this
      case Leaf(k, value, _) => Leaf(k, value, v)
      case Branch(k, h, s, _, l, r) => Branch(k, h, s, v, l, r)
    }
  }

  /** One leaf, as it is seen in order. */
  datatype Entry = Entry(key: Bytes, value: Bytes, version: nat)

  function Max(a: int, b: int): int { if a < b then b else a }

  // ----------------------------------------------------------- invariants

  /** The height and size fields are those of the subtree. */
  ghost predicate Exact(t: Tree) {
    t.Branch? ==>
      && Exact(t.left) && Exact(t.right)
      && t.height == Max(t.left.Height(), t.right.Height()) + 1
      && t.size == t.left.Size() + t.right.Size()
  }

  /** Sibling heights differ by at most one everywhere. */
  ghost predicate Balanced(t: Tree) {
    t.Branch? ==>
      && Balanced(t.left) && Balanced(t.right)
      && -1 <= t.left.Height() - t.right.Height() <= 1
  }

  function FirstKey(t: Tree): Bytes { if t.Leaf? then t.key else FirstKey(t.left) }
  function LastKey(t: Tree): Bytes { if t.Leaf? then t.key else LastKey(t.right) }

  /** Search order; the key of a branch is the smallest key of its right subtree. */
  ghost predicate Ordered(t: Tree) {
    t.Branch? ==>
      && Ordered(t.left) && Ordered(t.right)
      && t.key == FirstKey(t.right)
      && Less(LastKey(t.left), t.key)
  }

  ghost predicate WellFormed(t: Tree) {
    Exact(t) && Balanced(t) && Ordered(t)
  }

  ghost predicate WellFormedRoot(root: Option<Tree>) {
    root.Some? ==> WellFormed(root.value)
  }

  /** The leaves in order. */
  function Leaves(t: Tree): (s: seq<Entry>)
    ensures |s| >= 1
  {
    match t
    case Leaf(k, v, ver) => [Entry(k, v, ver)]
    case Branch(_, _, _, _, l, r) => Leaves(l) + Leaves(r)
  }

  function RootLeaves(root: Option<Tree>): seq<Entry> {
    if root.None? then [] else Leaves(root.value)
  }

  // ----------------------------------------------------------- operations

  /** A branch whose height and size are recomputed from its children. */
  function Join(key: Bytes, version: nat, left: Tree, right: Tree): (r: Tree)
    ensures Exact(left) && Exact(right) ==> Exact(r)
  {
    Branch(key, Max(left.Height(), right.Height()) + 1, left.Size() + right.Size(), version, left, right)
  }

  function RotateRight(t: Tree, version: nat): (r: Tree)
    requires t.Branch? && t.left.Branch?
    ensures r.Branch? && (Exact(t.left) && Exact(t.right) ==> Exact(r))
  {
    Join(t.left.key, version, t.left.left, Join(t.key, t.version, t.left.right, t.right))
  }

  function RotateLeft(t: Tree, version: nat): (r: Tree)
    requires t.Branch? && t.right.Branch?
    ensures r.Branch? && (Exact(t.left) && Exact(t.right) ==> Exact(r))
  {
    Join(t.right.key, version, Join(t.key, t.version, t.left, t.right.left), t.right.right)
  }

  function Balance(t: Tree): int
    requires t.Branch?
  {
    t.left.Height() - t.right.Height()
  }

  function ReBalance(t: Tree, version: nat): (r: Tree)
    requires t.Branch? && Exact(t)
    ensures r.Branch? && Exact(r)
  {
    if Balance(t) > 1 then
      if Balance(t.left) >= 0 then RotateRight(t, version)
      else
        var l := RotateLeft(t.left.Stamp(version), version);
        assert Exact(t.left) && Exact(l);
        RotateRight(t.(left := l), version)
    else if Balance(t) < -1 then
      if Balance(t.right) <= 0 then RotateLeft(t, version)
      else
        var r := RotateRight(t.right.Stamp(version), version);
        assert Exact(t.right) && Exact(r);
        RotateLeft(t.(right := r), version)
    else t
  }

  /** The new subtree, and whether the key was already there. */
  function SetNode(t: Tree, key: Bytes, value: Bytes, version: nat): (r: (Tree, bool))
    requires Exact(t)
    ensures Exact(r.0)
    ensures r.1 ==> r.0.Height() == t.Height() && r.0.Size() == t.Size()
  {
    match t
    case Leaf(k, _, _) =>
      if Less(key, k) then (Branch(k, 1, 2, version, Leaf(key, value, version), t), false)
      else if Less(k, key) then (Branch(key, 1, 2, version, t, Leaf(key, value, version)), false)
      else (Leaf(k, value, version), true)
    case Branch(k, _, _, _, l, r) =>
      if Less(key, k) then
        var (l', updated) := SetNode(l, key, value, version);
        if updated then (t.(left := l').Stamp(version), true)
        else (ReBalance(Join(k, version, l', r), version), false)
      else
        var (r', updated) := SetNode(r, key, value, version);
        if updated then (t.(right := r').Stamp(version), true)
        else (ReBalance(Join(k, version, l, r'), version), false)
  }

  function Set(root: Option<Tree>, key: Bytes, value: Bytes, version: nat): Option<Tree>
    requires root.Some? ==> Exact(root.value)
  {
    if root.None? then Some(Leaf(key, value, version))
    else Some(SetNode(root.value, key, value, version).0)
  }

  /** `value` is absent when the key was not found; `node` is absent when the whole
      subtree went away; `newKey` is the new smallest key when the smallest was removed. */
  datatype Removal = Removal(value: Option<Bytes>, node: Option<Tree>, newKey: Option<Bytes>)

  function RemoveNode(t: Tree, key: Bytes, version: nat): (r: Removal)
    requires Exact(t)
    ensures r.node.Some? ==> Exact(r.node.value)
    ensures r.value.None? ==> r.node == Some(t) && r.newKey.None?
  {
    match t
    case Leaf(k, v, _) =>
      if k == key then Removal(Some(v), None, None) else Removal(None, Some(t), None)
    case Branch(k, _, _, _, l, r) =>
      if Less(key, k) then
        var sub := RemoveNode(l, key, version);
        if sub.value.None? then Removal(None, Some(t), None)
        else if sub.node.None? then Removal(sub.value, Some(r), Some(k))
        else Removal(sub.value, Some(ReBalance(Join(k, version, sub.node.value, r), version)), sub.newKey)
      else
        var sub := RemoveNode(r, key, version);
        if sub.value.None? then Removal(None, Some(t), None)
        else if sub.node.None? then Removal(sub.value, Some(l), None)
        else
          var k' := if sub.newKey.Some? then sub.newKey.value else k;
          Removal(sub.value, Some(ReBalance(Join(k', version, l, sub.node.value), version)), None)
  }

  function Remove(root: Option<Tree>, key: Bytes, version: nat): Option<Tree>
    requires root.Some? ==> Exact(root.value)
  {
    if root.None? then None else RemoveNode(root.value, key, version).node
  }
}
