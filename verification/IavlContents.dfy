/** The tree as an ordered association list and as a map: each operation, and every
    run of operations, does to the leaves what the list and map operations do. */
module IavlContents {
  import opened Bytes
  import opened Iavl
  import opened IavlProps

  // ----------------------------------------------- the list and the map

  ghost predicate Sorted(s: seq<Entry>) {
    forall i, j :: 0 <= i < j < |s| ==> Less(s[i].key, s[j].key)
  }

  function Upsert(s: seq<Entry>, e: Entry): seq<Entry> {
    if s == [] then [e]
    else if Less(e.key, s[0].key) then [e] + s
    else if e.key == s[0].key then [e] + s[1..]
    else [s[0]] + Upsert(s[1..], e)
  }

  function Delete(s: seq<Entry>, key: Bytes): seq<Entry> {
    if s == [] then []
    else if s[0].key == key then s[1..]
    else [s[0]] + Delete(s[1..], key)
  }

  /** The value under a key. */
  function Find(s: seq<Entry>, key: Bytes): Option<Bytes> {
    if s == [] then None
    else if s[0].key == key then Some(s[0].value)
    else Find(s[1..], key)
  }

  function ToMap(s: seq<Entry>): map<Bytes, Bytes> {
    if s == [] then map[] else ToMap(s[1..])[s[0].key := s[0].value]
  }

  // ------------------------------------------------------ list lemmas

  lemma {:induction false} UpsertPrefix(a: seq<Entry>, b: seq<Entry>, e: Entry)
    requires forall i :: 0 <= i < |a| ==> Less(a[i].key, e.key)
    ensures Upsert(a + b, e) == a + Upsert(b, e)
  {
    if a == [] {
      assert a + b == b;
    } else {
      CompareFlips(a[0].key, e.key);
      UpsertPrefix(a[1..], b, e);
      assert (a + b)[1..] == a[1..] + b;
    }
  }

  lemma {:induction false} UpsertSuffix(a: seq<Entry>, b: seq<Entry>, e: Entry)
    requires b != [] && Less(e.key, b[0].key)
    ensures Upsert(a + b, e) == Upsert(a, e) + b
  {
    if a == [] {
      assert a + b == b;
    } else {
      assert (a + b)[1..] == a[1..] + b && (a + b)[0] == a[0];
      if Less(e.key, a[0].key) {
        assert [e] + (a + b) == ([e] + a) + b;
      } else if e.key == a[0].key {
        assert [e] + (a[1..] + b) == ([e] + a[1..]) + b;
      } else {
        UpsertSuffix(a[1..], b, e);
        assert [a[0]] + (Upsert(a[1..], e) + b) == ([a[0]] + Upsert(a[1..], e)) + b;
      }
    }
  }

  lemma {:induction false} DeletePrefix(a: seq<Entry>, b: seq<Entry>, key: Bytes)
    requires forall i :: 0 <= i < |a| ==> a[i].key != key
    ensures Delete(a + b, key) == a + Delete(b, key)
    ensures Find(a + b, key) == Find(b, key)
  {
    if a == [] {
      assert a + b == b;
    } else {
      DeletePrefix(a[1..], b, key);
      assert (a + b)[1..] == a[1..] + b;
    }
  }

  lemma {:induction false} DeleteSuffix(a: seq<Entry>, b: seq<Entry>, key: Bytes)
    requires forall i :: 0 <= i < |b| ==> b[i].key != key
    ensures Delete(a + b, key) == Delete(a, key) + b
    ensures Find(a + b, key) == Find(a, key)
  {
    if a == [] {
      assert a + b == b;
      DeletePrefix(b, [], key);
      assert b + [] == b;
    } else {
      DeleteSuffix(a[1..], b, key);
      assert (a + b)[1..] == a[1..] + b;
    }
  }

  // --------------------------------------------------- leaves and order

  /** In an ordered tree the leaves are strictly sorted, and the first and last are
      those that the branch keys speak of. */
  lemma {:induction false} OrderedIsSorted(t: Tree)
    requires Ordered(t)
    ensures Sorted(Leaves(t))
    ensures Leaves(t)[0].key == FirstKey(t)
    ensures Leaves(t)[|Leaves(t)| - 1].key == LastKey(t)
  {
    LessIsTotalOrder();
    if t.Branch? {
      OrderedIsSorted(t.left);
      OrderedIsSorted(t.right);
      var a, b := Leaves(t.left), Leaves(t.right);
      forall i, j | 0 <= i < |a| && 0 <= j < |b|
        ensures Less(a[i].key, b[j].key)
      {
        assert i == |a| - 1 || Less(a[i].key, a[|a| - 1].key);
        assert j == 0 || Less(b[0].key, b[j].key);
      }
    }
  }

  /** Where a branch key divides the leaves. */
  lemma BranchKeySplits(t: Tree)
    requires t.Branch? && Ordered(t)
    ensures forall i :: 0 <= i < |Leaves(t.left)| ==> Less(Leaves(t.left)[i].key, t.key)
    ensures forall i :: 0 <= i < |Leaves(t.right)| ==> !Less(Leaves(t.right)[i].key, t.key)
    ensures Leaves(t.right)[0].key == t.key
  {
    LessIsTotalOrder();
    OrderedIsSorted(t.left);
    OrderedIsSorted(t.right);
  }

  lemma {:induction false} ReBalanceKeepsLeaves(t: Tree, version: nat)
    requires t.Branch? && Exact(t)
    ensures Leaves(ReBalance(t, version)) == Leaves(t)
  {
    if Balance(t) > 1 {
      var l := t.left;
      assert Exact(l);
      if Balance(l) < 0 {
        assert Exact(l.right);
        var l' := RotateLeft(l.Stamp(version), version);
        RotateLeftKeepsLeaves(l.Stamp(version), version);
        assert Leaves(l.Stamp(version)) == Leaves(l);
        RotateRightKeepsLeaves(t.(left := l'), version);
      } else {
        RotateRightKeepsLeaves(t, version);
      }
    } else if Balance(t) < -1 {
      var r := t.right;
      assert Exact(r);
      if Balance(r) > 0 {
        assert Exact(r.left);
        var r' := RotateRight(r.Stamp(version), version);
        RotateRightKeepsLeaves(r.Stamp(version), version);
        assert Leaves(r.Stamp(version)) == Leaves(r);
        RotateLeftKeepsLeaves(t.(right := r'), version);
      } else {
        RotateLeftKeepsLeaves(t, version);
      }
    }
  }

  lemma {:induction false} RotateRightKeepsLeaves(t: Tree, version: nat)
    requires t.Branch? && t.left.Branch?
    ensures Leaves(RotateRight(t, version)) == Leaves(t)
  {
    var l := t.left;
    assert Leaves(l.left) + (Leaves(l.right) + Leaves(t.right)) == (Leaves(l.left) + Leaves(l.right)) + Leaves(t.right);
    assert Leaves(l) == Leaves(l.left) + Leaves(l.right);
  }

  lemma {:induction false} RotateLeftKeepsLeaves(t: Tree, version: nat)
    requires t.Branch? && t.right.Branch?
    ensures Leaves(RotateLeft(t, version)) == Leaves(t)
  {
    var r := t.right;
    assert (Leaves(t.left) + Leaves(r.left)) + Leaves(r.right) == Leaves(t.left) + (Leaves(r.left) + Leaves(r.right));
    assert Leaves(r) == Leaves(r.left) + Leaves(r.right);
  }

  // ----------------------------------------------------- set and remove

  lemma {:induction false} SetUpsertsLeaves(t: Tree, key: Bytes, value: Bytes, version: nat)
    requires Exact(t) && Ordered(t)
    ensures Leaves(SetNode(t, key, value, version).0) == Upsert(Leaves(t), Entry(key, value, version))
    ensures SetNode(t, key, value, version).1 <==> Find(Leaves(t), key).Some?
  {
    LessIsTotalOrder();
    var e := Entry(key, value, version);
    if t.Leaf? {
      assert Leaves(t) == [Entry(t.key, t.value, t.version)];
    } else {
      BranchKeySplits(t);
      var a, b := Leaves(t.left), Leaves(t.right);
      if Less(key, t.key) {
        SetUpsertsLeaves(t.left, key, value, version);
        UpsertSuffix(a, b, e);
        DeleteSuffix(a, b, key);
        var l := SetNode(t.left, key, value, version);
        if !l.1 { ReBalanceKeepsLeaves(Join(t.key, version, l.0, t.right), version); }
      } else {
        SetUpsertsLeaves(t.right, key, value, version);
        UpsertPrefix(a, b, e);
        DeletePrefix(a, b, key);
        var r := SetNode(t.right, key, value, version);
        if !r.1 { ReBalanceKeepsLeaves(Join(t.key, version, t.left, r.0), version); }
      }
    }
  }

  lemma {:induction false} RemoveDeletesLeaf(t: Tree, key: Bytes, version: nat)
    requires Exact(t) && Ordered(t)
    ensures RootLeaves(RemoveNode(t, key, version).node) == Delete(Leaves(t), key)
    ensures RemoveNode(t, key, version).value == Find(Leaves(t), key)
  {
    LessIsTotalOrder();
    if t.Branch? {
      BranchKeySplits(t);
      var a, b := Leaves(t.left), Leaves(t.right);
      if Less(key, t.key) {
        RemoveDeletesLeaf(t.left, key, version);
        DeleteSuffix(a, b, key);
        var sub := RemoveNode(t.left, key, version);
        if sub.value.Some? && sub.node.Some? {
          ReBalanceKeepsLeaves(Join(t.key, version, sub.node.value, t.right), version);
        }
      } else {
        RemoveDeletesLeaf(t.right, key, version);
        DeletePrefix(a, b, key);
        var sub := RemoveNode(t.right, key, version);
        if sub.value.Some? && sub.node.Some? {
          var k := if sub.newKey.Some? then sub.newKey.value else t.key;
          ReBalanceKeepsLeaves(Join(k, version, t.left, sub.node.value), version);
        }
      }
    }
  }

  // ------------------------------------------------------------- as a map

  lemma {:induction false} MapOfFind(s: seq<Entry>, key: Bytes)
    ensures Find(s, key) == if key in ToMap(s) then Some(ToMap(s)[key]) else None
  {
    if s != [] { MapOfFind(s[1..], key); }
  }

  lemma {:induction false} MapOfUpsert(s: seq<Entry>, e: Entry)
    ensures ToMap(Upsert(s, e)) == ToMap(s)[e.key := e.value]
  {
    if s != [] && !Less(e.key, s[0].key) && e.key != s[0].key {
      MapOfUpsert(s[1..], e);
    }
  }

  lemma {:induction false} MapOfDelete(s: seq<Entry>, key: Bytes)
    requires Sorted(s)
    ensures ToMap(Delete(s, key)) == ToMap(s) - {key}
  {
    LessIsTotalOrder();
    if s != [] {
      if s[0].key == key {
        forall i | 0 <= i < |s[1..]|
          ensures s[1..][i].key != key
        {
          assert Less(s[0].key, s[i + 1].key);
        }
        NotInMap(s[1..], key);
      } else {
        MapOfDelete(s[1..], key);
      }
    }
  }

  lemma {:induction false} NotInMap(s: seq<Entry>, key: Bytes)
    requires forall i :: 0 <= i < |s| ==> s[i].key != key
    ensures key !in ToMap(s)
  {
    if s != [] { NotInMap(s[1..], key); }
  }

  // ------------------------------------------------------------- all runs

  datatype Op = SetOp(key: Bytes, value: Bytes) | RemoveOp(key: Bytes)

  function ApplyOp(root: Option<Tree>, op: Op, version: nat): (r: Option<Tree>)
    requires root.Some? ==> Exact(root.value)
    ensures r.Some? ==> Exact(r.value)
  {
    match op
    case SetOp(k, v) => Set(root, k, v, version)
    case RemoveOp(k) => Remove(root, k, version)
  }

  function Run(root: Option<Tree>, ops: seq<(Op, nat)>): (r: Option<Tree>)
    requires root.Some? ==> Exact(root.value)
    ensures r.Some? ==> Exact(r.value)
    decreases |ops|
  {
    if ops == [] then root else Run(ApplyOp(root, ops[0].0, ops[0].1), ops[1..])
  }

  function ListOp(s: seq<Entry>, op: Op, version: nat): seq<Entry> {
    match op
    case SetOp(k, v) => Upsert(s, Entry(k, v, version))
    case RemoveOp(k) => Delete(s, k)
  }

  function MapOp(m: map<Bytes, Bytes>, op: Op): map<Bytes, Bytes> {
    match op
    case SetOp(k, v) => m[k := v]
    case RemoveOp(k) => m - {k}
  }

  function RunList(s: seq<Entry>, ops: seq<(Op, nat)>): seq<Entry>
    decreases |ops|
  {
    if ops == [] then s else RunList(ListOp(s, ops[0].0, ops[0].1), ops[1..])
  }

  function RunMap(m: map<Bytes, Bytes>, ops: seq<(Op, nat)>): map<Bytes, Bytes>
    decreases |ops|
  {
    if ops == [] then m else RunMap(MapOp(m, ops[0].0), ops[1..])
  }

  lemma OpKeepsInvariant(root: Option<Tree>, op: Op, version: nat)
    requires WellFormedRoot(root)
    ensures WellFormedRoot(ApplyOp(root, op, version))
    ensures RootLeaves(ApplyOp(root, op, version)) == ListOp(RootLeaves(root), op, version)
    ensures ToMap(RootLeaves(ApplyOp(root, op, version))) == MapOp(ToMap(RootLeaves(root)), op)
  {
    if root.Some? {
      var t := root.value;
      OrderedIsSorted(t);
      match op
      case SetOp(k, v) =>
        SetKeepsBalance(t, k, v, version);
        SetKeepsOrder(t, k, v, version);
        SetUpsertsLeaves(t, k, v, version);
      case RemoveOp(k) =>
        RemoveKeepsBalance(t, k, version);
        RemoveKeepsOrder(t, k, version);
        RemoveDeletesLeaf(t, k, version);
    }
    match op
    case SetOp(k, v) => MapOfUpsert(RootLeaves(root), Entry(k, v, version));
    case RemoveOp(k) => MapOfDelete(RootLeaves(root), k);
  }

  /** Every run of sets and removes keeps the tree ordered, balanced and exactly
      measured, and its leaves are those of the run on the list and on the map. */
  lemma {:induction false} RunKeepsInvariant(root: Option<Tree>, ops: seq<(Op, nat)>)
    requires WellFormedRoot(root)
    ensures WellFormedRoot(Run(root, ops))
    ensures RootLeaves(Run(root, ops)) == RunList(RootLeaves(root), ops)
    ensures ToMap(RootLeaves(Run(root, ops))) == RunMap(ToMap(RootLeaves(root)), ops)
    decreases |ops|
  {
    if ops != [] {
      OpKeepsInvariant(root, ops[0].0, ops[0].1);
      RunKeepsInvariant(ApplyOp(root, ops[0].0, ops[0].1), ops[1..]);
    }
  }

  // --------------------------------------------------- which nodes are new

  ghost function Nodes(t: Tree): set<Tree> {
    match t
    case Leaf(_, _, _) => {t}
    case Branch(_, _, _, _, l, r) => {t} + Nodes(l) + Nodes(r)
  }

  /** All nodes of `t` outside the set `base` carry `version`. */
  ghost predicate NewOrIn(t: Tree, base: set<Tree>, version: nat) {
    forall n :: n in Nodes(t) ==> n in base || n.version == version
  }

  lemma {:induction false} JoinStampsNew(key: Bytes, version: nat, l: Tree, r: Tree, base: set<Tree>)
    requires NewOrIn(l, base, version) && NewOrIn(r, base, version)
    ensures NewOrIn(Join(key, version, l, r), base, version)
  {
  }

  lemma {:induction false} ReBalanceStampsNew(t: Tree, version: nat, base: set<Tree>)
    requires t.Branch? && Exact(t) && t.version == version
    requires NewOrIn(t.left, base, version) && NewOrIn(t.right, base, version)
    ensures NewOrIn(ReBalance(t, version), base, version)
    ensures ReBalance(t, version).version == version
  {
    var l, r := t.left, t.right;
    if Balance(t) > 1 {
      assert Exact(l);
      if Balance(l) >= 0 {
        JoinStampsNew(t.key, version, l.right, r, base);
        JoinStampsNew(l.key, version, l.left, Join(t.key, version, l.right, r), base);
      } else {
        var m := l.right;
        assert Exact(m) && NewOrIn(m, base, version);
        var a, b := Join(l.key, version, l.left, m.left), Join(t.key, version, m.right, r);
        JoinStampsNew(l.key, version, l.left, m.left, base);
        JoinStampsNew(t.key, version, m.right, r, base);
        JoinStampsNew(m.key, version, a, b, base);
        assert ReBalance(t, version) == Join(m.key, version, a, b);
      }
    } else if Balance(t) < -1 {
      assert Exact(r);
      if Balance(r) <= 0 {
        JoinStampsNew(t.key, version, l, r.left, base);
        JoinStampsNew(r.key, version, Join(t.key, version, l, r.left), r.right, base);
      } else {
        var m := r.left;
        assert Exact(m) && NewOrIn(m, base, version);
        var a, b := Join(t.key, version, l, m.left), Join(r.key, version, m.right, r.right);
        JoinStampsNew(t.key, version, l, m.left, base);
        JoinStampsNew(r.key, version, m.right, r.right, base);
        JoinStampsNew(m.key, version, a, b, base);
        assert ReBalance(t, version) == Join(m.key, version, a, b);
      }
    }
  }

  /** A set rewrites no node silently: whatever does not carry the new version is a
      subtree of the old tree, unchanged. */
  lemma {:induction false} SetStampsNew(t: Tree, key: Bytes, value: Bytes, version: nat)
    requires Exact(t)
    ensures var r := SetNode(t, key, value, version).0;
      r.version == version && NewOrIn(r, Nodes(t), version)
  {
    if t.Branch? {
      if Less(key, t.key) {
        SetStampsNew(t.left, key, value, version);
        var l := SetNode(t.left, key, value, version);
        if !l.1 { ReBalanceStampsNew(Join(t.key, version, l.0, t.right), version, Nodes(t)); }
      } else {
        SetStampsNew(t.right, key, value, version);
        var r := SetNode(t.right, key, value, version);
        if !r.1 { ReBalanceStampsNew(Join(t.key, version, t.left, r.0), version, Nodes(t)); }
      }
    }
  }

  lemma {:induction false} RemoveStampsNew(t: Tree, key: Bytes, version: nat)
    requires Exact(t)
    ensures var r := RemoveNode(t, key, version).node;
      r.Some? ==> NewOrIn(r.value, Nodes(t), version)
  {
    if t.Branch? {
      if Less(key, t.key) {
        RemoveStampsNew(t.left, key, version);
        var sub := RemoveNode(t.left, key, version);
        if sub.value.Some? && sub.node.Some? {
          ReBalanceStampsNew(Join(t.key, version, sub.node.value, t.right), version, Nodes(t));
        }
      } else {
        RemoveStampsNew(t.right, key, version);
        var sub := RemoveNode(t.right, key, version);
        if sub.value.Some? && sub.node.Some? {
          var k := if sub.newKey.Some? then sub.newKey.value else t.key;
          ReBalanceStampsNew(Join(k, version, t.left, sub.node.value), version, Nodes(t));
        }
      }
    }
  }

  // ------------------------------------------------------ the height bound

  /** The fewest leaves of a balanced tree of a given height. */
  function MinLeaves(height: nat): (n: nat)
    ensures n >= 1
  {
    if height == 0 then 1 else if height == 1 then 2 else MinLeaves(height - 1) + MinLeaves(height - 2)
  }

  lemma {:induction false} BalancedHasMinLeaves(t: Tree)
    requires Exact(t) && Balanced(t)
    ensures MinLeaves(t.Height()) <= t.Size()
  {
    if t.Branch? {
      BalancedHasMinLeaves(t.left);
      BalancedHasMinLeaves(t.right);
      var hl, hr := t.left.Height(), t.right.Height();
      MinLeavesGrows(Max(hl, hr));
    }
  }

  lemma MinLeavesGrows(h: nat)
    ensures MinLeaves(h) < MinLeaves(h + 1)
  {
  }

  lemma {:induction false} MinLeavesMonotone(h: nat, k: nat)
    requires h <= k
    ensures MinLeaves(h) <= MinLeaves(k)
    decreases k - h
  {
    if h < k {
      MinLeavesGrows(h);
      MinLeavesMonotone(h + 1, k);
    }
  }

  lemma MinLeavesAt46()
    ensures MinLeaves(46) == 4807526976
  {
    assert MinLeaves(10) == 144 && MinLeaves(11) == 233;
    assert MinLeaves(20) == 17711 && MinLeaves(21) == 28657;
    assert MinLeaves(30) == 2178309 && MinLeaves(31) == 3524578;
    assert MinLeaves(40) == 267914296 && MinLeaves(41) == 433494437;
  }

  /** A balanced tree of fewer than 2^32 leaves is at most 45 high. */
  lemma HeightAtMost45(t: Tree)
    requires Exact(t) && Balanced(t) && t.Size() < TWO_32
    ensures t.Height() <= 45
  {
    hide MinLeaves, Exact, Balanced;
    BalancedHasMinLeaves(t);
    MinLeavesAt46();
    if t.Height() > 45 { MinLeavesMonotone(46, t.Height()); }
  }
}
