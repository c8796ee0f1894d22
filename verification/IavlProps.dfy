/** What every set and remove keeps, and what they do to the ordered contents. */
module IavlProps {
  import opened Bytes
  import opened Iavl

  // -------------------------------------------------------------- balance

  lemma RotateRightBalances(t: Tree, version: nat)
    requires t.Branch? && Exact(t) && t.left.Branch? && Balanced(t.right)
    requires Balanced(t.left.left) && Balanced(t.left.right)
    requires Balance(t) == 2
    requires 0 <= Balance(t.left) <= 1
    ensures Balanced(RotateRight(t, version))
    ensures t.height - 1 <= RotateRight(t, version).height <= t.height
  {
    assert Exact(t.left);
  }

  lemma RotateLeftBalances(t: Tree, version: nat)
    requires t.Branch? && Exact(t) && t.right.Branch? && Balanced(t.left)
    requires Balanced(t.right.left) && Balanced(t.right.right)
    requires Balance(t) == -2
    requires -1 <= Balance(t.right) <= 0
    ensures Balanced(RotateLeft(t, version))
    ensures t.height - 1 <= RotateLeft(t, version).height <= t.height
  {
    assert Exact(t.right);
  }

  lemma DoubleRightBalances(t: Tree, version: nat)
    requires t.Branch? && Exact(t) && t.left.Branch? && t.left.right.Branch?
    requires Balanced(t.left) && Balanced(t.right)
    requires Balance(t) == 2 && Balance(t.left) == -1
    ensures Balanced(RotateRight(t.(left := RotateLeft(t.left.Stamp(version), version)), version))
    ensures RotateRight(t.(left := RotateLeft(t.left.Stamp(version), version)), version).height == t.height - 1
  {
    assert Exact(t.left) && Exact(t.left.right) && Balanced(t.left.right);
    var m := t.left.right;
    var l := Join(t.left.key, version, t.left.left, m.left);
    var r := Join(t.key, t.version, m.right, t.right);
    assert Balanced(l) && Balanced(r);
    assert RotateLeft(t.left.Stamp(version), version) == Join(m.key, version, l, m.right);
  }

  lemma DoubleLeftBalances(t: Tree, version: nat)
    requires t.Branch? && Exact(t) && t.right.Branch? && t.right.left.Branch?
    requires Balanced(t.left) && Balanced(t.right)
    requires Balance(t) == -2 && Balance(t.right) == 1
    ensures Balanced(RotateLeft(t.(right := RotateRight(t.right.Stamp(version), version)), version))
    ensures RotateLeft(t.(right := RotateRight(t.right.Stamp(version), version)), version).height == t.height - 1
  {
    assert Exact(t.right) && Exact(t.right.left) && Balanced(t.right.left);
    var m := t.right.left;
    var l := Join(t.key, t.version, t.left, m.left);
    var r := Join(t.right.key, version, m.right, t.right.right);
    assert Balanced(l) && Balanced(r);
    assert RotateRight(t.right.Stamp(version), version) == Join(m.key, version, m.left, r);
  }

  lemma ReBalanceRestoresBalance(t: Tree, version: nat)
    requires t.Branch? && Exact(t)
    requires Balanced(t.left) && Balanced(t.right)
    requires -2 <= Balance(t) <= 2
    ensures Balanced(ReBalance(t, version))
    ensures t.height - 1 <= ReBalance(t, version).height <= t.height
    ensures -1 <= Balance(t) <= 1 ==> ReBalance(t, version) == t
  {
    if Balance(t) > 1 {
      if Balance(t.left) >= 0 {
        RotateRightBalances(t, version);
      } else {
        DoubleRightBalances(t, version);
      }
    } else if Balance(t) < -1 {
      if Balance(t.right) <= 0 {
        RotateLeftBalances(t, version);
      } else {
        DoubleLeftBalances(t, version);
      }
    }
  }

  lemma {:induction false} SetKeepsBalance(t: Tree, key: Bytes, value: Bytes, version: nat)
    requires Exact(t) && Balanced(t)
    ensures Balanced(SetNode(t, key, value, version).0)
    ensures t.Height() <= SetNode(t, key, value, version).0.Height() <= t.Height() + 1
  {
    if t.Branch? {
      if Less(key, t.key) {
        SetKeepsBalance(t.left, key, value, version);
        var l := SetNode(t.left, key, value, version);
        if !l.1 { ReBalanceRestoresBalance(Join(t.key, version, l.0, t.right), version); }
      } else {
        SetKeepsBalance(t.right, key, value, version);
        var r := SetNode(t.right, key, value, version);
        if !r.1 { ReBalanceRestoresBalance(Join(t.key, version, t.left, r.0), version); }
      }
    }
  }

  lemma {:induction false} RemoveKeepsBalance(t: Tree, key: Bytes, version: nat)
    requires Exact(t) && Balanced(t)
    ensures var n := RemoveNode(t, key, version).node;
      if n.None? then t.Leaf? else Balanced(n.value) && t.Height() - 1 <= n.value.Height() <= t.Height()
  {
    if t.Branch? {
      if Less(key, t.key) {
        RemoveKeepsBalance(t.left, key, version);
        var sub := RemoveNode(t.left, key, version);
        if sub.value.Some? && sub.node.Some? {
          ReBalanceRestoresBalance(Join(t.key, version, sub.node.value, t.right), version);
        }
      } else {
        RemoveKeepsBalance(t.right, key, version);
        var sub := RemoveNode(t.right, key, version);
        if sub.value.Some? && sub.node.Some? {
          var k := if sub.newKey.Some? then sub.newKey.value else t.key;
          ReBalanceRestoresBalance(Join(k, version, t.left, sub.node.value), version);
        }
      }
    }
  }

  // ---------------------------------------------------------- search order

  lemma FirstBeforeLast(t: Tree)
    requires Ordered(t)
    ensures FirstKey(t) == LastKey(t) || Less(FirstKey(t), LastKey(t))
    ensures t.Branch? ==> Less(FirstKey(t), t.key) && !Less(LastKey(t), t.key)
  {
    LessIsTotalOrder();
    if t.Branch? {
      FirstBeforeLast(t.left);
      FirstBeforeLast(t.right);
    }
  }

  lemma ReBalanceKeepsOrder(t: Tree, version: nat)
    requires t.Branch? && Exact(t) && Ordered(t)
    ensures Ordered(ReBalance(t, version))
    ensures FirstKey(ReBalance(t, version)) == FirstKey(t)
    ensures LastKey(ReBalance(t, version)) == LastKey(t)
  {
    if Balance(t) > 1 {
      assert Exact(t.left) && Ordered(t.left);
      if Balance(t.left) < 0 {
        assert Exact(t.left.right) && Ordered(t.left.right);
      }
    } else if Balance(t) < -1 {
      assert Exact(t.right) && Ordered(t.right);
      if Balance(t.right) > 0 {
        assert Exact(t.right.left) && Ordered(t.right.left);
      }
    }
  }

  lemma {:induction false} SetKeepsOrder(t: Tree, key: Bytes, value: Bytes, version: nat)
    requires Exact(t) && Ordered(t)
    ensures var r := SetNode(t, key, value, version).0;
      && Ordered(r)
      && FirstKey(r) == (if Less(key, FirstKey(t)) then key else FirstKey(t))
      && LastKey(r) == (if Less(LastKey(t), key) then key else LastKey(t))
  {
    LessIsTotalOrder();
    if t.Branch? {
      FirstBeforeLast(t);
      if Less(key, t.key) {
        SetKeepsOrder(t.left, key, value, version);
        var l := SetNode(t.left, key, value, version);
        if !l.1 { ReBalanceKeepsOrder(Join(t.key, version, l.0, t.right), version); }
      } else {
        SetKeepsOrder(t.right, key, value, version);
        var r := SetNode(t.right, key, value, version);
        if !r.1 { ReBalanceKeepsOrder(Join(t.key, version, t.left, r.0), version); }
      }
    }
  }

  /** Besides the order: `newKey` is reported exactly when the smallest key went away
      and something is left, and then it is the new smallest key. */
  lemma {:induction false} RemoveKeepsOrder(t: Tree, key: Bytes, version: nat)
    requires Exact(t) && Ordered(t)
    ensures var r := RemoveNode(t, key, version);
      r.node.Some? ==>
        && Ordered(r.node.value)
        && r.newKey == (if r.value.Some? && key == FirstKey(t) then Some(FirstKey(r.node.value)) else None)
        && (r.newKey.None? ==> FirstKey(r.node.value) == FirstKey(t))
        && !Less(FirstKey(r.node.value), FirstKey(t))
        && !Less(LastKey(t), LastKey(r.node.value))
  {
    LessIsTotalOrder();
    if t.Branch? {
      FirstBeforeLast(t);
      FirstBeforeLast(t.left);
      FirstBeforeLast(t.right);
      if Less(key, t.key) {
        RemoveKeepsOrder(t.left, key, version);
        var sub := RemoveNode(t.left, key, version);
        if sub.value.Some? && sub.node.Some? {
          ReBalanceKeepsOrder(Join(t.key, version, sub.node.value, t.right), version);
        } else if sub.value.Some? {
          assert t.left.Leaf?;
        }
      } else {
        RemoveKeepsOrder(t.right, key, version);
        var sub := RemoveNode(t.right, key, version);
        if sub.value.Some? && sub.node.Some? {
          var k := if sub.newKey.Some? then sub.newKey.value else t.key;
          ReBalanceKeepsOrder(Join(k, version, t.left, sub.node.value), version);
        }
      }
    }
  }
}
