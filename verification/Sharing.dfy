/** What a tree that shares nodes with another shows after the other updates a value. */
module Sharing {
  import opened Bytes
  import opened Iavl
  import opened IavlContents
  import opened Hashing
  import opened MemTree

  /** There is an owned node on the path of a key. */
  ghost predicate InPlace(a: Layout, key: Bytes, cow: nat) {
    !a.OnDisk? && (a.version > cow ||
      (a.BranchAt? && if Less(key, a.key) then InPlace(a.left, key, cow) else InPlace(a.right, key, cow)))
  }

  /** The nodes that are not owned. */
  ghost function Unowned(a: Layout, cow: nat): (s: set<MemNode>)
    ensures s <= Refs(a)
  {
    match a
    case OnDisk(_, _, _) => {}
    case LeafAt(ref, _, _, ver) => if ver > cow then {} else {ref}
    case BranchAt(ref, _, _, _, ver, l, r) => (if ver > cow then {} else {ref}) + Unowned(l, cow) + Unowned(r, cow)
  }

  lemma {:induction false} UnownedApart(a: Layout, cow: nat)
    requires Distinct(a)
    ensures Unowned(a, cow) !! Owned(a, cow)
  {
    if a.BranchAt? {
      UnownedApart(a.left, cow);
      UnownedApart(a.right, cow);
    }
  }

  /** The nodes that are not owned are as the layout says, with their hashes. */
  ghost predicate Rests(a: Layout, cow: nat, h: Hasher)
    reads Unowned(a, cow)
  {
    && (!a.OnDisk? && a.version <= cow ==>
        a.ref.Fields() == CellOf(a) && (a.ref.hash.Some? ==> a.ref.hash.value == HashOf(Abs(a), h)))
    && (a.BranchAt? ==> Rests(a.left, cow, h) && Rests(a.right, cow, h))
  }

  lemma {:induction false} GoodRests(a: Layout, cow: nat, h: Hasher)
    requires Holds(a) && Memo(a, h)
    ensures Rests(a, cow, h)
  {
    if a.BranchAt? {
      GoodRests(a.left, cow, h);
      GoodRests(a.right, cow, h);
    }
  }

  /** What the old root shows, once `b` has updated the value of a key. */
  ghost function Shown(a: Layout, b: Layout, key: Bytes, cow: nat): Layout
    requires Beside(a, b, key, cow)
  {
    if a.OnDisk? then a
    else if a.version > cow then b
    else if a.LeafAt? then a
    else if Less(key, a.key) then a.(left := Shown(a.left, b.left, key, cow))
    else a.(right := Shown(a.right, b.right, key, cow))
  }

  /** The tree that it shows: updated from the first owned node on. */
  ghost function ShownTree(a: Layout, key: Bytes, value: Bytes, version: nat, cow: nat): Tree
    requires Exact(Abs(a))
  {
    if a.OnDisk? then Abs(a)
    else if a.version > cow then SetNode(Abs(a), key, value, version).0
    else if a.LeafAt? then Abs(a)
    else if Less(key, a.key) then Abs(a).(left := ShownTree(a.left, key, value, version, cow))
    else Abs(a).(right := ShownTree(a.right, key, value, version, cow))
  }

  lemma {:induction false} ShownIs(a: Layout, b: Layout, key: Bytes, value: Bytes, version: nat, cow: nat)
    requires Exact(Abs(a)) && Beside(a, b, key, cow) && (Abs(b), true) == SetNode(Abs(a), key, value, version)
    ensures Abs(Shown(a, b, key, cow)) == ShownTree(a, key, value, version, cow)
    ensures Root(Shown(a, b, key, cow)) == Root(a)
    ensures ShownTree(a, key, value, version, cow).Height() == Abs(a).Height()
    ensures ShownTree(a, key, value, version, cow).Size() == Abs(a).Size()
    ensures Exact(ShownTree(a, key, value, version, cow))
    decreases a
  {
    if a.BranchAt? && a.version <= cow {
      SetBranchIs(Abs(a), key, value, version);
      if Less(key, a.key) {
        ShownIs(a.left, b.left, key, value, version, cow);
      } else {
        ShownIs(a.right, b.right, key, value, version, cow);
      }
    }
  }

  /** The old root still stands for a tree. */
  lemma {:induction false} ShownHolds(a: Layout, b: Layout, key: Bytes, cow: nat, h: Hasher)
    requires Beside(a, b, key, cow) && Distinct(a) && Backed(a, h) && Rests(a, cow, h)
    requires Holds(b) && Distinct(b) && Backed(b, h)
    ensures var s := Shown(a, b, key, cow);
      && Holds(s) && Distinct(s) && Backed(s, h) && Refs(s) <= Refs(a) + Refs(b)
    decreases a
  {
    if a.BranchAt? && a.version <= cow {
      if Less(key, a.key) {
        ShownHolds(a.left, b.left, key, cow, h);
      } else {
        ShownHolds(a.right, b.right, key, cow, h);
      }
    }
  }

  lemma {:induction false} ShownFinds(a: Layout, key: Bytes, value: Bytes, version: nat, cow: nat)
    requires Exact(Abs(a)) && Ordered(Abs(a)) && InPlace(a, key, cow)
    ensures Find(Leaves(ShownTree(a, key, value, version, cow)), key) == Some(value)
    decreases a
  {
    if a.version > cow {
      SetUpsertsLeaves(Abs(a), key, value, version);
      UpsertFinds(Leaves(Abs(a)), Entry(key, value, version));
    } else if Less(key, a.key) {
      ShownFinds(a.left, key, value, version, cow);
      FoundFirst(Leaves(ShownTree(a.left, key, value, version, cow)), Leaves(Abs(a.right)), key);
    } else {
      ShownFinds(a.right, key, value, version, cow);
      BranchKeySplits(Abs(a));
      FoundNotBefore(Leaves(Abs(a.left)), Leaves(ShownTree(a.right, key, value, version, cow)), key);
    }
  }

  lemma {:induction false} UpsertFinds(s: seq<Entry>, e: Entry)
    ensures Find(Upsert(s, e), e.key) == Some(e.value)
  {
    MapOfUpsert(s, e);
    MapOfFind(Upsert(s, e), e.key);
  }

  lemma FoundFirst(a: seq<Entry>, b: seq<Entry>, key: Bytes)
    requires Find(a, key).Some?
    ensures Find(a + b, key) == Find(a, key)
    decreases |a|
  {
    assert a != [];
    assert (a + b)[1..] == a[1..] + b;
    if a[0].key != key { FoundFirst(a[1..], b, key); }
  }

  lemma FoundNotBefore(a: seq<Entry>, b: seq<Entry>, key: Bytes)
    requires forall i :: 0 <= i < |a| ==> a[i].key != key
    ensures Find(a + b, key) == Find(b, key)
  {
    DeletePrefix(a, b, key);
  }

  /** Without an owned node on the path nothing is different. */
  lemma {:induction false} ShownSame(a: Layout, b: Layout, key: Bytes, cow: nat)
    requires Beside(a, b, key, cow) && !InPlace(a, key, cow)
    ensures Shown(a, b, key, cow) == a
    decreases a
  {
    if a.BranchAt? {
      if Less(key, a.key) { ShownSame(a.left, b.left, key, cow); } else { ShownSame(a.right, b.right, key, cow); }
    }
  }

  lemma {:induction false} SameGood(a: Layout, b: Layout, key: Bytes, cow: nat, h: Hasher)
    requires Beside(a, b, key, cow) && !InPlace(a, key, cow) && Rests(a, cow, h) && Memo(b, h)
    ensures Memo(a, h)
    decreases a
  {
    if a.BranchAt? {
      if Less(key, a.key) { SameGood(a.left, b.left, key, cow, h); } else { SameGood(a.right, b.right, key, cow, h); }
    }
  }

  /** Every owned node is on the path of a key of the tree. */
  lemma {:induction false} OwnedHasKey(a: Layout, cow: nat) returns (key: Bytes)
    requires Ordered(Abs(a)) && Owned(a, cow) != {}
    ensures Find(Leaves(Abs(a)), key).Some? && InPlace(a, key, cow)
    decreases a
  {
    if a.version > cow {
      key := Leaves(Abs(a))[0].key;
    } else {
      BranchKeySplits(Abs(a));
      var l, r := Leaves(Abs(a.left)), Leaves(Abs(a.right));
      if Owned(a.left, cow) != {} {
        key := OwnedHasKey(a.left, cow);
        FoundFirst(l, r, key);
        KeyFound(l, key);
      } else {
        key := OwnedHasKey(a.right, cow);
        KeyFound(r, key);
        FoundNotBefore(l, r, key);
      }
    }
  }

  lemma KeyFound(s: seq<Entry>, key: Bytes)
    requires Find(s, key).Some?
    ensures exists i :: 0 <= i < |s| && s[i].key == key
    decreases |s|
  {
    assert s != [];
    if s[0].key != key {
      KeyFound(s[1..], key);
      var i :| 0 <= i < |s[1..]| && s[1..][i].key == key;
      assert s[i + 1].key == key;
    }
  }

  lemma {:induction false} InPlaceIsOwned(a: Layout, key: Bytes, cow: nat)
    requires InPlace(a, key, cow)
    ensures Owned(a, cow) != {}
    decreases a
  {
    if a.version <= cow {
      if Less(key, a.key) { InPlaceIsOwned(a.left, key, cow); } else { InPlaceIsOwned(a.right, key, cow); }
    } else {
      assert a.ref in Owned(a, cow);
    }
  }
}
