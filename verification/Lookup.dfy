/** Lookups by key and by rank, over any mix of memory and persisted nodes. */
module Lookup {
  import opened Bytes
  import opened Iavl
  import opened IavlContents
  import opened Hashing
  import opened Snapshots
  import opened SnapshotProps
  import opened MemTree

  // ----------------------------------------------------- the specification

  /** How many keys are smaller. */
  function Rank(s: seq<Entry>, key: Bytes): (n: nat)
    ensures n <= |s|
  {
    if s == [] then 0 else (if Less(s[0].key, key) then 1 else 0) + Rank(s[1..], key)
  }

  lemma {:induction false} RankAppend(a: seq<Entry>, b: seq<Entry>, key: Bytes)
    ensures Rank(a + b, key) == Rank(a, key) + Rank(b, key)
  {
    if a == [] {
      assert a + b == b;
    } else {
      RankAppend(a[1..], b, key);
      assert (a + b)[1..] == a[1..] + b;
    }
  }

  lemma {:induction false} RankAllBelow(s: seq<Entry>, key: Bytes)
    requires forall i :: 0 <= i < |s| ==> Less(s[i].key, key)
    ensures Rank(s, key) == |s|
  {
    if s != [] { RankAllBelow(s[1..], key); }
  }

  lemma {:induction false} RankNoneBelow(s: seq<Entry>, key: Bytes)
    requires forall i :: 0 <= i < |s| ==> !Less(s[i].key, key)
    ensures Rank(s, key) == 0
  {
    if s != [] { RankNoneBelow(s[1..], key); }
  }

  /** A position with smaller keys before it and none after it is the rank. */
  lemma {:induction false} RankIs(s: seq<Entry>, key: Bytes, n: nat)
    requires n <= |s|
    requires forall i :: 0 <= i < n ==> Less(s[i].key, key)
    requires forall i :: n <= i < |s| ==> !Less(s[i].key, key)
    ensures Rank(s, key) == n
  {
    assert s == s[..n] + s[n..];
    RankAppend(s[..n], s[n..], key);
    RankAllBelow(s[..n], key);
    RankNoneBelow(s[n..], key);
  }

  /** The rank of a sorted sequence divides it. */
  lemma {:induction false} RankDivides(s: seq<Entry>, key: Bytes)
    requires Sorted(s)
    ensures forall i :: 0 <= i < Rank(s, key) ==> Less(s[i].key, key)
    ensures forall i :: Rank(s, key) <= i < |s| ==> !Less(s[i].key, key)
  {
    if s != [] {
      RankDivides(s[1..], key);
      if !Less(s[0].key, key) {
        forall i | 0 <= i < |s|
          ensures !Less(s[i].key, key)
        {
          if i > 0 && Less(s[i].key, key) { LessTransitive(s[0].key, s[i].key, key); }
        }
        RankNoneBelow(s, key);
      }
    }
  }

  /** Looking up by the rank of a key that is present finds that key. */
  lemma {:induction false} RankFinds(s: seq<Entry>, key: Bytes)
    requires Sorted(s)
    ensures Find(s, key).Some? <==> Rank(s, key) < |s| && s[Rank(s, key)].key == key
    ensures Find(s, key).Some? ==> Find(s, key) == Some(s[Rank(s, key)].value)
  {
    var n := Rank(s, key);
    RankDivides(s, key);
    if n < |s| && s[n].key == key {
      forall i | 0 <= i < n
        ensures s[i].key != key
      {
        CompareFlips(s[i].key, key);
      }
      assert s == s[..n] + s[n..];
      DeletePrefix(s[..n], s[n..], key);
    } else {
      forall i | 0 <= i < |s|
        ensures s[i].key != key
      {
        CompareFlips(s[i].key, key);
        assert n < i ==> Less(s[n].key, s[i].key);
      }
      assert s + [] == s;
      DeletePrefix(s, [], key);
    }
  }

  // -------------------------------------------------------- binary search

  ghost predicate LeavesAt(s: Snapshot, start: nat, es: seq<Entry>) {
    && start + |es| <= |s.leaves|
    && forall j :: 0 <= j < |es| ==> es[j] == s.leaves[start + j].entry
  }

  lemma LeafAtIndex(s: Snapshot, start: nat, es: seq<Entry>, i: nat)
    requires LeavesAt(s, start, es) && i < |es|
    ensures start + i < |s.leaves| && s.leaves[start + i].entry == es[i]
  {
    assert es[i] == s.leaves[start + i].entry;
  }

  /** Binary search in the leaf records of a persisted subtree, whose leaves are `es`. */
  method SearchLeaves(s: Snapshot, start: nat, count: nat, key: Bytes, ghost es: seq<Entry>) returns (i: nat)
    requires |es| == count && Sorted(es) && LeavesAt(s, start, es)
    ensures i == Rank(es, key)
  {
    var hi := count;
    i := 0;
    while i < hi
      invariant 0 <= i <= hi <= count
      invariant forall j :: 0 <= j < i ==> Less(es[j].key, key)
      invariant forall j :: hi <= j < count ==> !Less(es[j].key, key)
    {
      var mid := (i + hi) / 2;
      LeafAtIndex(s, start, es, mid);
      if Less(s.leaves[start + mid].entry.key, key) {
        BelowMid(es, mid, key);
        i := mid + 1;
      } else {
        AboveMid(es, mid, key);
        hi := mid;
      }
    }
    RankIs(es, key, i);
  }

  lemma BelowMid(es: seq<Entry>, mid: nat, key: Bytes)
    requires Sorted(es) && mid < |es| && Less(es[mid].key, key)
    ensures forall j :: 0 <= j <= mid ==> Less(es[j].key, key)
  {
    forall j | 0 <= j < mid
      ensures Less(es[j].key, key)
    {
      LessTransitive(es[j].key, es[mid].key, key);
    }
  }

  lemma AboveMid(es: seq<Entry>, mid: nat, key: Bytes)
    requires Sorted(es) && mid < |es| && !Less(es[mid].key, key)
    ensures forall j :: mid <= j < |es| ==> !Less(es[j].key, key)
  {
    forall j | mid < j < |es|
      ensures !Less(es[j].key, key)
    {
      if Less(es[j].key, key) { LessTransitive(es[mid].key, es[j].key, key); }
    }
  }

  // --------------------------------------------------------------- by key

  /** The first leaf of a persisted node and the number of its leaves. */
  function LeafRange(p: PersistedNode): (int, nat)
    requires View(p) != Missing
  {
    if p.isLeaf then (p.index, 1)
    else
      var data := View(p).info;
      (StartLeaf(p.index, data.size, data.preTrees), data.size)
  }

  /** Where the leaves of a persisted subtree are found. */
  lemma {:induction false} PersistedLeaves(p: PersistedNode, t: Tree, from: nat, h: Hasher)
    requires Exact(t) && Ordered(t) && Stores(p, t, from, h)
    ensures View(p) != Missing && Sorted(Leaves(t)) && |Leaves(t)| == t.Size()
    ensures LeafRange(p) == (from, t.Size())
    ensures LeavesAt(p.snapshot, from, Leaves(t))
  {
    StoredView(p, t, from, h);
    OrderedIsSorted(t);
    ExactSizes(t);
    if !p.isLeaf { ChildrenFound(p, t, from, h); }
    StoredLeaves(p, t, from, h, t.Size() - 1);
    forall j | 0 <= j < t.Size()
      ensures from + j < |p.snapshot.leaves| && p.snapshot.leaves[from + j].entry == Leaves(t)[j]
    {
      StoredLeaves(p, t, from, h, j);
    }
  }

  /** The value of a key, and its rank as a 32-bit number, in a persisted subtree. */
  method GetPersisted(p: PersistedNode, key: Bytes, ghost t: Tree, ghost from: nat, ghost h: Hasher)
    returns (value: Option<Bytes>, index: nat)
    requires Exact(t) && Ordered(t) && Stores(p, t, from, h)
    ensures value == Find(Leaves(t), key) && index == Rank(Leaves(t), key)
  {
    ghost var es := Leaves(t);
    PersistedLeaves(p, t, from, h);
    RankFinds(es, key);
    hide Stores, View, Exact, Ordered, Leaves, Find, Rank, Less, LeafRange, Sorted, LeavesAt;
    var (start, count) := LeafRange(p);
    index := SearchLeaves(p.snapshot, start, count, key, es);
    if index >= count {
      value := None;
    } else {
      LeafAtIndex(p.snapshot, start, es, index);
      var e := p.snapshot.leaves[start + index].entry;
      value := if e.key == key then Some(e.value) else None;
    }
  }

  /** The value of a key and its rank, modulo the width of a 32-bit number. */
  method Get(n: Node, key: Bytes, ghost a: Layout, ghost h: Hasher) returns (value: Option<Bytes>, index: nat)
    requires n == Root(a) && Good(a, h) && Ordered(Abs(a))
    ensures value == Find(Leaves(Abs(a)), key)
    ensures index == U32(Rank(Leaves(Abs(a)), key))
    decreases Abs(a)
  {
    GoodRoot(a, h);
    InspectAgrees(a, h);
    match n
    case Disk(p) =>
      value, index := GetPersisted(p, key, a.t, a.start, h);
      ExactSizes(a.t);
    case Mem(m) =>
      if m.height == 0 {
        CompareFlips(m.key, key);
        if Less(m.key, key) {
          return None, 1;
        } else if Less(key, m.key) {
          return None, 0;
        } else {
          return Some(m.value), 0;
        }
      } else {
        value, index := GetBranch(m, key, a, h);
      }
  }

  lemma {:induction false} BranchLeaves(a: Layout, l: Layout, r: Layout, h: Hasher)
    requires a.BranchAt? && Good(a, h) && Ordered(Abs(a)) && l == a.left && r == a.right
    ensures Good(l, h) && Good(r, h) && Abs(l) == Abs(a).left && Abs(r) == Abs(a).right
    ensures Leaves(Abs(a)) == Leaves(Abs(l)) + Leaves(Abs(r))
    ensures Ordered(Abs(l)) && Ordered(Abs(r))
    ensures forall i :: 0 <= i < |Leaves(Abs(l))| ==> Less(Leaves(Abs(l))[i].key, Abs(a).key)
    ensures forall i :: 0 <= i < |Leaves(Abs(r))| ==> !Less(Leaves(Abs(r))[i].key, Abs(a).key)
    ensures a.ref.key == Abs(a).key && a.ref.left == Root(l) && a.ref.right == Root(r)
    ensures a.ref.size == |Leaves(Abs(l))| + |Leaves(Abs(r))|
    ensures (l.OnDisk? ==> View(l.p) != Missing) && Inspect(Root(l)).size == |Leaves(Abs(l))|
    ensures (r.OnDisk? ==> View(r.p) != Missing) && Inspect(Root(r)).size == |Leaves(Abs(r))|
  {
    GoodRoot(l, h);
    InspectAgrees(l, h);
    GoodRoot(r, h);
    InspectAgrees(r, h);
    BranchKeySplits(Abs(a));
    ExactSizes(Abs(l));
    ExactSizes(Abs(r));
  }

  method GetBranch(m: MemNode, key: Bytes, ghost a: Layout, ghost h: Hasher) returns (value: Option<Bytes>, index: nat)
    requires Mem(m) == Root(a) && Good(a, h) && Ordered(Abs(a)) && Abs(a).Branch?
    ensures value == Find(Leaves(Abs(a)), key)
    ensures index == U32(Rank(Leaves(Abs(a)), key))
    decreases Abs(a), 0
  {
    ghost var l, r := a.left, a.right;
    ghost var x, y := Leaves(Abs(l)), Leaves(Abs(r));
    BranchLeaves(a, l, r, h);
    hide Good, RootHolds, Refs, Abs, Leaves, Exact, Ordered, Rank, Find, Less, U32, Shift;
    if Less(key, m.key) {
      KeyIsLeft(x, y, Abs(a).key, key);
      value, index := Get(m.left, key, l, h);
      return;
    } else {
      KeyIsRight(x, y, Abs(a).key, key);
      var size, rightSize := m.size, Inspect(m.right).size;
      ShiftAdds(Rank(y, key), |x|, rightSize, size, Rank(Leaves(Abs(a)), key));
      var v, i := Get(m.right, key, r, h);
      return v, Shift(i, size, rightSize);
    }
  }

  lemma KeyIsLeft(x: seq<Entry>, y: seq<Entry>, k: Bytes, key: Bytes)
    requires forall i :: 0 <= i < |y| ==> !Less(y[i].key, k)
    requires Less(key, k)
    ensures Find(x + y, key) == Find(x, key) && Rank(x + y, key) == Rank(x, key)
  {
    LessIsTotalOrder();
    RankAppend(x, y, key);
    RankNoneBelow(y, key);
    DeleteSuffix(x, y, key);
  }

  lemma KeyIsRight(x: seq<Entry>, y: seq<Entry>, k: Bytes, key: Bytes)
    requires forall i :: 0 <= i < |x| ==> Less(x[i].key, k)
    requires !Less(key, k)
    ensures Find(x + y, key) == Find(y, key) && Rank(x + y, key) == |x| + Rank(y, key)
  {
    LessIsTotalOrder();
    RankAppend(x, y, key);
    RankAllBelow(x, key);
    DeletePrefix(x, y, key);
  }

  /** The rank within a right subtree, made the rank within the whole, in 32-bit words. */
  function Shift(i: nat, size: nat, rightSize: nat): nat {
    U32(i + U32(size) - U32(rightSize))
  }

  /** 32-bit addition and subtraction keep a sum right modulo the width. */
  lemma ShiftAdds(i: nat, l: nat, r: nat, size: nat, total: nat)
    requires size == l + r && total == l + i
    ensures Shift(U32(i), size, r) == U32(total)
  {
    var s := U32(i) + U32(l + r) - U32(r);
    assert U32(i) == i % TWO_32 && U32(l + r) == (l + r) % TWO_32 && U32(r) == r % TWO_32;
    assert (l + i) - s == (i - i % TWO_32) + ((l + r) - (l + r) % TWO_32) - (r - r % TWO_32);
    assert (l + i) - s == TWO_32 * (i / TWO_32 + (l + r) / TWO_32 - r / TWO_32);
    SameResidue(s, l + i, i / TWO_32 + (l + r) / TWO_32 - r / TWO_32);
  }

  lemma SameResidue(a: int, b: int, q: int)
    requires b - a == TWO_32 * q
    ensures U32(a) == U32(b)
  {
    assert U32(a) == a % TWO_32 && U32(b) == b % TWO_32;
    assert b % TWO_32 == (a + TWO_32 * q) % TWO_32 == a % TWO_32;
  }

  // -------------------------------------------------------------- by rank

  function At(s: seq<Entry>, i: nat): Option<Entry> {
    if i < |s| then Some(s[i]) else None
  }

  /** The index of a leaf is added to the first leaf of a persisted branch in a 32-bit
      word; here that addition overflows. */
  ghost predicate Wraps(a: Layout, index: nat) {
    match a
    case OnDisk(p, start, _) => !p.isLeaf && start + index >= TWO_32
    case LeafAt(_, _, _, _) => false
    case BranchAt(_, _, _, _, _, l, r) =>
      if index < Abs(l).Size() then Wraps(l, index) else Wraps(r, index - Abs(l).Size())
  }

  /** No index up to and including the number of leaves overflows. */
  lemma {:induction false} NoWrapWithin(a: Layout, index: nat, h: Hasher)
    requires Shape(a, h) && index <= Abs(a).Size()
    ensures !Wraps(a, index)
  {
    if a.BranchAt? {
      if index < Abs(a.left).Size() { NoWrapWithin(a.left, index, h); }
      else { NoWrapWithin(a.right, index - Abs(a.left).Size(), h); }
    }
  }

  method GetByIndexPersisted(p: PersistedNode, index: nat, ghost t: Tree, ghost start: nat, ghost h: Hasher)
    returns (e: Option<Entry>)
    requires Exact(t) && Ordered(t) && Stores(p, t, start, h) && index < TWO_32
    ensures if Wraps(OnDisk(p, start, t), index) then e.Some? && index >= |Leaves(t)| else e == At(Leaves(t), index)
  {
    ghost var es := Leaves(t);
    PersistedLeaves(p, t, start, h);
    assert p.isLeaf == t.Leaf?;
    if p.isLeaf {
      LeafAtIndex(p.snapshot, start, es, 0);
      return if index != 0 then None else Some(p.snapshot.leaves[p.index].entry);
    }
    ChildrenFound(p, t, start, h);
    hide Leaves, LeavesAt, U32, Exact, Ordered;
    var data := View(p).info;
    var first := StartLeaf(p.index, data.size, data.preTrees);
    var last := EndLeaf(p.index, data.preTrees);
    e := LeafByIndex(p.snapshot, first, last, index, es);
  }

  method LeafByIndex(s: Snapshot, first: nat, last: nat, index: nat, ghost es: seq<Entry>) returns (e: Option<Entry>)
    requires |es| >= 1 && LeavesAt(s, first, es) && last == first + |es| - 1 && last < TWO_32 && index < TWO_32
    ensures if first + index >= TWO_32 then e.Some? && index >= |es| else e == At(es, index)
  {
    AddU32(first + index);
    LeafAtIndex(s, first, es, |es| - 1);
    if index < |es| { LeafAtIndex(s, first, es, index); }
    hide U32, LeavesAt;
    var i := U32(first + index);
    e := if i > last then None else Some(s.leaves[i].entry);
  }

  lemma AddU32(x: nat)
    requires x < 2 * TWO_32
    ensures U32(x) == if x < TWO_32 then x else x - TWO_32
  {
  }

  /** The leaf at a rank. It is right exactly when the 32-bit addition does not overflow,
      and then `None` past the end; otherwise some leaf is returned past the end. */
  method GetByIndex(n: Node, index: nat, ghost a: Layout, ghost h: Hasher) returns (e: Option<Entry>)
    requires n == Root(a) && Good(a, h) && Ordered(Abs(a))
    requires Abs(a).Size() < TWO_32 && index < TWO_32
    ensures e == At(Leaves(Abs(a)), index) <==> !Wraps(a, index)
    ensures Wraps(a, index) ==> e.Some? && index >= |Leaves(Abs(a))|
    decreases Abs(a)
  {
    GoodRoot(a, h);
    InspectAgrees(a, h);
    match n
    case Disk(p) =>
      e := GetByIndexPersisted(p, index, a.t, a.start, h);
    case Mem(m) =>
      if m.height == 0 {
        return if index == 0 then Some(Entry(m.key, m.value, m.version)) else None;
      }
      e := GetByIndexBranch(m, index, a, h);
  }

  /** The lookup by a signed index of 64 bits, which is cut to 32 bits unless it is too large.
      So a negative index finds the leaf at the index that is left of it, if there is one. */
  method GetByIndex64(root: Node, index: int, ghost a: Option<Layout>, ghost h: Hasher) returns (e: Option<Entry>)
    requires root == (if a.None? then Nil else Root(a.value))
    requires a.Some? ==> Good(a.value, h) && Ordered(Abs(a.value)) && Abs(a.value).Size() < TWO_32
    ensures a.None? || index >= TWO_32 ==> e == None
    ensures a.Some? && index < TWO_32 ==>
      (e == At(Leaves(Abs(a.value)), index % TWO_32) <==> !Wraps(a.value, index % TWO_32))
    ensures a.Some? && index < TWO_32 ==>
      (e.Some? <==> index % TWO_32 < |Leaves(Abs(a.value))| || Wraps(a.value, index % TWO_32))
  {
    if index >= TWO_32 || root == Nil {
      return None;
    }
    hide Good, Ordered, Leaves, Wraps;
    e := GetByIndex(root, index % TWO_32, a.value, h);
  }

  method GetByIndexBranch(m: MemNode, index: nat, ghost a: Layout, ghost h: Hasher) returns (e: Option<Entry>)
    requires Mem(m) == Root(a) && Good(a, h) && Ordered(Abs(a)) && Abs(a).Branch?
    requires Abs(a).Size() < TWO_32 && index < TWO_32
    ensures e == At(Leaves(Abs(a)), index) <==> !Wraps(a, index)
    ensures Wraps(a, index) ==> e.Some? && index >= |Leaves(Abs(a))|
    decreases Abs(a), 0
  {
    ghost var l, r := a.left, a.right;
    BranchLeaves(a, l, r, h);
    ByIndexSplits(a, index);
    hide Good, RootHolds, Refs, Abs, Leaves, Exact, Ordered, U32, At, Wraps;
    var leftSize := U32(Inspect(m.left).size);
    if index < leftSize {
      e := GetByIndex(m.left, index, l, h);
      return;
    }
    var rest := index - leftSize;
    ByIndexRight(a, index, rest);
    e := GetByIndex(m.right, rest, r, h);
  }

  lemma {:induction false} ByIndexSplits(a: Layout, index: nat)
    requires a.BranchAt? && Exact(Abs(a)) && Abs(a).Size() < TWO_32
    ensures |Leaves(Abs(a.left))| < TWO_32 && Abs(a.left).Size() < TWO_32 && Abs(a.right).Size() < TWO_32
    ensures |Leaves(Abs(a.left))| <= |Leaves(Abs(a))|
    ensures index < |Leaves(Abs(a.left))| ==> Wraps(a, index) == Wraps(a.left, index)
    ensures index < |Leaves(Abs(a.left))| ==> At(Leaves(Abs(a)), index) == At(Leaves(Abs(a.left)), index)
  {
    ExactSizes(Abs(a.left));
    ExactSizes(Abs(a.right));
  }

  lemma {:induction false} ByIndexRight(a: Layout, index: nat, rest: nat)
    requires a.BranchAt? && Exact(Abs(a)) && index == |Leaves(Abs(a.left))| + rest
    ensures Wraps(a, index) == Wraps(a.right, rest)
    ensures At(Leaves(Abs(a)), index) == At(Leaves(Abs(a.right)), rest)
    ensures rest >= |Leaves(Abs(a.right))| <==> index >= |Leaves(Abs(a))|
  {
    ExactSizes(Abs(a.left));
  }

  /** The overflow happens: in any snapshot whose root has a branch on its right, looking
      up the largest index in that branch returns a leaf. */
  lemma {:induction false} WrapHappens(t: Tree, h: Hasher)
    requires WellFormed(t) && t.Size() < TWO_32 && t.Branch? && t.right.Branch?
    ensures var p := RootNode(Emit(EmptySnapshot, t, h)).value;
      View(p).BranchView? && Wraps(OnDisk(Right(p), t.left.Size(), t.right), TWO_32 - 1)
  {
    ExactSizes(t.left);
    hide Exact, Ordered, Balanced, Emit, RootNode, View, Left, Right;
    SnapshotRoundTrip(t, h);
    var p := RootNode(Emit(EmptySnapshot, t, h)).value;
    ChildrenFound(p, t, 0, h);
  }
}
