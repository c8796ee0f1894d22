/** Versioned trees as values: what a tree object stands for. */
module TreeStates {
  import opened Bytes
  import opened Iavl
  import opened IavlContents

  /** `dirty` says that the tree was written to since its version was last saved. */
  datatype State = State(version: nat, root: Option<Tree>, dirty: bool)

  ghost predicate NoNewer(t: Tree, version: nat) {
    forall n :: n in Nodes(t) ==> n.version <= version
  }

  /** A search tree in balance, none of whose nodes is newer than its version, or than
      the version being written. */
  ghost predicate Sound(s: State) {
    && s.version < TWO_32
    && WellFormedRoot(s.root)
    && (s.root.Some? ==> NoNewer(s.root.value, if s.dirty then s.version + 1 else s.version))
  }

  function Edited(s: State, op: Op): State
    requires s.root.Some? ==> Exact(s.root.value)
  {
    State(s.version, ApplyOp(s.root, op, U32(s.version + 1)), true)
  }

  /** The highest version cannot be followed by another. */
  function Saved(s: State): State {
    if s.version == TWO_32 - 1 then s else State(s.version + 1, s.root, false)
  }

  /** An initial version counts only for a tree that has none; the argument is cut to 32
      bits. */
  function Initialized(s: State, initial: int): State {
    if s.version > 0 then s
    else State(if U32(initial) < 1 then 0 else U32(initial) - 1, s.root, s.dirty)
  }

  function EditedAll(s: State, ops: seq<Op>): (r: State)
    requires s.root.Some? ==> Exact(s.root.value)
    ensures r.root.Some? ==> Exact(r.root.value)
    ensures r.version == s.version
  {
    if ops == [] then s else Edited(EditedAll(s, ops[..|ops| - 1]), ops[|ops| - 1])
  }

  lemma {:induction false} NewNodesAreNotNewer(t: Tree, u: Tree, version: nat)
    requires NoNewer(t, version + 1) && NewOrIn(u, Nodes(t), U32(version + 1))
    ensures NoNewer(u, version + 1)
  {
  }

  lemma {:induction false} EditIsNotNewer(root: Option<Tree>, op: Op, version: nat)
    requires root.Some? ==> Exact(root.value) && NoNewer(root.value, version + 1)
    ensures var r := ApplyOp(root, op, U32(version + 1)); r.Some? ==> NoNewer(r.value, version + 1)
  {
    var next := U32(version + 1);
    var r := ApplyOp(root, op, next);
    if root.Some? {
      hide SetNode, RemoveNode;
      match op
      case SetOp(k, v) =>
        SetStampsNew(root.value, k, v, next);
        NewNodesAreNotNewer(root.value, r.value, version);
      case RemoveOp(k) =>
        RemoveStampsNew(root.value, k, next);
        if r.Some? { NewNodesAreNotNewer(root.value, r.value, version); }
    }
  }

  lemma EditIsSound(s: State, op: Op)
    requires Sound(s)
    ensures Sound(Edited(s, op))
  {
    hide ApplyOp;
    OpKeepsInvariant(s.root, op, U32(s.version + 1));
    EditIsNotNewer(s.root, op, s.version);
  }

  lemma SoundIsExact(s: State)
    requires Sound(s)
    ensures s.root.Some? ==> Exact(s.root.value)
  {
  }

  lemma SaveIsSound(s: State)
    requires Sound(s)
    ensures Sound(Saved(s))
  {
  }

  lemma InitialIsSound(s: State, initial: int)
    requires Sound(s)
    ensures Sound(Initialized(s, initial))
  {
  }

  /** What a lookup finds after a write. */
  lemma FindAfterEdit(s: State, op: Op, key: Bytes)
    requires Sound(s)
    ensures Find(RootLeaves(Edited(s, op).root), key)
         == if key != op.key then Find(RootLeaves(s.root), key) else if op.SetOp? then Some(op.value) else None
  {
    OpKeepsInvariant(s.root, op, U32(s.version + 1));
    MapOfFind(RootLeaves(s.root), key);
    MapOfFind(RootLeaves(Edited(s, op).root), key);
  }
}

/** A tree object: a root among shared nodes, the version, and a cache of values. */
module Trees {
  import opened Bytes
  import opened Iavl
  import opened IavlContents
  import opened Hashing
  import opened MemTree
  import opened MemHash
  import opened Sharing
  import opened TreeStates
  import Lookup

  ghost function RefsOf(a: Option<Layout>): set<MemNode> {
    if a.None? then {} else Refs(a.value)
  }

  ghost function OwnedOf(a: Option<Layout>, cow: nat): (s: set<MemNode>)
    ensures s <= RefsOf(a)
  {
    if a.None? then {} else Owned(a.value, cow)
  }

  ghost predicate GoodTree(a: Option<Layout>, h: Hasher)
    reads RefsOf(a)
  {
    a.Some? ==> Good(a.value, h)
  }

  /** A tree without newer nodes has nothing that a tree copied from it could change. */
  lemma {:induction false} NothingOwned(a: Layout, version: nat)
    requires NoNewer(Abs(a), version)
    ensures Owned(a, version) == {}
  {
    if a.BranchAt? {
      assert Abs(a).version <= version;
      NothingOwned(a.left, version);
      NothingOwned(a.right, version);
    } else if a.LeafAt? {
      assert Abs(a) in Nodes(Abs(a));
    }
  }

  lemma CopySafe(a: Option<Layout>, s: State)
    requires Sound(s) && s.root == AbsOf(a)
    ensures !s.dirty ==> OwnedOf(a, s.version) == {}
    ensures !RootOf(a).Mem? ==> RefsOf(a) == {}
  {
    if a.Some? && !s.dirty { NothingOwned(a.value, s.version); }
  }

  /** What a lookup in the cache may return: the value last written or read. Any set of
      keys may have been evicted. */
  ghost predicate Agrees(cache: Option<map<Bytes, Bytes>>, root: Option<Iavl.Tree>) {
    cache.Some? ==> forall k :: k in cache.value ==> Find(RootLeaves(root), k) == Some(cache.value[k])
  }

  /** The cache, if there is one, follows every write. */
  function CacheEdit(cache: Option<map<Bytes, Bytes>>, op: Op, evicted: set<Bytes>): Option<map<Bytes, Bytes>> {
    if cache.None? then None
    else match op
      case SetOp(k, v) => Some(cache.value[k := v] - evicted)
      case RemoveOp(k) => Some(cache.value - {k} - evicted)
  }

  lemma CacheAfterEdit(cache: Option<map<Bytes, Bytes>>, s: State, op: Op, evicted: set<Bytes>)
    requires Sound(s) && Agrees(cache, s.root)
    ensures Agrees(CacheEdit(cache, op, evicted), Edited(s, op).root)
  {
    var after := CacheEdit(cache, op, evicted);
    if after.Some? {
      forall k | k in after.value ensures Find(RootLeaves(Edited(s, op).root), k) == Some(after.value[k]) {
        FindAfterEdit(s, op, k);
      }
    }
  }

  ghost predicate BesideTree(a: Option<Layout>, b: Option<Layout>, key: Bytes, cow: nat) {
    a.Some? ==> b.Some? && Beside(a.value, b.value, key, cow)
  }

  /** Sets in a tree that may be empty. */
  method SetRoot(root: Node, key: Bytes, value: Bytes, version: nat, cow: nat, ghost a: Option<Layout>, ghost h: Hasher)
    returns (r: Node, ghost b: Option<Layout>)
    requires root == RootOf(a) && GoodTree(a, h) && (a.Some? ==> Exact(Abs(a.value)))
    modifies OwnedOf(a, cow)
    ensures r == RootOf(b) && GoodTree(b, h) && AbsOf(b) == ApplyOp(AbsOf(a), SetOp(key, value), version)
    ensures a.Some? && SetNode(Abs(a.value), key, value, version).1 ==> BesideTree(a, b, key, cow)
    ensures forall x :: x in RefsOf(b) ==> x in RefsOf(a) || fresh(x)
    ensures forall x :: x in OwnedOf(b, cow) ==> x in OwnedOf(a, cow) || fresh(x)
    ensures forall x :: x in RefsOf(b) ==> allocated(x)
  {
    if root == Nil {
      var m, l := NewLeaf(key, value, version, h);
      return Mem(m), Some(l);
    }
    hide Good, Abs, SetNode, Refs, Owned, Beside;
    var m, _, c := SetRecursive(root, key, value, version, cow, a.value, h);
    RefsAllocated(c);
    return Mem(m), Some(c);
  }

  /** Removes from a tree that may be empty. */
  method RemoveRoot(root: Node, key: Bytes, version: nat, cow: nat, ghost a: Option<Layout>, ghost h: Hasher)
    returns (r: Node, ghost b: Option<Layout>)
    requires root == RootOf(a) && GoodTree(a, h) && (a.Some? ==> Exact(Abs(a.value)))
    modifies OwnedOf(a, cow)
    ensures r == RootOf(b) && GoodTree(b, h) && AbsOf(b) == ApplyOp(AbsOf(a), RemoveOp(key), version)
    ensures forall x :: x in RefsOf(b) ==> x in RefsOf(a) || fresh(x)
    ensures forall x :: x in OwnedOf(b, cow) ==> x in OwnedOf(a, cow) || fresh(x)
    ensures forall x :: x in RefsOf(b) ==> allocated(x)
  {
    if root == Nil {
      return Nil, None;
    }
    hide Good, Abs, RemoveNode, Refs, Owned;
    var _, n, _, c := RemoveRecursive(root, key, version, cow, a.value, h);
    if c.Some? { RefsAllocated(c.value); }
    return n, c;
  }

  lemma UpdateIfFound(s: State, key: Bytes, value: Bytes, version: nat)
    requires Sound(s) && s.root.Some?
    ensures Exact(s.root.value)
    ensures Find(RootLeaves(s.root), key).Some? <==> SetNode(s.root.value, key, value, version).1
  {
    hide SetNode, Find;
    SetUpsertsLeaves(s.root.value, key, value, version);
  }

  class Tree {
    var version: nat
    var cowVersion: nat
    var root: Node
    var cache: Option<map<Bytes, Bytes>>
    ghost var layout: Option<Layout>
    ghost var dirty: bool

    ghost function Value(): State
      reads this
    {
      State(version, AbsOf(layout), dirty)
    }

    ghost predicate Linked(h: Hasher)
      reads this`root, this`layout, RefsOf(layout)
    {
      root == RootOf(layout) && GoodTree(layout, h)
    }

    ghost predicate Valid(h: Hasher)
      reads this, RefsOf(layout)
    {
      Linked(h) && Sound(Value()) && Agrees(cache, AbsOf(layout))
    }

    /** A tree over a given root, nil for the empty tree. */
    constructor (version: nat, root: Node, caching: bool, ghost layout: Option<Layout>, ghost h: Hasher)
      requires root == RootOf(layout) && GoodTree(layout, h) && Sound(State(version, AbsOf(layout), false))
      ensures Valid(h) && Value() == State(version, AbsOf(layout), false) && this.layout == layout
      ensures OwnedOf(layout, version) == {}
    {
      this.version, this.cowVersion, this.root := version, 0, root;
      this.cache := if caching then Some(map[]) else None;
      this.layout, this.dirty := layout, false;
      if layout.Some? { NothingOwned(layout.value, version); }
    }

    /** Takes a new root and the cache that goes with it. */
    method Replace(root: Node, cache: Option<map<Bytes, Bytes>>, ghost layout: Option<Layout>, ghost h: Hasher)
      requires root == RootOf(layout) && GoodTree(layout, h) && forall x :: x in RefsOf(layout) ==> allocated(x)
      requires Sound(State(version, AbsOf(layout), true)) && Agrees(cache, AbsOf(layout))
      modifies this
      ensures Valid(h) && Value() == State(old(version), AbsOf(layout), true)
      ensures this.layout == layout && cowVersion == old(cowVersion)
    {
      hide Sound, Agrees, GoodTree, RefsOf;
      this.root, this.cache, this.layout, this.dirty := root, cache, layout, true;
    }

    method Set(key: Bytes, value: Option<Bytes>, evicted: set<Bytes>, ghost h: Hasher)
      requires Valid(h)
      modifies this, OwnedOf(layout, cowVersion)
      ensures Valid(h) && Value() == Edited(old(Value()), SetOp(key, if value.None? then [] else value.value))
      ensures cowVersion == old(cowVersion)
      ensures Find(RootLeaves(AbsOf(old(layout))), key).Some? ==> BesideTree(old(layout), layout, key, cowVersion)
      ensures forall x :: x in RefsOf(layout) ==> x in old(RefsOf(layout)) || fresh(x)
      ensures forall x :: x in OwnedOf(layout, cowVersion) ==> x in old(OwnedOf(layout, cowVersion)) || fresh(x)
    {
      hide CacheEdit, Sound, Agrees, GoodTree, ApplyOp, U32, RefsOf, OwnedOf, Beside, SetNode, Find;
      ghost var s := Value();
      SoundIsExact(s);
      var v := if value.None? then [] else value.value;
      EditIsSound(s, SetOp(key, v));
      CacheAfterEdit(cache, s, SetOp(key, v), evicted);
      if layout.Some? { UpdateIfFound(s, key, v, U32(version + 1)); }
      var r, b := SetRoot(root, key, v, U32(version + 1), cowVersion, layout, h);
      Replace(r, CacheEdit(cache, SetOp(key, v), evicted), b, h);
    }

    method Remove(key: Bytes, evicted: set<Bytes>, ghost h: Hasher)
      requires Valid(h)
      modifies this, OwnedOf(layout, cowVersion)
      ensures Valid(h) && Value() == Edited(old(Value()), RemoveOp(key))
      ensures cowVersion == old(cowVersion)
      ensures forall x :: x in RefsOf(layout) ==> x in old(RefsOf(layout)) || fresh(x)
      ensures forall x :: x in OwnedOf(layout, cowVersion) ==> x in old(OwnedOf(layout, cowVersion)) || fresh(x)
    {
      hide CacheEdit, Sound, Agrees, GoodTree, ApplyOp, U32, RefsOf, OwnedOf;
      ghost var s := Value();
      SoundIsExact(s);
      EditIsSound(s, RemoveOp(key));
      CacheAfterEdit(cache, s, RemoveOp(key), evicted);
      var r, b := RemoveRoot(root, key, U32(version + 1), cowVersion, layout, h);
      Replace(r, CacheEdit(cache, RemoveOp(key), evicted), b, h);
    }

    method RootHash(h: Hasher) returns (x: Hash)
      requires Linked(h)
      modifies RefsOf(layout)`hash
      ensures Linked(h) && x == Hashing.RootHash(AbsOf(layout), h)
    {
      if root == Nil {
        x := h.empty;
      } else {
        x := HashNode(root, h, layout.value);
      }
    }

    /** Fails at the highest version, which cannot be followed by another. */
    method SaveVersion(updateHash: bool, h: Hasher) returns (ok: bool, hash: Option<Hash>)
      requires Valid(h)
      modifies this`version, this`dirty, RefsOf(layout)`hash
      ensures Valid(h) && Value() == Saved(old(Value()))
      ensures ok <==> old(version) != TWO_32 - 1
      ensures hash == if ok && updateHash then Some(Hashing.RootHash(AbsOf(layout), h)) else None
    {
      SaveIsSound(Value());
      assert Linked(h);
      hide Linked, Sound, Agrees;
      if version == TWO_32 - 1 {
        return false, None;
      }
      hash := None;
      if updateHash {
        var x := RootHash(h);
        hash := Some(x);
      }
      version, dirty := version + 1, false;
      ok := true;
    }

    method Get(key: Bytes, evicted: set<Bytes>, ghost h: Hasher) returns (value: Option<Bytes>)
      requires Valid(h)
      modifies this`cache
      ensures Valid(h)
      ensures value == Find(RootLeaves(AbsOf(layout)), key)
    {
      if cache.Some? && key in cache.value {
        return Some(cache.value[key]);
      }
      if root == Nil {
        return None;
      }
      RefsAllocated(layout.value);
      var v, _ := Lookup.Get(root, key, layout.value, h);
      if v.Some? && cache.Some? {
        cache := Some(cache.value[key := v.value] - evicted);
      }
      return v;
    }

    /** Fails for an initial version of 2^32 - 1 or more. */
    method SetInitialVersion(initial: int, ghost h: Hasher) returns (ok: bool)
      requires Valid(h)
      modifies this`version
      ensures Valid(h) && ok == (initial < TWO_32 - 1)
      ensures Value() == if ok then Initialized(old(Value()), initial) else old(Value())
    {
      hide Sound, Agrees, U32;
      if layout.Some? { RefsAllocated(layout.value); }
      InitialIsSound(Value(), initial);
      if initial >= TWO_32 - 1 {
        return false;
      }
      var v := U32(initial);
      if version == 0 {
        version := if v < 1 then 0 else v - 1;
      }
      return true;
    }

    /** Applies the pairs of a change set in order. */
    method ApplyChangeSet(ops: seq<Op>, evicted: nat -> set<Bytes>, ghost h: Hasher)
      requires Valid(h)
      modifies this, OwnedOf(layout, cowVersion)
      ensures Valid(h) && Value() == EditedAll(old(Value()), ops)
      ensures cowVersion == old(cowVersion)
      ensures forall x :: x in RefsOf(layout) ==> x in old(RefsOf(layout)) || fresh(x)
      ensures forall x :: x in OwnedOf(layout, cowVersion) ==> x in old(OwnedOf(layout, cowVersion)) || fresh(x)
    {
      hide Linked, Sound, Agrees, RefsOf, OwnedOf, Edited;
      SoundIsExact(Value());
      var i := 0;
      assert ops[..0] == [];
      while i < |ops|
        invariant i <= |ops|
        invariant Valid(h) && Value() == EditedAll(old(Value()), ops[..i])
        invariant cowVersion == old(cowVersion)
        invariant forall x :: x in RefsOf(layout) ==> x in old(RefsOf(layout)) || fresh(x)
        invariant forall x :: x in OwnedOf(layout, cowVersion) ==> x in old(OwnedOf(layout, cowVersion)) || fresh(x)
      {
        match ops[i] {
          case SetOp(k, v) => Set(k, Some(v), evicted(i), h);
          case RemoveOp(k) => Remove(k, evicted(i), h);
        }
        assert ops[..i + 1][..i] == ops[..i];
        i := i + 1;
      }
      assert ops[..i] == ops;
    }

    /** Shares all nodes with a new tree object. From here on the two trees change nothing
        of each other if no node in memory is newer than the saved version, as it is right
        after a save; otherwise there is a key whose next write does, and `WriteAfterCopy`
        says how. */
    method Copy(caching: bool, ghost h: Hasher) returns (c: Tree)
      requires Valid(h)
      modifies this`cowVersion
      ensures Valid(h) && Value() == old(Value())
      ensures fresh(c) && c.Valid(h) && c.Value() == Value() && c.layout == layout && c.cowVersion == cowVersion
      ensures OwnedOf(layout, cowVersion) == OwnedOf(layout, version)
      ensures layout.Some? ==>
        forall key :: InPlace(layout.value, key, cowVersion) <==> InPlace(layout.value, key, version)
      ensures OwnedOf(layout, version) == {} <==> forall key :: Find(RootLeaves(AbsOf(layout)), key).Some? ==>
        !InPlaceTree(layout, key, version)
      ensures !dirty ==> OwnedOf(layout, cowVersion) == {}
    {
      CopySafe(layout, Value());
      ExposedIffOwned(layout, Value());
      hide Sound, GoodTree, InPlaceTree, RootLeaves, Find;
      if root.Mem? {
        cowVersion := version;
      }
      c := new Tree.Clone(this, caching, h);
    }

    constructor Clone(t: Tree, caching: bool, ghost h: Hasher)
      requires t.Valid(h)
      ensures Valid(h) && Value() == t.Value() && layout == t.layout && cowVersion == t.cowVersion
    {
      if t.layout.Some? { RefsAllocated(t.layout.value); }
      hide Sound, GoodTree;
      version, cowVersion, root := t.version, t.cowVersion, t.root;
      cache := if caching then Some(map[]) else None;
      layout, dirty := t.layout, t.dirty;
    }
  }

  ghost predicate InPlaceTree(a: Option<Layout>, key: Bytes, cow: nat) {
    a.Some? && InPlace(a.value, key, cow)
  }

  /** A tree owns a node if and only if a write to one of its keys changes a node in place. */
  lemma ExposedIffOwned(a: Option<Layout>, s: State)
    requires Sound(s) && s.root == AbsOf(a)
    ensures OwnedOf(a, s.version) == {} <==> forall key :: Find(RootLeaves(s.root), key).Some? ==>
      !InPlaceTree(a, key, s.version)
  {
    hide Find;
    if a.Some? {
      if Owned(a.value, s.version) == {} {
        forall key ensures !InPlace(a.value, key, s.version) {
          if InPlace(a.value, key, s.version) { InPlaceIsOwned(a.value, key, s.version); }
        }
      } else {
        var key := OwnedHasKey(a.value, s.version);
        assert RootLeaves(s.root) == Leaves(Abs(a.value));
        assert InPlaceTree(a, key, s.version) && Find(RootLeaves(s.root), key).Some?;
      }
    }
  }

  /** A write to the original after a copy. The copy stands for its tree afterwards if and
      only if no node on the path of the key was owned; if one was, the nodes reached from
      the root of the copy show the new value. */
  method WriteAfterCopy(t: Tree, key: Bytes, value: Bytes, caching: bool, evicted: set<Bytes>, ghost h: Hasher)
    returns (c: Tree, ghost shown: Layout)
    requires t.Valid(h) && t.layout.Some?
    requires var was := Find(Leaves(Abs(t.layout.value)), key); was.Some? && was.value != value
    modifies t, RefsOf(t.layout)
    ensures fresh(c) && c.root == old(t.root) && c.layout == old(t.layout)
    ensures Root(shown) == c.root && Shape(shown, h) && Holds(shown)
    ensures InPlaceTree(c.layout, key, old(t.version)) ==> Find(Leaves(Abs(shown)), key) == Some(value)
    ensures GoodTree(c.layout, h) <==> !InPlaceTree(c.layout, key, old(t.version))
  {
    hide Sound, Good, Find, Beside, InPlace, Edited, Agrees;
    ghost var a, s := t.layout.value, t.Value();
    SoundIsExact(s);
    RefsAllocated(a);
    c := t.Copy(caching, h);
    ghost var cow := t.cowVersion;
    BeforeWrite(a, cow, h);
    t.Set(key, Some(value), evicted, h);
    shown := AfterWrite(a, t.layout.value, s, key, value, cow, h);
  }

  lemma BeforeWrite(a: Layout, cow: nat, h: Hasher)
    requires Good(a, h)
    ensures Rests(a, cow, h) && Unowned(a, cow) !! Owned(a, cow) && Shape(a, h)
  {
    GoodRests(a, cow, h);
    UnownedApart(a, cow);
  }

  /** The state of the copy after the write. */
  lemma AfterWrite(a: Layout, b: Layout, s: State, key: Bytes, value: Bytes, cow: nat, h: Hasher)
    returns (shown: Layout)
    requires Sound(s) && s.root == Some(Abs(a)) && Find(Leaves(Abs(a)), key).Some?
      && Find(Leaves(Abs(a)), key) != Some(value)
    requires Exact(Abs(a)) && Beside(a, b, key, cow) && Some(Abs(b)) == Edited(s, SetOp(key, value)).root
    requires Shape(a, h) && Rests(a, cow, h) && Good(b, h)
    ensures Root(shown) == Root(a) && Shape(shown, h) && Holds(shown)
    ensures InPlace(a, key, cow) ==> Find(Leaves(Abs(shown)), key) == Some(value)
    ensures Good(a, h) <==> !InPlace(a, key, cow)
  {
    hide SetNode, Find, Beside, InPlace, Sound, U32, Shown, ShownTree, Rests, Exact, Memo, Distinct, Backed, Ordered,
         Holds, Edited;
    var version := U32(s.version + 1);
    UpdateIfFound(s, key, value, version);
    EditedRoot(s, key, value);
    ShownIs(a, b, key, value, version, cow);
    ShownHolds(a, b, key, cow, h);
    shown := Shown(a, b, key, cow);
    if InPlace(a, key, cow) {
      SoundIsOrdered(s);
      ShownFinds(a, key, value, version, cow);
      if Good(a, h) { SameNodeSameTree(a, shown, h); }
    } else {
      ShownSame(a, b, key, cow);
      SameGood(a, b, key, cow, h);
    }
  }

  lemma EditedRoot(s: State, key: Bytes, value: Bytes)
    requires s.root.Some? && Exact(s.root.value)
    ensures Edited(s, SetOp(key, value)).root == Some(SetNode(s.root.value, key, value, U32(s.version + 1)).0)
  {
    hide SetNode, U32;
  }

  lemma SoundIsOrdered(s: State)
    requires Sound(s) && s.root.Some?
    ensures Ordered(s.root.value)
  {
  }

  lemma TwoWrites(key: Bytes, v: Bytes, w: Bytes)
    ensures Sound(State(0, None, false))
    ensures Edited(State(0, None, false), SetOp(key, v)) == State(0, Some(Leaf(key, v, 1)), true)
    ensures Sound(State(0, Some(Leaf(key, v, 1)), true))
    ensures SetNode(Leaf(key, v, 1), key, w, 1) == (Leaf(key, w, 1), true)
    ensures EditedAll(State(0, None, false), [SetOp(key, v), SetOp(key, w)]) == State(0, Some(Leaf(key, w, 1)), true)
  {
    assert [SetOp(key, v), SetOp(key, w)][..1] == [SetOp(key, v)];
    assert EditedAll(State(0, None, false), [SetOp(key, v)]) == State(0, Some(Leaf(key, v, 1)), true);
    CompareFlips(key, key);
  }

  /** A tree written to, before its version is saved. */
  method DirtyTree(key: Bytes, v: Bytes, ghost h: Hasher) returns (t: Tree, n: MemNode, ghost a: Layout)
    ensures fresh(t) && fresh(n) && t.Valid(h) && t.root == Mem(n)
    ensures a == LeafAt(n, key, v, 1) && t.layout == Some(a) && t.Value() == State(0, Some(Leaf(key, v, 1)), true)
  {
    TwoWrites(key, v, v);
    hide Sound;
    t := new Tree(0, Nil, false, None, h);
    n, a := NewLeaf(key, v, 1, h);
    t.Replace(Mem(n), None, Some(a), h);
  }

  /** The next write to the same key, as in `Set`: the node is changed in place. */
  method WriteAgain(t: Tree, n: MemNode, key: Bytes, v: Bytes, w: Bytes, ghost a: Layout, ghost h: Hasher)
    requires a == LeafAt(n, key, v, 1) && Good(a, h) && t.root == Mem(n) && t.version == 0 && t.cowVersion == 0
    modifies t, n
    ensures t.Value() == State(0, Some(Leaf(key, w, 1)), true) && t.root == Mem(n) && n.value == w
  {
    TwoWrites(key, v, w);
    TwoWrites(key, w, w);
    hide Sound, SetNode, Good;
    var m, _, b := SetLeaf(t.root, key, w, 1, 0, a, h);
    assert b == LeafAt(n, key, w, 1) && n.value == w by {
      assert Abs(b) == Leaf(key, w, 1) && Root(b) == Mem(n);
      GoodRoot(b, h);
    }
    t.Replace(Mem(m), None, Some(b), h);
  }

  /** A copy taken of a tree that was written to since its last save: the next write to
      the same key changes the value in the copy too. */
  method DirtyCopyChanges(key: Bytes, v: Bytes, w: Bytes, ghost h: Hasher) returns (original: Tree, copy: Tree)
    requires v != w
    ensures copy.Value() == Edited(State(0, None, false), SetOp(key, v))
    ensures original.Value() == EditedAll(State(0, None, false), [SetOp(key, v), SetOp(key, w)])
    ensures copy.root == original.root && copy.root.Mem? && copy.root.node.value == w
  {
    TwoWrites(key, v, w);
    hide Sound, Edited, EditedAll, Agrees, Good;
    var t, n, a := DirtyTree(key, v, h);
    original := t;
    copy := original.Copy(false, h);
    WriteAgain(original, n, key, v, w, a, h);
  }
}
