/** The root hash binds the tree. The strings that are hashed for a node tell its fields apart,
    so two search trees with one root hash are equal, unless two different strings that were
    hashed for them have the same hash. */
module HashBinding {
  import opened Bytes
  import opened Iavl
  import opened Hashing

  // ------------------------------------------------ what a string tells

  lemma {:induction false} UvarintTells(x: nat, a: Bytes, y: nat, b: Bytes)
    requires PutUvarint(x) + a == PutUvarint(y) + b
    ensures x == y && a == b
    decreases x
  {
    var p, q := PutUvarint(x), PutUvarint(y);
    assert (p + a)[0] == p[0] && (q + b)[0] == q[0];
    assert (p + a)[1..] == p[1..] + a && (q + b)[1..] == q[1..] + b;
    if x >= 0x80 {
      UvarintTells(x / 0x80, a, y / 0x80, b);
    }
  }

  lemma PrefixedTells(x: Bytes, a: Bytes, y: Bytes, b: Bytes)
    requires LengthPrefixed(x) + a == LengthPrefixed(y) + b
    ensures x == y && a == b
  {
    hide PutUvarint;
    assert LengthPrefixed(x) + a == PutUvarint(|x|) + (x + a);
    assert LengthPrefixed(y) + b == PutUvarint(|y|) + (y + b);
    UvarintTells(|x|, x + a, |y|, y + b);
    assert x == (x + a)[..|x|] && a == (x + a)[|x|..];
    assert y == (y + b)[..|y|] && b == (y + b)[|y|..];
  }

  lemma VarintTells(x: nat, a: Bytes, y: nat, b: Bytes)
    requires PutVarint(x) + a == PutVarint(y) + b
    ensures x == y && a == b
  {
    hide PutUvarint;
    UvarintTells(2 * x, a, 2 * y, b);
  }

  lemma HeaderTells(h: nat, s: nat, v: nat, a: Bytes, i: nat, t: nat, w: nat, b: Bytes)
    requires NodeHeader(h, s, v) + a == NodeHeader(i, t, w) + b
    ensures h == i && s == t && v == w && a == b
  {
    hide PutVarint;
    assert NodeHeader(h, s, v) + a == PutVarint(h) + (PutVarint(s) + (PutVarint(v) + a));
    assert NodeHeader(i, t, w) + b == PutVarint(i) + (PutVarint(t) + (PutVarint(w) + b));
    VarintTells(h, PutVarint(s) + (PutVarint(v) + a), i, PutVarint(t) + (PutVarint(w) + b));
    VarintTells(s, PutVarint(v) + a, t, PutVarint(w) + b);
    VarintTells(v, a, w, b);
  }

  lemma TwoPartsTell(x: Bytes, y: Bytes, z: Bytes, w: Bytes)
    requires LengthPrefixed(x) + LengthPrefixed(y) == LengthPrefixed(z) + LengthPrefixed(w)
    ensures x == z && y == w
  {
    hide LengthPrefixed;
    PrefixedTells(x, LengthPrefixed(y), z, LengthPrefixed(w));
    assert LengthPrefixed(y) + [] == LengthPrefixed(y) && LengthPrefixed(w) + [] == LengthPrefixed(w);
    PrefixedTells(y, [], w, []);
  }

  // --------------------------------------------------- what a hash tells

  /** The string hashed for the root of a tree. */
  function Preimage(t: Tree, sha: Sha): (r: Bytes)
    ensures sha(r) == HashOf(t, IavlHasher(sha))
  {
    match t
    case Leaf(k, v, ver) => LeafPreimage(k, v, ver, sha)
    case Branch(_, height, size, ver, l, r) =>
      BranchPreimage(height, size, ver, HashOf(l, IavlHasher(sha)), HashOf(r, IavlHasher(sha)))
  }

  /** All strings hashed for a tree; of a leaf the value is hashed as well. */
  function Hashed(t: Tree, sha: Sha): (r: set<Bytes>)
    ensures Preimage(t, sha) in r
  {
    match t
    case Leaf(_, v, _) => {Preimage(t, sha), v}
    case Branch(_, _, _, _, l, r) => {Preimage(t, sha)} + Hashed(l, sha) + Hashed(r, sha)
  }

  function HashedIn(root: Option<Tree>, sha: Sha): set<Bytes> {
    if root.None? then {[]} else Hashed(root.value, sha)
  }

  ghost predicate CollisionFree(s: set<Bytes>, sha: Sha) {
    forall x, y :: x in s && y in s && sha(x) == sha(y) ==> x == y
  }

  /** The string tells the fields of the root, and the hashes of its children. */
  lemma PreimageTells(t: Tree, u: Tree, sha: Sha)
    requires Exact(t) && Exact(u) && Preimage(t, sha) == Preimage(u, sha)
    ensures t.Leaf? <==> u.Leaf?
    ensures t.Leaf? ==> t.key == u.key && t.version == u.version && sha(t.value) == sha(u.value)
    ensures t.Branch? ==>
      && t.height == u.height && t.size == u.size && t.version == u.version
      && HashOf(t.left, IavlHasher(sha)) == HashOf(u.left, IavlHasher(sha))
      && HashOf(t.right, IavlHasher(sha)) == HashOf(u.right, IavlHasher(sha))
  {
    hide NodeHeader, LengthPrefixed;
    var (x, y) := Parts(t, sha);
    var (z, w) := Parts(u, sha);
    PreimageInParts(t, sha);
    PreimageInParts(u, sha);
    HeaderTells(t.Height(), t.Size(), t.version, LengthPrefixed(x) + LengthPrefixed(y),
                u.Height(), u.Size(), u.version, LengthPrefixed(z) + LengthPrefixed(w));
    TwoPartsTell(x, y, z, w);
  }

  function Parts(t: Tree, sha: Sha): (Bytes, Bytes) {
    match t
    case Leaf(k, v, _) => (k, sha(v))
    case Branch(_, _, _, _, l, r) => (HashOf(l, IavlHasher(sha)), HashOf(r, IavlHasher(sha)))
  }

  lemma PreimageInParts(t: Tree, sha: Sha)
    ensures var (x, y) := Parts(t, sha);
      Preimage(t, sha) == NodeHeader(t.Height(), t.Size(), t.version) + (LengthPrefixed(x) + LengthPrefixed(y))
  {
    hide NodeHeader, LengthPrefixed;
  }

  /** Two search trees of one hash are equal, if no two strings hashed for them collide. */
  lemma {:induction false} HashTells(t: Tree, u: Tree, sha: Sha)
    requires Exact(t) && Ordered(t) && Exact(u) && Ordered(u)
    requires CollisionFree(Hashed(t, sha) + Hashed(u, sha), sha)
    requires HashOf(t, IavlHasher(sha)) == HashOf(u, IavlHasher(sha))
    ensures t == u
    decreases t
  {
    hide Preimage, Less;
    PreimageTells(t, u, sha);
    if t.Branch? {
      HashTells(t.left, u.left, sha);
      HashTells(t.right, u.right, sha);
    }
  }

  /** The same for trees that may be empty. */
  lemma RootHashTells(t: Option<Tree>, u: Option<Tree>, sha: Sha)
    requires WellFormedRoot(t) && WellFormedRoot(u)
    requires CollisionFree(HashedIn(t, sha) + HashedIn(u, sha), sha)
    ensures RootHash(t, IavlHasher(sha)) == RootHash(u, IavlHasher(sha)) <==> t == u
  {
    if RootHash(t, IavlHasher(sha)) == RootHash(u, IavlHasher(sha)) {
      if t.Some? && u.Some? {
        HashTells(t.value, u.value, sha);
      } else if t.Some? {
        PreimageInParts(t.value, sha);
      } else if u.Some? {
        PreimageInParts(u.value, sha);
      }
    }
  }
}
