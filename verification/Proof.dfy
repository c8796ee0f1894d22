/** ICS 23 commitment proofs: a leaf operation, and the inner operations from the leaf
    up to the root. */
module ProofOps {
  import opened Bytes
  import opened Iavl
  import opened IavlContents
  import opened Hashing

  datatype InnerNode = InnerNode(height: nat, size: nat, version: nat, left: Bytes, right: Bytes)
  datatype InnerOp = InnerOp(prefix: Bytes, suffix: Bytes)
  datatype ExistenceProof = ExistenceProof(key: Bytes, value: Bytes, leaf: Bytes, path: seq<InnerOp>)
  datatype NonExistenceProof = NonExistenceProof(key: Bytes, left: Option<ExistenceProof>,
                                                 right: Option<ExistenceProof>)

  // ------------------------------------------- what a verifier computes

  /** The leaf operation: a prefix, the key, and the hash of the value, the last two
      preceded by their lengths. */
  function LeafHash(p: ExistenceProof, sha: Sha): Hash {
    sha(p.leaf + LengthPrefixed(p.key) + LengthPrefixed(sha(p.value)))
  }

  function ApplyInner(op: InnerOp, child: Hash, sha: Sha): Hash {
    sha(op.prefix + child + op.suffix)
  }

  function Fold(hash: Hash, ops: seq<InnerOp>, sha: Sha): Hash
    decreases |ops|
  {
    if ops == [] then hash else Fold(ApplyInner(ops[0], hash, sha), ops[1..], sha)
  }

  function ProofRoot(p: ExistenceProof, sha: Sha): Hash {
    Fold(LeafHash(p, sha), p.path, sha)
  }

  lemma {:induction false} FoldAppend(hash: Hash, a: seq<InnerOp>, op: InnerOp, sha: Sha)
    ensures Fold(hash, a + [op], sha) == ApplyInner(op, Fold(hash, a, sha), sha)
    decreases |a|
  {
    if a == [] {
      assert a + [op] == [op];
      assert Fold(ApplyInner(op, hash, sha), [], sha) == ApplyInner(op, hash, sha);
    } else {
      assert (a + [op])[0] == a[0] && (a + [op])[1..] == a[1..] + [op];
      hide ApplyInner;
      FoldAppend(ApplyInner(a[0], hash, sha), a[1..], op, sha);
    }
  }

  // ------------------------------------------------ what a prover collects

  /** The leaf that a search ends at. */
  function LeafFor(t: Tree, key: Bytes): (l: Tree)
    ensures l.Leaf?
  {
    if t.Leaf? then t else if Less(key, t.key) then LeafFor(t.left, key) else LeafFor(t.right, key)
  }

  /** The branches on the way to it, from the root, each with the hash of the side not
      taken. */
  function PathTo(t: Tree, key: Bytes, h: Hasher): seq<InnerNode> {
    if t.Leaf? then []
    else if Less(key, t.key) then
      [InnerNode(t.height, t.size, t.version, [], HashOf(t.right, h))] + PathTo(t.left, key, h)
    else
      [InnerNode(t.height, t.size, t.version, HashOf(t.left, h), [])] + PathTo(t.right, key, h)
  }

  const LENGTH_BYTE: byte := 0x20

  function ConvertLeafOp(version: nat): Bytes {
    PutVarint(0) + PutVarint(1) + PutVarint(version)
  }

  function InnerOpOf(n: InnerNode): InnerOp {
    var header := PutVarint(n.height) + PutVarint(n.size) + PutVarint(n.version);
    if |n.left| > 0 then InnerOp(header + [LENGTH_BYTE] + n.left + [LENGTH_BYTE], [])
    else InnerOp(header + [LENGTH_BYTE], [LENGTH_BYTE] + n.right)
  }

  /** The operations go up from the leaf, the path goes down to it. */
  function OpsOf(path: seq<InnerNode>): seq<InnerOp> {
    if path == [] then [] else OpsOf(path[1..]) + [InnerOpOf(path[0])]
  }

  method ConvertInnerOps(path: seq<InnerNode>) returns (steps: seq<InnerOp>)
    ensures steps == OpsOf(path)
  {
    steps := [];
    var i := |path| - 1;
    assert path[|path|..] == [];
    while i >= 0
      invariant -1 <= i < |path|
      invariant steps == OpsOf(path[i + 1..])
    {
      hide InnerOpOf;
      assert path[i..][1..] == path[i + 1..];
      steps := steps + [InnerOpOf(path[i])];
      i := i - 1;
    }
    assert path[0..] == path;
  }

  /** Bytes of a hash as they are hashed by its parent. */
  lemma PrefixedHash(x: Hash)
    ensures LengthPrefixed(x) == [LENGTH_BYTE] + x
  {
    assert PutUvarint(32) == [32];
  }

  /** One inner operation computes the hash of a branch from that of the child taken. */
  lemma InnerOpHashes(t: Tree, key: Bytes, sha: Sha)
    requires t.Branch?
    ensures var h := IavlHasher(sha);
      ApplyInner(InnerOpOf(PathTo(t, key, h)[0]), HashOf(if Less(key, t.key) then t.left else t.right, h), sha)
        == HashOf(t, h)
  {
    var h := IavlHasher(sha);
    var left, right := HashOf(t.left, h), HashOf(t.right, h);
    BranchHash(t, sha);
    hide HashOf, IavlHasher, Less;
    PrefixedHash(left);
    PrefixedHash(right);
    var header := NodeHeader(t.height, t.size, t.version);
    assert BranchPreimage(t.height, t.size, t.version, left, right)
      == header + ([LENGTH_BYTE] + left) + ([LENGTH_BYTE] + right);
    hide NodeHeader, PutVarint, LengthPrefixed, BranchPreimage;
    if Less(key, t.key) {
      assert (header + [LENGTH_BYTE]) + left + ([LENGTH_BYTE] + right)
        == header + ([LENGTH_BYTE] + left) + ([LENGTH_BYTE] + right);
    } else {
      assert (header + [LENGTH_BYTE] + left + [LENGTH_BYTE]) + right + []
        == header + ([LENGTH_BYTE] + left) + ([LENGTH_BYTE] + right);
    }
  }

  lemma BranchHash(t: Tree, sha: Sha)
    requires t.Branch?
    ensures var h := IavlHasher(sha);
      HashOf(t, h) == sha(BranchPreimage(t.height, t.size, t.version, HashOf(t.left, h), HashOf(t.right, h)))
  {
  }

  /** The proof for a leaf of a tree. */
  function ProofFor(t: Tree, key: Bytes, h: Hasher): ExistenceProof {
    var l := LeafFor(t, key);
    ExistenceProof(l.key, l.value, ConvertLeafOp(l.version), OpsOf(PathTo(t, key, h)))
  }

  lemma LeafOpHashes(l: Tree, path: seq<InnerOp>, sha: Sha)
    requires l.Leaf?
    ensures LeafHash(ExistenceProof(l.key, l.value, ConvertLeafOp(l.version), path), sha) == HashOf(l, IavlHasher(sha))
  {
    assert HashOf(l, IavlHasher(sha)) == IavlHasher(sha).leaf(l.key, l.value, l.version);
    var p := ExistenceProof(l.key, l.value, ConvertLeafOp(l.version), path);
    assert p.leaf + LengthPrefixed(p.key) + LengthPrefixed(sha(p.value))
      == LeafPreimage(l.key, l.value, l.version, sha);
    assert LeafHash(p, sha) == sha(LeafPreimage(l.key, l.value, l.version, sha));
  }

  /** Completeness: whatever leaf the search ends at, folding the inner operations from
      the leaf operation gives the hash of the tree. */
  lemma {:induction false} ProofFolds(t: Tree, key: Bytes, sha: Sha)
    ensures ProofRoot(ProofFor(t, key, IavlHasher(sha)), sha) == HashOf(t, IavlHasher(sha))
  {
    var h := IavlHasher(sha);
    var l := LeafFor(t, key);
    LeafOpHashes(l, OpsOf(PathTo(t, key, h)), sha);
    PathFolds(t, key, sha);
  }

  lemma {:induction false} PathFolds(t: Tree, key: Bytes, sha: Sha)
    ensures var h := IavlHasher(sha);
      Fold(HashOf(LeafFor(t, key), h), OpsOf(PathTo(t, key, h)), sha) == HashOf(t, h)
    decreases t
  {
    var h := IavlHasher(sha);
    if t.Branch? {
      var path := PathTo(t, key, h);
      var next := if Less(key, t.key) then t.left else t.right;
      assert path[1..] == PathTo(next, key, h);
      PathFolds(next, key, sha);
      InnerOpHashes(t, key, sha);
      hide HashOf, IavlHasher, PathTo, ApplyInner, InnerOpOf, Fold;
      FoldAppend(HashOf(LeafFor(t, key), h), OpsOf(path[1..]), InnerOpOf(path[0]), sha);
    }
  }

  /** The search ends at the key if the key is there. */
  lemma {:induction false} LeafForFinds(t: Tree, key: Bytes)
    requires Ordered(t)
    ensures Find(Leaves(t), key) == if LeafFor(t, key).key == key then Some(LeafFor(t, key).value) else None
    decreases t
  {
    if t.Branch? {
      BranchKeySplits(t);
      LeafForFinds(if Less(key, t.key) then t.left else t.right, key);
      FindBeside(Leaves(t.left), Leaves(t.right), key, t.key);
    }
  }

  lemma FindBeside(a: seq<Entry>, b: seq<Entry>, key: Bytes, split: Bytes)
    requires forall i :: 0 <= i < |a| ==> Less(a[i].key, split)
    requires forall i :: 0 <= i < |b| ==> !Less(b[i].key, split)
    ensures Find(a + b, key) == if Less(key, split) then Find(a, key) else Find(b, key)
  {
    FindAppend(a, b, key);
    if Less(key, split) { FindAbsent(b, key); } else { FindAbsent(a, key); }
  }

  lemma {:induction false} FindAppend(a: seq<Entry>, b: seq<Entry>, key: Bytes)
    ensures Find(a + b, key) == if Find(a, key).Some? then Find(a, key) else Find(b, key)
    decreases |a|
  {
    if a == [] {
      assert a + b == b;
    } else {
      assert (a + b)[0] == a[0] && (a + b)[1..] == a[1..] + b;
      FindAppend(a[1..], b, key);
    }
  }

  lemma {:induction false} FindAbsent(a: seq<Entry>, key: Bytes)
    requires forall i :: 0 <= i < |a| ==> a[i].key != key
    ensures Find(a, key) == None
    decreases |a|
  {
    if a != [] { FindAbsent(a[1..], key); }
  }
}

/** Proofs made from a tree on the heap; hashes are computed as they are needed. */
module Proofs {
  import opened Bytes
  import opened Iavl
  import opened IavlContents
  import opened Hashing
  import opened Snapshots
  import opened SnapshotProps
  import opened MemTree
  import opened MemHash
  import opened Trees
  import opened ProofOps
  import Forests
  import Lookup

  /** Hashes a part of a tree. */
  method HashPart(n: Node, h: Hasher, ghost part: Layout, ghost a: Layout) returns (x: Hash)
    requires n == Root(part) && Good(part, h) && Good(a, h) && Refs(part) <= Refs(a)
    modifies Refs(part)`hash
    ensures x == HashOf(Abs(part), h) && Good(part, h) && Good(a, h)
  {
    hide Good, Shape;
    ghost var image := Forests.Taken(Refs(a));
    RefsAllocated(a);
    Forests.RecordNow(Some(a), Refs(a), h);
    x := HashNode(n, h, part);
    Forests.GoodStill(Some(a), Some(part), image, h);
  }

  /** One step down: the branch, with the hash of the side not taken, and the child. */
  method Descend(i: Info, key: Bytes, h: Hasher, ghost c: Layout, ghost a: Layout)
    returns (step: InnerNode, node: Node, ghost d: Layout)
    requires Good(c, h) && Good(a, h) && Refs(c) <= Refs(a)
    requires Abs(c).Branch? && (c.OnDisk? ==> View(c.p).BranchView?) && i == InfoOf(c)
    modifies Refs(a)`hash
    ensures Good(a, h) && Good(d, h) && node == Root(d) && Refs(d) <= Refs(a)
    ensures Abs(d) == if Less(key, Abs(c).key) then Abs(c).left else Abs(c).right
    ensures PathTo(Abs(c), key, h) == [step] + PathTo(Abs(d), key, h)
  {
    hide Good, Refs, Abs, Less, LeftOf, RightOf, HashOf, View;
    ghost var l, r := BranchParts(c, 0, h);
    if Less(key, i.key) {
      var right := HashPart(i.right, h, r, a);
      return InnerNode(i.height, i.size, i.version, [], right), i.left, l;
    } else {
      var left := HashPart(i.left, h, l, a);
      return InnerNode(i.height, i.size, i.version, left, []), i.right, r;
    }
  }

  method PathToLeaf(root: Node, key: Bytes, h: Hasher, ghost a: Layout)
    returns (path: seq<InnerNode>, leaf: Option<Entry>)
    requires root == Root(a) && Good(a, h)
    modifies Refs(a)`hash
    ensures Good(a, h) && path == PathTo(Abs(a), key, h)
    ensures var l := LeafFor(Abs(a), key);
      leaf == if l.key == key then Some(Entry(l.key, l.value, l.version)) else None
  {
    hide Good, Refs, Inspect, InfoOf, LeftOf, RightOf, View, Less;
    path := [];
    var node := root;
    ghost var c := a;
    while true
      invariant Good(a, h) && Good(c, h) && node == Root(c) && Refs(c) <= Refs(a)
      invariant path + PathTo(Abs(c), key, h) == PathTo(Abs(a), key, h)
      invariant LeafFor(Abs(c), key) == LeafFor(Abs(a), key)
      decreases Abs(c)
    {
      Seen(c, h);
      var i := Inspect(node);
      InfoAgrees(c, h);
      if i.height == 0 {
        assert path + [] == path;
        if i.key == key {
          return path, Some(Entry(i.key, i.value, i.version));
        }
        return path, None;
      }
      var step, next, d := Descend(i, key, h, c, a);
      path, node, c := path + [step], next, d;
    }
  }

  lemma {:induction false} InfoAgrees(c: Layout, h: Hasher)
    requires Good(c, h) && (Abs(c).Branch? && c.OnDisk? ==> View(c.p).BranchView?)
    ensures var i, t := InfoOf(c), Abs(c);
      && (i.height == 0 <==> t.Leaf?) && i.key == t.key && i.version == t.version
      && (t.Leaf? ==> i.value == t.value)
  {
  }

  /** The proof for a key, or an error if the key is not there. */
  method CreateExistenceProof(root: Node, key: Bytes, sha: Sha, ghost a: Option<Layout>)
    returns (p: Option<ExistenceProof>)
    requires root == RootOf(a) && GoodTree(a, IavlHasher(sha)) && (a.Some? ==> Ordered(Abs(a.value)))
    modifies RefsOf(a)`hash
    ensures GoodTree(a, IavlHasher(sha))
    ensures Proves(p, AbsOf(a), key, sha)
  {
    hide Good, Refs, Abs, IavlHasher, Ordered, Proves, LeafFor, OpsOf, PathTo, ConvertLeafOp;
    if root == Nil {
      NothingProved(key, sha);
      return None;
    }
    var h := IavlHasher(sha);
    ProvesFor(Abs(a.value), key, sha);
    RefsAllocated(a.value);
    var path, leaf := PathToLeaf(root, key, h, a.value);
    if leaf.None? {
      return None;
    }
    var steps := ConvertInnerOps(path);
    return Some(ExistenceProof(leaf.value.key, leaf.value.value, ConvertLeafOp(leaf.value.version), steps));
  }

  lemma NothingProved(key: Bytes, sha: Sha)
    ensures Proves(None, None, key, sha)
  {
  }

  lemma {:induction false} ProvesFor(t: Iavl.Tree, key: Bytes, sha: Sha)
    requires Ordered(t)
    ensures Proves(if LeafFor(t, key).key == key then Some(ProofFor(t, key, IavlHasher(sha)))
      else None, Some(t), key, sha)
  {
    hide ProofRoot, IavlHasher, Leaves, Ordered, Find, HashOf, PathTo;
    ProofFolds(t, key, sha);
    LeafForFinds(t, key);
  }

  /** What an existence proof must be for a tree: there is one exactly if the key is there;
      then it is for that key and its value, and verifies against the root hash. */
  ghost predicate Proves(p: Option<ExistenceProof>, root: Option<Iavl.Tree>, key: Bytes, sha: Sha) {
    var value := Find(RootLeaves(root), key);
    if p.None? then value.None?
    else
      && p.value.key == key && Some(p.value.value) == value
      && ProofRoot(p.value, sha) == RootHash(root, IavlHasher(sha))
  }

  datatype NonMembership = EmptyTree | KeyPresent | NotFound | Absent(proof: NonExistenceProof)

  /** The neighbours of an absent key: consecutive leaves with the key strictly between
      them; there is none on a side where the key lies beyond all leaves. */
  ghost predicate Neighbours(p: NonExistenceProof, t: Iavl.Tree, key: Bytes, sha: Sha) {
    var s, n := Leaves(t), Lookup.Rank(Leaves(t), key);
    && p.key == key
    && (if n == 0 then p.left == None
        else p.left.Some? && Less(s[n - 1].key, key) && Proves(p.left, Some(t), s[n - 1].key, sha))
    && (if n == |s| then p.right == None
        else p.right.Some? && Less(key, s[n].key) && Proves(p.right, Some(t), s[n].key, sha))
  }

  /** Where an absent key lies. */
  lemma {:induction false} AbsentBetween(t: Iavl.Tree, key: Bytes)
    requires Ordered(t) && Find(Leaves(t), key).None?
    ensures var s, n := Leaves(t), Lookup.Rank(Leaves(t), key);
      (n > 0 ==> Less(s[n - 1].key, key)) && (n < |s| ==> Less(key, s[n].key))
  {
    OrderedIsSorted(t);
    Lookup.RankDivides(Leaves(t), key);
    Lookup.RankFinds(Leaves(t), key);
    LessIsTotalOrder();
  }

  /** What lookups by rank return around a key. */
  method LeafAround(root: Node, index: nat, ghost a: Layout, ghost h: Hasher) returns (e: Option<Entry>)
    requires root == Root(a) && Good(a, h) && Ordered(Abs(a)) && Abs(a).Size() < TWO_32
    requires index <= |Leaves(Abs(a))|
    ensures e == Lookup.At(Leaves(Abs(a)), index)
  {
    ExactSizes(Abs(a));
    Lookup.NoWrapWithin(a, index, h);
    e := Lookup.GetByIndex(root, index, a, h);
  }

  lemma {:induction false} FindPresent(t: Iavl.Tree, i: nat)
    requires Ordered(t) && i < |Leaves(t)|
    ensures Find(Leaves(t), Leaves(t)[i].key).Some?
  {
    if Find(Leaves(t), Leaves(t)[i].key).None? {
      FindNone(Leaves(t), Leaves(t)[i].key, i);
    }
  }

  lemma {:induction false} FindNone(s: seq<Entry>, key: Bytes, i: nat)
    requires Find(s, key).None? && i < |s|
    ensures s[i].key != key
    decreases |s|
  {
    if i > 0 { FindNone(s[1..], key, i - 1); }
  }

  /** The proof for the leaf at a rank. */
  method ProveLeaf(root: Node, index: nat, sha: Sha, ghost a: Layout) returns (found: bool, p: Option<ExistenceProof>)
    requires root == Root(a) && Good(a, IavlHasher(sha)) && Ordered(Abs(a)) && Abs(a).Size() < TWO_32
    requires index <= |Leaves(Abs(a))|
    modifies Refs(a)`hash
    ensures Good(a, IavlHasher(sha)) && found == (index < |Leaves(Abs(a))|)
    ensures found ==> p.Some? && Proves(p, Some(Abs(a)), Leaves(Abs(a))[index].key, sha)
    ensures !found ==> p.None?
  {
    hide Good, Refs, Abs, IavlHasher, Ordered, Proves, Leaves;
    RefsAllocated(a);
    var e := LeafAround(root, index, a, IavlHasher(sha));
    if e.None? {
      return false, None;
    }
    ProofExists(Abs(a), index, sha);
    p := CreateExistenceProof(root, e.value.key, sha, Some(a));
    found := true;
  }

  lemma {:induction false} ProofExists(t: Iavl.Tree, i: nat, sha: Sha)
    requires Ordered(t) && i < |Leaves(t)|
    ensures !Proves(None, Some(t), Leaves(t)[i].key, sha)
  {
    FindPresent(t, i);
  }

  /** Refused for an empty tree and for a key that is there; otherwise there is a proof
      for each neighbour. */
  method GetNonMembershipProof(root: Node, key: Bytes, sha: Sha, ghost a: Option<Layout>) returns (r: NonMembership)
    requires root == RootOf(a) && GoodTree(a, IavlHasher(sha))
    requires a.Some? ==> Ordered(Abs(a.value)) && Abs(a.value).Size() < TWO_32
    modifies RefsOf(a)`hash
    ensures GoodTree(a, IavlHasher(sha))
    ensures if a.None? then r == EmptyTree
      else if Find(Leaves(Abs(a.value)), key).Some? then r == KeyPresent
      else r.Absent? && Neighbours(r.proof, Abs(a.value), key, sha)
  {
    if root == Nil {
      return EmptyTree;
    }
    hide Good, Refs, Abs, IavlHasher, Ordered, Proves, Leaves, Less;
    ghost var t := Abs(a.value);
    RefsAllocated(a.value);
    RankInRange(t, key);
    var val, idx := Lookup.Get(root, key, a.value, IavlHasher(sha));
    if val.Some? {
      return KeyPresent;
    }
    AbsentBetween(t, key);
    var left: Option<ExistenceProof> := None;
    if idx >= 1 {
      var found, p := ProveLeaf(root, idx - 1, sha, a.value);
      if p.None? {
        return NotFound;
      }
      left := p;
    }
    var found, right := ProveLeaf(root, idx, sha, a.value);
    if found && right.None? {
      return NotFound;
    }
    return Absent(NonExistenceProof(key, left, right));
  }

  lemma {:induction false} RankInRange(t: Iavl.Tree, key: Bytes)
    requires Exact(t) && t.Size() < TWO_32
    ensures U32(Lookup.Rank(Leaves(t), key)) == Lookup.Rank(Leaves(t), key) <= |Leaves(t)|
  {
    ExactSizes(t);
  }
}
