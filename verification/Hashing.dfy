/** Node hashes. Structural results hold of any scheme that hashes a leaf from its
    fields and a branch from its fields and the hashes of its children; the scheme in
    use, over SHA-256, is `IavlHasher`. */
module Hashing {
  import opened Bytes
  import opened Iavl

  type Hash = h: Bytes | |h| == 32 witness seq(32, _ => 0)

  /** SHA-256 is a parameter: any function to 32-byte strings. */
  type Sha = Bytes -> Hash

  datatype Hasher = Hasher(
    leaf: (Bytes, Bytes, nat) -> Hash,
    branch: (nat, nat, nat, Hash, Hash) -> Hash,
    empty: Hash)

  /** The branch key is not hashed. */
  function HashOf(t: Tree, h: Hasher): Hash {
    match t
    case Leaf(k, v, ver) => h.leaf(k, v, ver)
    case Branch(_, height, size, ver, l, r) => h.branch(height, size, ver, HashOf(l, h), HashOf(r, h))
  }

  function RootHash(root: Option<Tree>, h: Hasher): Hash {
    if root.None? then h.empty else HashOf(root.value, h)
  }

  // ------------------------------------------------------- byte preimages

  /** A byte string preceded by its length. */
  function LengthPrefixed(b: Bytes): Bytes {
    PutUvarint(|b|) + b
  }

  function NodeHeader(height: nat, size: nat, version: nat): Bytes {
    PutVarint(height) + PutVarint(size) + PutVarint(version)
  }

  function LeafPreimage(key: Bytes, value: Bytes, version: nat, sha: Sha): Bytes {
    NodeHeader(0, 1, version) + LengthPrefixed(key) + LengthPrefixed(sha(value))
  }

  function BranchPreimage(height: nat, size: nat, version: nat, left: Hash, right: Hash): Bytes {
    NodeHeader(height, size, version) + LengthPrefixed(left) + LengthPrefixed(right)
  }

  function IavlHasher(sha: Sha): Hasher {
    Hasher(
      (key: Bytes, value: Bytes, version: nat) => sha(LeafPreimage(key, value, version, sha)),
      (height: nat, size: nat, version: nat, left: Hash, right: Hash) =>
        sha(BranchPreimage(height, size, version, left, right)),
      sha([]))
  }
}
