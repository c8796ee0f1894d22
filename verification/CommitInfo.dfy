/** The commit info: what a version of every store was, by name, version and root hash. It is
    written into a snapshot beside the trees, and a load compares it with the trees it finds. */
module CommitInfos {
  import opened Bytes
  import opened Hashing
  import opened HashBinding
  import opened TreeStates
  import opened StoreLists
  import opened MultiStates

  datatype CommitId = CommitId(version: nat, hash: Hash)

  datatype CommitInfo = CommitInfo(version: nat, stores: seq<Named<CommitId>>)

  function IdOf(s: State, h: Hasher): CommitId {
    CommitId(s.version, RootHash(s.root, h))
  }

  function Ids(trees: map<Name, State>, h: Hasher): map<Name, CommitId> {
    map n | n in trees :: IdOf(trees[n], h)
  }

  /** The stores in order of their names. */
  ghost function InfoOf(version: nat, trees: map<Name, State>, h: Hasher): CommitInfo {
    CommitInfo(version, Listed(Ids(trees, h)))
  }

  /** A snapshot of all stores: their trees as they were written, and the commit info of the
      last version. */
  datatype Stored = Stored(initial: nat, trees: map<Name, State>, info: CommitInfo)

  /** What is written while the trees are `trees` and the last commit was `m`. */
  ghost function Written(m: Multi, trees: map<Name, State>, h: Hasher): Stored {
    Stored(m.initial, trees, InfoOf(m.version, m.trees, h))
  }

  // --------------------------------------------------------------- loading

  /** A tree as it is read from a snapshot. An initial version above 1 is set again. */
  function Opened(s: State, initial: nat): State {
    var t := State(s.version, s.root, false);
    if initial > 1 then Initialized(t, initial) else t
  }

  function OpenedAll(x: Stored): map<Name, State> {
    map n | n in x.trees :: Opened(x.trees[n], x.initial)
  }

  /** The version found is that of the first store; without stores it is not compared. */
  ghost function VersionFound(x: Stored): nat {
    var list := Listed(OpenedAll(x));
    if list == [] then x.info.version else list[0].tree.version
  }

  /** A load is refused if the commit info is not that of the trees. */
  ghost function Load(x: Stored, h: Hasher): Option<Multi> {
    if x.info == InfoOf(VersionFound(x), OpenedAll(x), h) then Some(Multi(x.initial, x.info.version, OpenedAll(x)))
    else None
  }

  lemma NoneListed<T>(m: map<Name, T>)
    ensures Listed(m) == [] <==> m == map[]
  {
    assert m != map[] ==> exists n :: n in m;
    assert forall n :: n in m ==> IndexOf(Listed(m), n) >= 0;
  }

  lemma ListedTells<T>(m: map<Name, T>, k: map<Name, T>)
    ensures Listed(m) == Listed(k) <==> m == k
  {
    hide Shows, InOrder;
    if Listed(m) == Listed(k) { OneMap(Listed(m), m, k); }
  }

  /** The trees have the names, versions and hashes that were committed. */
  ghost predicate SameIds(trees: map<Name, State>, m: map<Name, State>, h: Hasher) {
    Ids(trees, h) == Ids(m, h)
  }

  /** For any trees and any last commit: a load succeeds if and only if the stores have the
      names, versions and hashes of the last commit, and its version is that of the first one. */
  lemma LoadsIff(m: Multi, trees: map<Name, State>, h: Hasher)
    ensures var x := Written(m, trees, h);
      Load(x, h).Some? <==> SameIds(OpenedAll(x), m.trees, h) && VersionFound(x) == m.version
  {
    var x := Written(m, trees, h);
    hide Ids, Listed, OpenedAll, VersionFound;
    ListedTells(Ids(m.trees, h), Ids(OpenedAll(x), h));
  }

  // ---------------------------------------------------- at a version boundary

  /** No tree was changed since the version was saved. */
  ghost predicate AtBoundary(m: Multi) {
    forall n :: n in m.trees ==> m.trees[n].version == m.version && !m.trees[n].dirty
  }

  /** All trees have one version. */
  ghost predicate AllAt(trees: map<Name, State>, version: int) {
    forall n :: n in trees ==> trees[n].version == version
  }

  /** Opening keeps the version of a tree that is in step. */
  lemma OpenedVersion(s: State, m: Multi)
    requires s.version == NextVersion(m.version, m.initial) - 1
    ensures Opened(s, m.initial) == State(s.version, s.root, false)
  {
  }

  lemma OpenedVersions(x: Stored, m: Multi)
    requires x.initial == m.initial && AllAt(x.trees, NextVersion(m.version, m.initial) - 1)
    ensures OpenedAll(x) == map n | n in x.trees :: State(x.trees[n].version, x.trees[n].root, false)
  {
    hide Opened, NextVersion;
    forall n | n in x.trees ensures OpenedAll(x)[n] == State(x.trees[n].version, x.trees[n].root, false) {
      OpenedVersion(x.trees[n], m);
    }
  }

  /** The version found is that of all stores. */
  lemma FirstVersion(x: Stored, version: nat)
    requires AllAt(OpenedAll(x), version)
    ensures VersionFound(x) == if x.trees == map[] then x.info.version else version
  {
    var list := Listed(OpenedAll(x));
    NoneListed(OpenedAll(x));
    assert OpenedAll(x).Keys == x.trees.Keys;
    assert list != [] ==> list[0].name in OpenedAll(x);
    hide Listed, Opened;
  }

  /** Trees in step with a version: a load of them succeeds if and only if they are the stores of
      the last commit, by name and hash. */
  lemma RewrittenLoads(m: Multi, trees: map<Name, State>, h: Hasher)
    requires Aligned(m) && AtBoundary(m) && AllAt(trees, NextVersion(m.version, m.initial) - 1)
    ensures Load(Written(m, trees, h), h).Some? <==> SameHashes(trees, m.trees, h)
  {
    var x := Written(m, trees, h);
    hide Healthy, Listed, VersionFound, NextVersion, Opened, RootHash, Load;
    LoadsIff(m, trees, h);
    OpenedVersions(x, m);
    FirstVersion(x, NextVersion(m.version, m.initial) - 1);
    SameIdsAre(OpenedAll(x), m.trees, h);
    assert x.trees.Keys == OpenedAll(x).Keys;
    if SameHashes(trees, m.trees, h) && trees != map[] {
      var n :| n in trees;
      assert m.trees[n].version == m.version;
    }
  }

  /** The same names, and a tree of the same hash under each. */
  ghost predicate SameHashes(trees: map<Name, State>, m: map<Name, State>, h: Hasher) {
    trees.Keys == m.Keys && forall n :: n in trees ==> RootHash(trees[n].root, h) == RootHash(m[n].root, h)
  }

  lemma SameIdsAre(trees: map<Name, State>, m: map<Name, State>, h: Hasher)
    ensures SameIds(trees, m, h) <==> SameHashes(trees, m, h) && forall n :: n in trees ==>
      trees[n].version == m[n].version
  {
    hide RootHash;
    assert Ids(trees, h).Keys == trees.Keys && Ids(m, h).Keys == m.Keys;
    if SameIds(trees, m, h) {
      forall n | n in trees ensures RootHash(trees[n].root, h) == RootHash(m[n].root, h)
        && trees[n].version == m[n].version {
        assert Ids(trees, h)[n] == Ids(m, h)[n];
      }
    }
  }

  /** A version boundary can always be loaded again. */
  lemma CommittedLoads(m: Multi, h: Hasher)
    requires Aligned(m) && AtBoundary(m)
    ensures Load(Written(m, m.trees, h), h) == Some(m)
  {
    hide Healthy, RootHash, Listed, VersionFound;
    RewrittenLoads(m, m.trees, h);
    OpenedVersions(Written(m, m.trees, h), m);
    assert OpenedAll(Written(m, m.trees, h)) == m.trees;
  }

  /** Every state that was loaded with its versions in step is at a boundary. */
  lemma LoadedIsAtBoundary(x: Stored, m: Multi, h: Hasher)
    requires Load(x, h) == Some(m) && Aligned(m)
    ensures AtBoundary(m)
  {
    hide Healthy, RootHash, Listed, NextVersion;
    FirstVersion(x, NextVersion(m.version, m.initial) - 1);
    assert forall n :: n in x.trees ==> !Opened(x.trees[n], x.initial).dirty;
  }

  // ------------------------------------------------------ what a hash vouches for

  ghost predicate SameRoots(trees: map<Name, State>, m: map<Name, State>) {
    trees.Keys == m.Keys && forall n :: n in trees ==> trees[n].root == m[n].root
  }

  /** No two strings hashed for a store, as it was committed and as it is written, collide. */
  ghost predicate NoCollision(trees: map<Name, State>, m: map<Name, State>, sha: Sha) {
    forall n :: n in trees && n in m ==> CollisionFree(HashedIn(trees[n].root, sha) + HashedIn(m[n].root, sha), sha)
  }

  lemma HashesTell(trees: map<Name, State>, m: map<Name, State>, sha: Sha)
    requires Healthy(trees) && Healthy(m) && NoCollision(trees, m, sha)
    ensures SameHashes(trees, m, IavlHasher(sha)) <==> SameRoots(trees, m)
  {
    hide CollisionFree, HashedIn, RootHash, IavlHasher;
    forall n | n in trees && n in m
      ensures RootHash(trees[n].root, IavlHasher(sha)) == RootHash(m[n].root, IavlHasher(sha))
        <==> trees[n].root == m[n].root
    {
      assert Sound(trees[n]) && Sound(m[n]);
      RootHashTells(trees[n].root, m[n].root, sha);
    }
  }

  /** So a load gives the last commit, or it is refused: it succeeds if and only if the trees that
      were written are those of the last commit. */
  lemma LoadsOnlyCommitted(m: Multi, trees: map<Name, State>, sha: Sha)
    requires Aligned(m) && AtBoundary(m) && AllAt(trees, NextVersion(m.version, m.initial) - 1)
    requires Healthy(trees) && NoCollision(trees, m.trees, sha)
    ensures Load(Written(m, trees, IavlHasher(sha)), IavlHasher(sha)) == if SameRoots(trees, m.trees) then Some(m)
      else None
  {
    hide Healthy, NoCollision, Sound, IavlHasher, RootHash, Listed, VersionFound, SameHashes;
    RewrittenLoads(m, trees, IavlHasher(sha));
    HashesTell(trees, m.trees, sha);
    OpenedVersions(Written(m, trees, IavlHasher(sha)), m);
    if SameRoots(trees, m.trees) {
      forall n | n in trees ensures State(trees[n].version, trees[n].root, false) == m.trees[n] {
        assert m.trees[n].version == m.version;
      }
      assert OpenedAll(Written(m, trees, IavlHasher(sha))) == m.trees;
    }
  }

  /** With the trees of the last commit a load needs no trust in hashes. */
  ghost predicate Genuine(trees: map<Name, State>, m: map<Name, State>, sha: Sha) {
    SameRoots(trees, m) || NoCollision(trees, m, sha)
  }

  lemma LoadsGenuine(m: Multi, trees: map<Name, State>, sha: Sha)
    requires Aligned(m) && AtBoundary(m) && AllAt(trees, NextVersion(m.version, m.initial) - 1)
    requires Healthy(trees) && Genuine(trees, m.trees, sha)
    ensures Load(Written(m, trees, IavlHasher(sha)), IavlHasher(sha)) == if SameRoots(trees, m.trees) then Some(m)
      else None
  {
    hide Healthy, NoCollision, IavlHasher, RootHash, Load, Listed;
    if SameRoots(trees, m.trees) {
      RewrittenLoads(m, trees, IavlHasher(sha));
      SameTreesLoad(m, trees, IavlHasher(sha));
    } else {
      LoadsOnlyCommitted(m, trees, sha);
    }
  }

  lemma SameTreesLoad(m: Multi, trees: map<Name, State>, h: Hasher)
    requires Aligned(m) && AtBoundary(m) && AllAt(trees, NextVersion(m.version, m.initial) - 1)
    requires SameRoots(trees, m.trees) && Load(Written(m, trees, h), h).Some?
    ensures Load(Written(m, trees, h), h) == Some(m)
  {
    hide Healthy, RootHash, Listed, VersionFound;
    OpenedVersions(Written(m, trees, h), m);
    assert OpenedAll(Written(m, trees, h)) == m.trees;
  }

  /** Every committed state is at a boundary, if the first one is. */
  lemma StateAtBoundary(base: Multi, es: seq<WalEntry>, k: nat)
    requires Committed(base, es) && k <= |es| && AtBoundary(base)
    ensures AtBoundary(StateAt(base, es, k))
  {
    if k == 0 {
      assert es[..0] == [];
    } else {
      hide ApplyEntry, Healthy, ReplayAll, Committed, StateAt;
      StateVersions(base, es, k);
      StateStep(base, es, k - 1);
      var m := StateAt(base, es, k - 1);
      var applied := ApplyEntry(m, es[k - 1]).value;
      assert SaveAll(applied) == Some(StateAt(base, es, k));
      IndexOfVersion(k, base.initial);
    }
  }

  /** The trees with an entry applied are in step with the version. */
  lemma AppliedInStep(m: Multi, e: WalEntry)
    requires Aligned(m) && NextVersion(m.version, m.initial) < TWO_32 && ApplyEntry(m, e).Some?
    ensures var w := ApplyEntry(m, e).value;
      && w.initial == m.initial && w.version == m.version
      && Healthy(w.trees) && AllAt(w.trees, NextVersion(m.version, m.initial) - 1)
  {
    hide Sound, UpgradeAll, ApplyChanges;
    var next := NextVersion(m.version, m.initial);
    UpgradesKeepVersions(m.trees, e.upgrades, next);
    UpgradeAllIsHealthy(m.trees, e.upgrades, next);
    ChangesKeepVersions(UpgradeAll(m.trees, e.upgrades, NewTree(next)).value, e.changes, next - 1);
  }
}
