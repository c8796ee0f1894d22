/** What is on disk: snapshots, the link to the current one, and the log; and what is loaded
    from it. Snapshots are named by the log index of their version, 0 for the base state. */
module Disks {
  import opened Bytes
  import opened Hashing
  import opened MultiStates
  import opened CommitInfos

  datatype Disk = Disk(snapshots: map<nat, Stored>, current: nat, log: Log)

  /** A snapshot has the commit info of its version. Its trees are in step with the version, but
      may have been written to since. */
  ghost predicate WrittenAt(x: Stored, m: Multi, sha: Sha) {
    && x == Written(m, x.trees, IavlHasher(sha))
    && Healthy(x.trees) && AllAt(x.trees, NextVersion(m.version, m.initial) - 1)
  }

  /** The snapshots were written at committed versions, the current one exists, and the log holds
      all entries after the earliest one that were written. The base state can be loaded. */
  ghost predicate Sound(base: Multi, es: seq<WalEntry>, d: Disk, sha: Sha) {
    && Committed(base, es) && AtBoundary(base)
    && d.current in d.snapshots
    && d.log.first >= 1 && Window(d.log, es, d.log.Last())
    && forall k :: k in d.snapshots ==>
        k <= |es| && WrittenAt(d.snapshots[k], StateAt(base, es, k), sha) && d.log.first <= k + 1
  }

  /** A snapshot holds the trees of its version. */
  ghost predicate Clean(base: Multi, es: seq<WalEntry>, d: Disk, k: nat)
    requires Committed(base, es)
  {
    k in d.snapshots && k <= |es| && SameRoots(d.snapshots[k].trees, StateAt(base, es, k).trees)
  }

  /** A snapshot does, or no two strings hashed for it and its version collide. */
  ghost predicate Trusted(base: Multi, es: seq<WalEntry>, d: Disk, k: nat, sha: Sha) {
    Committed(base, es) && k in d.snapshots && k <= |es|
      && Genuine(d.snapshots[k].trees, StateAt(base, es, k).trees, sha)
  }

  lemma SoundSnapshot(base: Multi, es: seq<WalEntry>, d: Disk, k: nat, sha: Sha)
    requires Sound(base, es, d, sha) && k in d.snapshots
    ensures k <= |es| && WrittenAt(d.snapshots[k], StateAt(base, es, k), sha) && d.log.first <= k + 1
    ensures Aligned(StateAt(base, es, k)) && AtBoundary(StateAt(base, es, k))
  {
    hide StateAt, Aligned, AtBoundary, Committed, WrittenAt;
    StateVersions(base, es, k);
    StateAtBoundary(base, es, k);
  }

  /** A snapshot loads as the committed state of its version, or not at all: it does if and only
      if it holds the trees of that version. */
  lemma SnapshotLoads(base: Multi, es: seq<WalEntry>, d: Disk, k: nat, sha: Sha)
    requires Sound(base, es, d, sha) && Trusted(base, es, d, k, sha)
    ensures Load(d.snapshots[k], IavlHasher(sha)) == if Clean(base, es, d, k) then Some(StateAt(base, es, k)) else None
  {
    hide StateAt, Aligned, AtBoundary, Committed, Sound, Load, Written, Healthy, IavlHasher, Genuine, SameRoots, AllAt;
    SoundSnapshot(base, es, d, k, sha);
    LoadsGenuine(StateAt(base, es, k), d.snapshots[k].trees, sha);
  }

  /** Whatever collides: a snapshot loads if and only if its stores have the names and hashes of
      its version. */
  lemma SnapshotLoadsIff(base: Multi, es: seq<WalEntry>, d: Disk, k: nat, sha: Sha)
    requires Sound(base, es, d, sha) && k in d.snapshots
    ensures k <= |es|
    ensures Load(d.snapshots[k], IavlHasher(sha)).Some?
       <==> SameHashes(d.snapshots[k].trees, StateAt(base, es, k).trees, IavlHasher(sha))
  {
    assert Committed(base, es);
    hide StateAt, Aligned, AtBoundary, Committed, Sound, Load, Written, Healthy, IavlHasher, SameHashes, AllAt;
    SoundSnapshot(base, es, d, k, sha);
    RewrittenLoads(StateAt(base, es, k), d.snapshots[k].trees, IavlHasher(sha));
  }

  /** Loads the latest version: the current snapshot, and all of the log. */
  ghost function LoadLatest(d: Disk, sha: Sha): Caught
    requires d.current in d.snapshots && LoadsHealthy(d.snapshots[d.current], sha)
  {
    var m := Load(d.snapshots[d.current], IavlHasher(sha));
    if m.None? then Failed else CatchUp(m.value, d.log, 0)
  }

  ghost predicate LoadsHealthy(x: Stored, sha: Sha) {
    var m := Load(x, IavlHasher(sha)); m.Some? ==> Healthy(m.value.trees)
  }

  lemma TrustedIsHealthy(base: Multi, es: seq<WalEntry>, d: Disk, k: nat, sha: Sha)
    requires Sound(base, es, d, sha) && Trusted(base, es, d, k, sha)
    ensures LoadsHealthy(d.snapshots[k], sha)
  {
    hide StateAt, Committed, Sound, Load, IavlHasher, Genuine, SameRoots, Healthy;
    SnapshotLoads(base, es, d, k, sha);
    if Clean(base, es, d, k) { var m := StateAt(base, es, k); }
  }

  ghost function Later(a: int, b: int): int { if a >= b then a else b }

  /** The version that a load gives, by log index. */
  ghost function Durable(d: Disk): int { Later(d.current, d.log.Last()) }

  /** From a sound disk the latest load gives the committed state at the current snapshot or the
      end of the log, whichever is later; or it fails, if and only if the current snapshot does not
      hold the trees of its version. */
  lemma LoadsCommitted(base: Multi, es: seq<WalEntry>, d: Disk, sha: Sha)
    requires Sound(base, es, d, sha) && Trusted(base, es, d, d.current, sha)
    ensures LoadsHealthy(d.snapshots[d.current], sha) && 0 <= Durable(d) <= |es|
    ensures LoadLatest(d, sha) == if Clean(base, es, d, d.current) then Reached(StateAt(base, es, Durable(d)))
      else Failed
  {
    hide StateAt, Healthy, Committed, CatchUp, Load, IavlHasher, Genuine, SameRoots, WrittenAt, AtBoundary;
    TrustedIsHealthy(base, es, d, d.current, sha);
    SnapshotLoads(base, es, d, d.current, sha);
    SoundSnapshot(base, es, d, d.current, sha);
    CatchUpIsIndependent(base, es, d.current, d.log, d.log.Last(), 0);
  }

  /** Loading a version gives the same state from any snapshot at or below it that loads. */
  lemma LoadsVersion(base: Multi, es: seq<WalEntry>, d: Disk, k: nat, target: nat, sha: Sha)
    requires Sound(base, es, d, sha) && Clean(base, es, d, k) && k < target <= d.log.Last()
    ensures var m := Load(d.snapshots[k], IavlHasher(sha));
      && m.Some? && Healthy(m.value.trees)
      && CatchUp(m.value, d.log, WalVersion(target, base.initial)) == Reached(StateAt(base, es, target))
  {
    VersionBound(base, es, target);
    hide StateAt, Healthy, Committed, CatchUp, WalVersion, WalIndex, Load, IavlHasher, SameRoots, WrittenAt, AtBoundary;
    SnapshotLoads(base, es, d, k, sha);
    var m := StateAt(base, es, k);
    SoundSnapshot(base, es, d, k, sha);
    CatchUpIsIndependent(base, es, k, d.log, d.log.Last(), WalVersion(target, base.initial));
  }

  lemma VersionBound(base: Multi, es: seq<WalEntry>, k: nat)
    requires Committed(base, es) && 1 <= k <= |es|
    ensures WalIndex(WalVersion(k, base.initial), base.initial) == k
    ensures WalVersion(k, base.initial) > 0 && base.initial <= WalVersion(k, base.initial) + 1
  {
    IndexOfVersion(k, base.initial);
  }

  // ------------------------------------------------------ changes to a disk

  function AddSnapshot(d: Disk, k: nat, x: Stored): Disk { d.(snapshots := d.snapshots[k := x]) }
  function LinkTo(d: Disk, k: nat): Disk { d.(current := k) }
  function Remove(d: Disk, k: nat): Disk { d.(snapshots := d.snapshots - {k}) }

  /** Out of range, the log stays as it is. */
  function TruncateFront(log: Log, index: nat): Log {
    if index == 0 || log.entries == [] || index < log.first || index > log.Last() then log
    else Log(index, log.entries[index - log.first..])
  }

  function TruncateBack(log: Log, index: nat): Log {
    if index == 0 || log.entries == [] || index < log.first || index > log.Last() then log
    else Log(log.first, log.entries[..index - log.first + 1])
  }

  lemma AddIsSound(base: Multi, es: seq<WalEntry>, d: Disk, k: nat, x: Stored, sha: Sha)
    requires Sound(base, es, d, sha) && d.current <= k <= |es| && WrittenAt(x, StateAt(base, es, k), sha)
    ensures Sound(base, es, AddSnapshot(d, k, x), sha)
  {
    hide StateAt, Committed, WrittenAt, AtBoundary;
    SoundSnapshot(base, es, d, d.current, sha);
  }

  lemma LinkIsSound(base: Multi, es: seq<WalEntry>, d: Disk, k: nat, sha: Sha)
    requires Sound(base, es, d, sha) && k in d.snapshots
    ensures Sound(base, es, LinkTo(d, k), sha)
  {
    hide StateAt, Committed, WrittenAt, AtBoundary;
  }

  lemma RemoveIsSound(base: Multi, es: seq<WalEntry>, d: Disk, k: nat, sha: Sha)
    requires Sound(base, es, d, sha) && k != d.current
    ensures Sound(base, es, Remove(d, k), sha)
  {
    hide StateAt, Committed, WrittenAt, AtBoundary;
  }

  /** The log may be cut up to the entry after the earliest snapshot. */
  lemma CutFrontIsSound(base: Multi, es: seq<WalEntry>, d: Disk, index: nat, sha: Sha)
    requires Sound(base, es, d, sha) && forall k :: k in d.snapshots ==> index <= k + 1
    ensures Sound(base, es, d.(log := TruncateFront(d.log, index)), sha)
    ensures TruncateFront(d.log, index).Last() == d.log.Last()
  {
    hide StateAt, Committed, WrittenAt, AtBoundary;
    var log := TruncateFront(d.log, index);
    if log != d.log {
      assert log.entries == es[index - 1..d.log.Last()] by {
        SliceOfSlice(es, d.log.first - 1, d.log.Last(), index - d.log.first, |d.log.entries|);
      }
    }
  }

  /** The writer appends the next entries of the history. */
  lemma AppendIsSound(base: Multi, es: seq<WalEntry>, d: Disk, last: nat, sha: Sha)
    requires Sound(base, es, d, sha) && d.log.Last() <= last <= |es|
    ensures Sound(base, es, d.(log := Log(d.log.first, es[d.log.first - 1..last])), sha)
  {
    hide StateAt, Committed, WrittenAt, AtBoundary;
  }

  lemma ReplaysOneMore(base: Multi, es: seq<WalEntry>, e: WalEntry)
    requires Committed(base, es) && Replay(StateAt(base, es, |es|), e).Some?
    ensures Healthy(base.trees) && ReplayAll(base, es + [e]) == Replay(StateAt(base, es, |es|), e)
  {
    assert Healthy(base.trees) && es[..|es|] == es;
    hide Replay, Healthy, Base, ReplayAll, WalVersion;
    ReplayAppend(base, es, [e]);
    var m := StateAt(base, es, |es|);
    ReplayFirst(m, [e], e, []);
    ReplayNone(Replay(m, e).value, []);
  }

  lemma GrowCommitted(base: Multi, es: seq<WalEntry>, e: WalEntry)
    requires Committed(base, es) && WalVersion(|es| + 2, base.initial) < TWO_32
    requires Replay(StateAt(base, es, |es|), e).Some?
    ensures Committed(base, es + [e])
    ensures forall k :: 0 <= k <= |es| ==> StateAt(base, es + [e], k) == StateAt(base, es, k)
    ensures StateAt(base, es + [e], |es| + 1) == Replay(StateAt(base, es, |es|), e).value
  {
    hide Replay, Healthy, Base, ReplayAll;
    ReplaysOneMore(base, es, e);
    var fs := es + [e];
    assert fs[..|es| + 1] == fs;
    forall k | 0 <= k <= |es| ensures fs[..k] == es[..k] && ReplayAll(base, fs[..k]).Some? {
    }
  }

  /** A new version changes nothing on disk. */
  lemma {:induction false} GrowIsSound(base: Multi, es: seq<WalEntry>, d: Disk, e: WalEntry, sha: Sha)
    requires Sound(base, es, d, sha) && WalVersion(|es| + 2, base.initial) < TWO_32
    requires Replay(StateAt(base, es, |es|), e).Some?
    ensures Sound(base, es + [e], d, sha)
  {
    hide StateAt, Committed, Replay, WrittenAt, AtBoundary, WalVersion;
    GrowCommitted(base, es, e);
    var fs := es + [e];
    assert fs[d.log.first - 1..d.log.Last()] == es[d.log.first - 1..d.log.Last()];
    forall k | k in d.snapshots
      ensures k <= |fs| && WrittenAt(d.snapshots[k], StateAt(base, fs, k), sha) && d.log.first <= k + 1
    {
      assert k <= |es| && StateAt(base, fs, k) == StateAt(base, es, k);
    }
  }
}

/** Changes and commits, writes to the log, a background rewrite of the snapshot, and pruning, as
    interleaved steps; a process may stop after any of them. */
module SnapshotProtocol {
  import opened Bytes
  import opened Hashing
  import opened StoreLists
  import TreeStates
  import opened MultiStates
  import opened PendingLogs
  import opened CommitInfos
  import opened Disks
  import CommitProtocol

  /** A rewrite writes a copy of the working trees, with the commit info of the last version, to a
      temporary directory, renames it, swaps the link, loads what it wrote, and catches up with the
      log as far as it goes. */
  datatype Rewrite =
    | NoRewrite
    | Copied(index: nat, x: Stored)
    | Renamed(index: nat)
    | Linked(index: nat)
    | Delivered(index: nat, m: Multi)

  /** Pruning reads the link, and then walks down a list of the snapshots. It spares the newest of
      those older than the snapshot current then, as many as are to be kept, and notes them. */
  datatype Prune =
    | NoPrune
    | Located(current: nat)
    | Deleting(current: nat, keep: nat, todo: seq<nat>, spared: set<nat>)
    | Truncating(earliest: nat)

  /** The working trees have the pending entry applied; `info` is the last commit info. */
  datatype Db = Db(
    es: seq<WalEntry>,
    working: Multi,
    info: CommitInfo,
    pending: WalEntry,
    disk: Disk,
    rewrite: Rewrite,
    prune: Prune)

  const NOTHING := WalEntry([], [])

  datatype Action =
    | UpgradeStores(upgrades: seq<Upgrade>)
    | ChangeStores(changes: seq<Changes>)
    | SaveVersion
    | WriteLog(count: nat)
    | StartRewrite
    | DriftCopy(trees: map<Name, TreeStates.State>)
    | RenameSnapshot
    | SwapLink
    | LoadRewritten
    | RewriteFails
    | Switch
    | ReadLink
    | ListSnapshots(listing: seq<nat>)
    | VisitSnapshot
    | EndVisits(earliest: nat)
    | TruncateLog

  ghost predicate Listing(s: seq<nat>, d: Disk) {
    && (forall i, j :: 0 <= i < j < |s| ==> s[i] > s[j])
    && (forall k :: k in d.snapshots <==> k in s)
  }

  function VersionOf(base: Multi, k: nat): int {
    if k == 0 then base.version else WalVersion(k, base.initial)
  }

  const TWO_31 := 0x8000_0000

  /** The version in the name of a snapshot is read as a signed number of 32 bits. */
  predicate Parses(base: Multi, k: nat) {
    VersionOf(base, k) < TWO_31
  }

  /** Where the log is cut; not at all for a base state below the initial version. */
  function CutPoint(base: Multi, earliest: nat): nat {
    if VersionOf(base, earliest) + 1 < base.initial then 0 else WalIndex(VersionOf(base, earliest) + 1, base.initial)
  }

  ghost predicate Earliest(d: Disk, k: nat) {
    k in d.snapshots && forall j :: j in d.snapshots ==> k <= j
  }

  /** The pending entry leads from the last version to the working trees. */
  ghost predicate Describes(base: Multi, es: seq<WalEntry>, pending: WalEntry, working: Multi) {
    Committed(base, es) && ApplyEntry(StateAt(base, es, |es|), pending) == Some(working)
  }

  ghost predicate CanUpgrade(base: Multi, s: Db, us: seq<Upgrade>) {
    && UpgradedBy(s.working, us).Some?
    && Describes(base, s.es, WalEntry(s.pending.upgrades + us, s.pending.changes), UpgradedBy(s.working, us).value)
  }

  ghost function UpgradedBy(m: Multi, us: seq<Upgrade>): Option<Multi> {
    var trees := UpgradeAll(m.trees, us, NewTree(NextVersion(m.version, m.initial)));
    if trees.None? then None else Some(Multi(m.initial, m.version, trees.value))
  }

  /** A copy shares the nodes that were written since the last version, and later writes change them
      in place (`Trees.WriteAfterCopy`). So a tree that was written to may turn into another one;
      a tree that was not stays as it is. */
  ghost predicate Drifts(copy: map<Name, TreeStates.State>, trees: map<Name, TreeStates.State>) {
    && Healthy(trees) && trees.Keys == copy.Keys
    && forall n :: n in copy ==> trees[n].version == copy[n].version && (!copy[n].dirty ==> trees[n] == copy[n])
  }

  /** Upgrades must leave an entry that describes the trees; `MovedUpgrades` says when they do. A
      load that only a collision of hashes lets through is not looked at. */
  ghost predicate Enabled(base: Multi, s: Db, a: Action, sha: Sha) {
    match a
    case UpgradeStores(us) => CanUpgrade(base, s, us)
    case ChangeStores(cs) => Healthy(s.working.trees) && ApplyChanges(s.working.trees, cs).Some?
    case SaveVersion =>
      Healthy(s.working.trees) && SaveAll(s.working).Some? && WalVersion(|s.es| + 2, base.initial) < TWO_32
    case WriteLog(n) => s.disk.log.Last() + n <= |s.es| && s.disk.log.first >= 1
    case StartRewrite => s.rewrite == NoRewrite
    case DriftCopy(trees) => s.rewrite.Copied? && Drifts(s.rewrite.x.trees, trees)
    case RenameSnapshot => s.rewrite.Copied? && s.rewrite.index !in s.disk.snapshots
    case SwapLink => s.rewrite.Renamed?
    case LoadRewritten => s.rewrite.Linked? && Durable(s.disk) >= 0 && Trusted(base, s.es, s.disk, s.disk.current, sha)
        && LoadsHealthy(s.disk.snapshots[s.disk.current], sha) && LoadLatest(s.disk, sha).Reached?
    case RewriteFails => s.rewrite != NoRewrite
    case Switch => s.rewrite.Delivered? && s.disk.log.Last() >= |s.es|
    case ReadLink => s.prune == NoPrune
    case ListSnapshots(listing) => s.prune.Located? && Listing(listing, s.disk)
    case VisitSnapshot => s.prune.Deleting? && s.prune.todo != []
    case EndVisits(k) => s.prune.Deleting? && s.prune.todo == [] && Earliest(s.disk, k)
    case TruncateLog => s.prune.Truncating?
  }

  /** The state loaded catches up with the rest of the log, and what is pending is applied again. */
  ghost function Switched(s: Db): Option<(Multi, Multi)>
    requires s.rewrite.Delivered?
  {
    if !Healthy(s.rewrite.m.trees) then None
    else
      var c := CatchUp(s.rewrite.m, s.disk.log, 0);
      if c.Failed? || !Healthy(c.m.trees) then None
      else
        var w := ApplyEntry(c.m, s.pending);
        if w.None? then None else Some((c.m, w.value))
  }

  ghost function InfoAt(m: Multi, sha: Sha): CommitInfo { InfoOf(m.version, m.trees, IavlHasher(sha)) }

  ghost function Changed(s: Db, cs: seq<Changes>): Db
    requires Healthy(s.working.trees) && ApplyChanges(s.working.trees, cs).Some?
  {
    s.(working := s.working.(trees := ApplyChanges(s.working.trees, cs).value),
       pending := WalEntry(s.pending.upgrades, s.pending.changes + cs))
  }

  ghost function Saving(s: Db, sha: Sha): Db
    requires Healthy(s.working.trees) && SaveAll(s.working).Some?
  {
    var m := SaveAll(s.working).value;
    s.(es := s.es + [s.pending], working := m, info := InfoAt(m, sha), pending := NOTHING)
  }

  function LogWritten(s: Db, n: nat): Db
    requires 1 <= s.disk.log.first && s.disk.log.Last() + n <= |s.es|
  {
    s.(disk := s.disk.(log := Log(s.disk.log.first, s.es[s.disk.log.first - 1..s.disk.log.Last() + n])))
  }

  function Copying(s: Db): Db {
    s.(rewrite := Copied(|s.es|, Stored(s.working.initial, s.working.trees, s.info)))
  }

  function Drifted(s: Db, trees: map<Name, TreeStates.State>): Db
    requires s.rewrite.Copied?
  {
    s.(rewrite := Copied(s.rewrite.index, s.rewrite.x.(trees := trees)))
  }

  function Renaming(s: Db): Db
    requires s.rewrite.Copied?
  {
    s.(disk := AddSnapshot(s.disk, s.rewrite.index, s.rewrite.x), rewrite := Renamed(s.rewrite.index))
  }

  function Linking(s: Db): Db
    requires s.rewrite.Renamed?
  {
    s.(disk := LinkTo(s.disk, s.rewrite.index), rewrite := Linked(s.rewrite.index))
  }

  /** An error leaves the database as it was. */
  ghost function Switching(s: Db, sha: Sha): Db
    requires s.rewrite.Delivered?
  {
    var r := Switched(s);
    if r.None? then s.(rewrite := NoRewrite)
    else s.(working := r.value.1, info := InfoAt(r.value.0, sha), rewrite := NoRewrite)
  }

  function Truncated(base: Multi, s: Db): Db
    requires s.prune.Truncating?
  {
    s.(disk := s.disk.(log := TruncateFront(s.disk.log, CutPoint(base, s.prune.earliest))), prune := NoPrune)
  }

  ghost function Next(base: Multi, s: Db, a: Action, keepRecent: nat, sha: Sha): Db
    requires Enabled(base, s, a, sha)
  {
    match a
    case UpgradeStores(us) =>
      s.(working := UpgradedBy(s.working, us).value, pending := WalEntry(s.pending.upgrades + us, s.pending.changes))
    case ChangeStores(cs) => Changed(s, cs)
    case SaveVersion => Saving(s, sha)
    case WriteLog(n) => LogWritten(s, n)
    case StartRewrite => Copying(s)
    case DriftCopy(trees) => Drifted(s, trees)
    case RenameSnapshot => Renaming(s)
    case SwapLink => Linking(s)
    case LoadRewritten => s.(rewrite := Delivered(Durable(s.disk), LoadLatest(s.disk, sha).m))
    case RewriteFails => s.(rewrite := NoRewrite)
    case Switch => Switching(s, sha)
    case ReadLink => if Parses(base, s.disk.current) then s.(prune := Located(s.disk.current)) else s
    case ListSnapshots(listing) => s.(prune := Deleting(s.prune.current, keepRecent, listing, {}))
    case VisitSnapshot => Visit(base, s)
    case EndVisits(k) => s.(prune := if Parses(base, k) then Truncating(k) else NoPrune)
    case TruncateLog => Truncated(base, s)
  }

  /** A name that cannot be read ends the walk. */
  function Visit(base: Multi, s: Db): Db
    requires s.prune.Deleting? && s.prune.todo != []
  {
    var p := s.prune;
    var k, rest := p.todo[0], p.todo[1..];
    if !Parses(base, k) then s.(prune := NoPrune)
    else if k >= p.current then s.(prune := p.(todo := rest))
    else if p.keep > 0 then s.(prune := Deleting(p.current, p.keep - 1, rest, p.spared + {k}))
    else s.(prune := p.(todo := rest), disk := Remove(s.disk, k))
  }

  // ---------------------------------------------------------- the invariant

  /** What a rewrite wrote has the commit info of a committed version, what it loaded is one; and
      its snapshot is never older than the current one. */
  ghost predicate RewriteSound(base: Multi, es: seq<WalEntry>, d: Disk, r: Rewrite, sha: Sha)
    requires Committed(base, es)
  {
    match r
    case NoRewrite => true
    case Copied(k, x) => d.current <= k <= |es| && WrittenAt(x, StateAt(base, es, k), sha)
    case Renamed(k) => d.current <= k && k in d.snapshots
    case Linked(k) => true
    case Delivered(k, m) => d.current <= k <= |es| && m == StateAt(base, es, k)
  }

  /** Pruning has spared as many snapshots as it counted; they are all there, newer than any
      that is still to be looked at. */
  ghost predicate PruneSound(d: Disk, p: Prune, keepRecent: nat) {
    match p
    case NoPrune => true
    case Located(cur) => cur <= d.current
    case Deleting(cur, keep, todo, spared) =>
      && cur <= d.current && |spared| + keep == keepRecent
      && (forall i, j :: 0 <= i < j < |todo| ==> todo[i] > todo[j])
      && (forall i :: 0 <= i < |todo| ==> todo[i] in d.snapshots)
      && (forall k :: k in spared ==> k in d.snapshots && k < cur && (forall i :: 0 <= i < |todo| ==> todo[i] < k))
    case Truncating(earliest) => forall k :: k in d.snapshots ==> earliest <= k
  }

  ghost predicate Inv(base: Multi, s: Db, keepRecent: nat, sha: Sha) {
    && Sound(base, s.es, s.disk, sha)
    && Describes(base, s.es, s.pending, s.working)
    && s.info == InfoAt(StateAt(base, s.es, |s.es|), sha)
    && RewriteSound(base, s.es, s.disk, s.rewrite, sha)
    && PruneSound(s.disk, s.prune, keepRecent)
  }

  lemma CutPointIsAfter(base: Multi, es: seq<WalEntry>, k: nat)
    requires Committed(base, es) && k <= |es|
    ensures CutPoint(base, k) <= k + 1
  {
    hide ReplayAll, Healthy;
    IndexOfVersion(1, base.initial);
    if k > 0 { IndexOfVersion(k + 1, base.initial); IndexOfVersion(k, base.initial); }
  }

  lemma ChangeKeeps(base: Multi, s: Db, cs: seq<Changes>, keepRecent: nat, sha: Sha)
    requires Inv(base, s, keepRecent, sha) && Healthy(s.working.trees) && ApplyChanges(s.working.trees, cs).Some?
    ensures Inv(base, Changed(s, cs), keepRecent, sha)
  {
    hide Committed, StateAt, Sound, RewriteSound, PruneSound, InfoAt;
    var m := StateAt(base, s.es, |s.es|);
    EntryGrows(m, s.pending, cs);
  }

  lemma EntryGrows(m: Multi, e: WalEntry, cs: seq<Changes>)
    requires Healthy(m.trees) && ApplyEntry(m, e).Some?
    ensures var w := ApplyEntry(m, e).value;
      var r := ApplyChanges(w.trees, cs);
      ApplyEntry(m, WalEntry(e.upgrades, e.changes + cs)) == if r.None? then None else Some(w.(trees := r.value))
  {
    hide Healthy, UpgradeAll, ApplyChanges;
    var next := NextVersion(m.version, m.initial);
    UpgradeAllIsHealthy(m.trees, e.upgrades, next);
    ApplyChangesAppend(UpgradeAll(m.trees, e.upgrades, NewTree(next)).value, e.changes, cs);
  }

  lemma SaveKeeps(base: Multi, s: Db, keepRecent: nat, sha: Sha)
    requires Inv(base, s, keepRecent, sha) && Healthy(s.working.trees) && SaveAll(s.working).Some?
    requires WalVersion(|s.es| + 2, base.initial) < TWO_32
    ensures Inv(base, Saving(s, sha), keepRecent, sha)
  {
    hide Committed, StateAt, Sound, ApplyEntry, SaveAll, PruneSound, Healthy, InfoAt, WrittenAt;
    var e, m := s.pending, StateAt(base, s.es, |s.es|);
    assert Replay(m, e) == SaveAll(s.working);
    GrowCommitted(base, s.es, e);
    GrowIsSound(base, s.es, s.disk, e, sha);
    NothingApplied(SaveAll(s.working).value);
  }

  lemma NothingApplied(m: Multi)
    requires Healthy(m.trees)
    ensures ApplyEntry(m, NOTHING) == Some(m)
  {
    hide UpgradeAll;
    NoUpgrades(m.trees, NewTree(NextVersion(m.version, m.initial)));
  }

  lemma WriteKeeps(base: Multi, s: Db, n: nat, keepRecent: nat, sha: Sha)
    requires Inv(base, s, keepRecent, sha) && 1 <= s.disk.log.first && s.disk.log.Last() + n <= |s.es|
    ensures Inv(base, LogWritten(s, n), keepRecent, sha)
    ensures LogWritten(s, n).disk.log.Last() == s.disk.log.Last() + n
  {
    hide Committed, StateAt, Sound, Describes, InfoAt;
    AppendIsSound(base, s.es, s.disk, s.disk.log.Last() + n, sha);
  }

  /** What is copied has the commit info of the last version. */
  lemma CopyKeeps(base: Multi, s: Db, keepRecent: nat, sha: Sha)
    requires Inv(base, s, keepRecent, sha)
    ensures Inv(base, Copying(s), keepRecent, sha)
  {
    hide Committed, StateAt, ApplyEntry, Aligned, PruneSound, InfoOf, NextVersion;
    assert s.disk.current in s.disk.snapshots;
    VersionStep(base, s.es);
    AppliedInStep(StateAt(base, s.es, |s.es|), s.pending);
  }

  /** Whatever it turns into, it keeps that commit info. */
  lemma DriftKeeps(base: Multi, s: Db, trees: map<Name, TreeStates.State>, keepRecent: nat, sha: Sha)
    requires Inv(base, s, keepRecent, sha) && s.rewrite.Copied? && Drifts(s.rewrite.x.trees, trees)
    ensures Inv(base, Drifted(s, trees), keepRecent, sha)
  {
    hide Committed, StateAt, Sound, Describes, InfoAt, InfoOf, PruneSound, NextVersion, Healthy;
  }

  lemma VersionStep(base: Multi, es: seq<WalEntry>)
    requires Committed(base, es)
    ensures var m := StateAt(base, es, |es|); Aligned(m) && NextVersion(m.version, m.initial) < TWO_32
  {
    hide StateAt, ReplayAll;
    StateVersions(base, es, |es|);
  }

  lemma RenameKeeps(base: Multi, s: Db, keepRecent: nat, sha: Sha)
    requires Inv(base, s, keepRecent, sha) && s.rewrite.Copied? && s.rewrite.index !in s.disk.snapshots
    ensures Inv(base, Renaming(s), keepRecent, sha)
  {
    hide Committed, StateAt, WrittenAt, AtBoundary, Describes, InfoAt;
    AddIsSound(base, s.es, s.disk, s.rewrite.index, s.rewrite.x, sha);
    assert s.disk.current in s.disk.snapshots;
  }

  lemma LinkKeeps(base: Multi, s: Db, keepRecent: nat, sha: Sha)
    requires Inv(base, s, keepRecent, sha) && s.rewrite.Renamed?
    ensures Inv(base, Linking(s), keepRecent, sha) && s.disk.current <= s.rewrite.index
  {
    hide Committed, StateAt, Sound, WrittenAt, Describes, InfoAt;
    LinkIsSound(base, s.es, s.disk, s.rewrite.index, sha);
  }

  lemma LoadKeeps(base: Multi, s: Db, keepRecent: nat, sha: Sha)
    requires Inv(base, s, keepRecent, sha) && s.rewrite.Linked? && Durable(s.disk) >= 0
    requires Trusted(base, s.es, s.disk, s.disk.current, sha)
    requires LoadsHealthy(s.disk.snapshots[s.disk.current], sha) && LoadLatest(s.disk, sha).Reached?
    ensures Inv(base, s.(rewrite := Delivered(Durable(s.disk), LoadLatest(s.disk, sha).m)), keepRecent, sha)
  {
    hide Committed, StateAt, Sound, LoadLatest, PruneSound, Describes, InfoAt, Clean, Trusted, LoadsHealthy;
    LoadsCommitted(base, s.es, s.disk, sha);
  }

  /** The switch to a rewritten snapshot never fails, and it is invisible: it replaces the working
      trees and the commit info by equal ones. */
  lemma SwitchIsInvisible(base: Multi, s: Db, keepRecent: nat, sha: Sha)
    requires Inv(base, s, keepRecent, sha) && s.rewrite.Delivered? && s.disk.log.Last() >= |s.es|
    ensures Switched(s) == Some((StateAt(base, s.es, |s.es|), s.working))
    ensures Switching(s, sha) == s.(rewrite := NoRewrite)
    ensures Inv(base, Switching(s, sha), keepRecent, sha)
  {
    hide Committed, StateAt, CatchUp, PruneSound, ApplyEntry, WrittenAt, AtBoundary, InfoAt;
    var last := s.disk.log.Last();
    assert s.disk.log.first <= s.disk.current + 1;
    CatchUpIsIndependent(base, s.es, s.rewrite.index, s.disk.log, last, 0);
  }

  lemma VisitIsPruneSound(base: Multi, s: Db, keepRecent: nat)
    requires s.prune.Deleting? && s.prune.todo != [] && PruneSound(s.disk, s.prune, keepRecent)
    ensures PruneSound(Visit(base, s).disk, Visit(base, s).prune, keepRecent)
    ensures var t, k := Visit(base, s), s.prune.todo[0];
      t.disk != s.disk ==> k < s.disk.current && t.disk == Remove(s.disk, k)
  {
    var p, t := s.prune, Visit(base, s);
    var k, rest := p.todo[0], p.todo[1..];
    assert forall i :: 0 <= i < |rest| ==> rest[i] == p.todo[i + 1];
    assert k !in p.spared;
  }

  lemma VisitKeeps(base: Multi, s: Db, keepRecent: nat, sha: Sha)
    requires Inv(base, s, keepRecent, sha) && s.prune.Deleting? && s.prune.todo != []
    ensures Inv(base, Visit(base, s), keepRecent, sha) && Durable(Visit(base, s).disk) == Durable(s.disk)
  {
    hide Committed, StateAt, Describes, InfoAt, Sound, PruneSound;
    var k := s.prune.todo[0];
    VisitIsPruneSound(base, s, keepRecent);
    if Visit(base, s).disk != s.disk { RemoveIsSound(base, s.es, s.disk, k, sha); }
  }

  /** A snapshot is removed only if there are as many newer ones to be kept, older than the
      one that was current when pruning began. */
  lemma RemovesOnlyOld(base: Multi, s: Db, keepRecent: nat, k: nat, sha: Sha)
    requires Inv(base, s, keepRecent, sha) && s.prune.Deleting? && s.prune.todo != []
    requires k in s.disk.snapshots && k !in Visit(base, s).disk.snapshots
    ensures var spared := s.prune.spared;
      && |spared| == keepRecent && k < s.prune.current <= s.disk.current
      && forall j :: j in spared ==> j in Visit(base, s).disk.snapshots && k < j < s.prune.current
  {
    hide Committed, StateAt, Describes, InfoAt, Sound;
  }

  lemma TruncateKeeps(base: Multi, s: Db, keepRecent: nat, sha: Sha)
    requires Inv(base, s, keepRecent, sha) && s.prune.Truncating?
    ensures Inv(base, Truncated(base, s), keepRecent, sha) && Truncated(base, s).disk.log.Last() == s.disk.log.Last()
  {
    hide Committed, StateAt, WrittenAt, Describes, InfoAt, TruncateFront, CutPoint, AtBoundary;
    var k := s.prune.earliest;
    assert k <= s.disk.current <= |s.es|;
    CutPointIsAfter(base, s.es, k);
    CutFrontIsSound(base, s.es, s.disk, CutPoint(base, k), sha);
  }

  /** Every step keeps the disk sound, and no step takes back the version a load would give. */
  lemma StepKeepsInv(base: Multi, s: Db, a: Action, keepRecent: nat, sha: Sha)
    requires Inv(base, s, keepRecent, sha) && Enabled(base, s, a, sha)
    ensures var t := Next(base, s, a, keepRecent, sha);
      Inv(base, t, keepRecent, sha) && Durable(t.disk) >= Durable(s.disk)
  {
    hide Committed, StateAt, Sound, RewriteSound, PruneSound, Replay, CatchUp, LoadLatest, Healthy, TruncateFront,
         Listing, Earliest;
    hide Describes, ApplyChanges, SaveAll, UpgradedBy, Trusted, LoadsHealthy, Switched, InfoAt;
    hide Visit, Drifts;
    match a
    case ChangeStores(cs) => ChangeKeeps(base, s, cs, keepRecent, sha);
    case SaveVersion => SaveKeeps(base, s, keepRecent, sha);
    case WriteLog(n) => WriteKeeps(base, s, n, keepRecent, sha);
    case StartRewrite => CopyKeeps(base, s, keepRecent, sha);
    case DriftCopy(trees) => DriftKeeps(base, s, trees, keepRecent, sha);
    case RenameSnapshot => RenameKeeps(base, s, keepRecent, sha);
    case SwapLink => LinkKeeps(base, s, keepRecent, sha);
    case LoadRewritten => LoadKeeps(base, s, keepRecent, sha);
    case Switch => SwitchIsInvisible(base, s, keepRecent, sha);
    case VisitSnapshot => VisitKeeps(base, s, keepRecent, sha);
    case TruncateLog => TruncateKeeps(base, s, keepRecent, sha);
    case _ => OtherKeeps(base, s, a, keepRecent, sha);
  }

  lemma OtherKeeps(base: Multi, s: Db, a: Action, keepRecent: nat, sha: Sha)
    requires Inv(base, s, keepRecent, sha) && Enabled(base, s, a, sha)
    requires a.UpgradeStores? || a.RewriteFails? || a.ReadLink? || a.ListSnapshots? || a.EndVisits?
    ensures var t := Next(base, s, a, keepRecent, sha); Inv(base, t, keepRecent, sha) && t.disk == s.disk
  {
    hide Committed, StateAt, Sound, ApplyEntry, UpgradedBy, InfoAt;
  }

  // ------------------------------------------------------------- whole runs

  ghost predicate Reaches(base: Multi, s: Db, run: seq<Action>, keepRecent: nat, sha: Sha, t: Db)
    decreases |run|
  {
    if run == [] then s == t
    else
      && Enabled(base, s, run[0], sha)
      && Reaches(base, Next(base, s, run[0], keepRecent, sha), run[1..], keepRecent, sha, t)
  }

  lemma {:induction false} RunKeepsInv(base: Multi, s: Db, run: seq<Action>, keepRecent: nat, sha: Sha, t: Db)
    requires Inv(base, s, keepRecent, sha) && Reaches(base, s, run, keepRecent, sha, t)
    ensures Inv(base, t, keepRecent, sha) && Durable(t.disk) >= Durable(s.disk)
    decreases |run|
  {
    if run != [] {
      hide Inv, Enabled, Sound, Next;
      StepKeepsInv(base, s, run[0], keepRecent, sha);
      RunKeepsInv(base, Next(base, s, run[0], keepRecent, sha), run[1..], keepRecent, sha, t);
    }
  }

  /** Wherever a run stops, the current snapshot exists. A load gives exactly the committed state at
      it or at the end of the log, and never an earlier one than a load would have given before; or
      it is refused, if and only if the current snapshot does not hold the trees of its version. */
  lemma StopAnywhere(base: Multi, s: Db, run: seq<Action>, keepRecent: nat, sha: Sha, t: Db)
    requires Inv(base, s, keepRecent, sha) && Reaches(base, s, run, keepRecent, sha, t)
    requires Trusted(base, t.es, t.disk, t.disk.current, sha)
    ensures LoadsHealthy(t.disk.snapshots[t.disk.current], sha)
    ensures 0 <= Durable(t.disk) <= |t.es| && Durable(t.disk) >= Durable(s.disk)
    ensures LoadLatest(t.disk, sha)
         == if Clean(base, t.es, t.disk, t.disk.current) then Reached(StateAt(base, t.es, Durable(t.disk))) else Failed
  {
    hide StateAt, Reaches, LoadLatest, Healthy, RewriteSound, PruneSound, Clean, Trusted, LoadsHealthy, ApplyEntry;
    RunKeepsInv(base, s, run, keepRecent, sha, t);
    LoadsCommitted(base, t.es, t.disk, sha);
  }

  /** After a stop the next commit fits the log if and only if the log has reached the
      current snapshot; if it has not, `CommitProtocol.GapStays` says that no commit ever
      gets into the log. */
  lemma CommitsFit(base: Multi, s: Db, run: seq<Action>, keepRecent: nat, sha: Sha, t: Db, e: WalEntry)
    requires Inv(base, s, keepRecent, sha) && Reaches(base, s, run, keepRecent, sha, t)
    ensures t.disk.log.Last() >= 0 && Durable(t.disk) >= t.disk.log.Last()
    ensures CommitProtocol.Refused([CommitProtocol.Queued(Durable(t.disk) + 1, e)], t.disk.log.Last())
      <==> t.disk.current > t.disk.log.Last()
  {
    hide Reaches, Committed, StateAt, RewriteSound, PruneSound, ApplyEntry, CommitProtocol.Refused,
         CommitProtocol.Fresh;
    RunKeepsInv(base, s, run, keepRecent, sha, t);
    assert t.disk.log.first >= 1;
    CommitProtocol.NextFits(Durable(t.disk), t.disk.log.Last(), e);
  }

  // --------------------------------------------- rewrites between two versions

  /** A whole rewrite, up to the swap of the link. */
  function Rewritten(s: Db): Db { Linking(Renaming(Copying(s))) }

  lemma LinkedIsSound(base: Multi, s: Db, keepRecent: nat, sha: Sha)
    requires Inv(base, s, keepRecent, sha) && s.rewrite.Copied? && s.rewrite.index !in s.disk.snapshots
    ensures var d, k := Linking(Renaming(s)).disk, s.rewrite.index;
      && Committed(base, s.es) && Sound(base, s.es, d, sha)
      && d.current == k && k in d.snapshots && d.snapshots[k].trees == s.rewrite.x.trees
  {
    hide Inv;
    RenameKeeps(base, s, keepRecent, sha);
    LinkKeeps(base, Renaming(s), keepRecent, sha);
    InvIsSound(base, Linking(Renaming(s)), keepRecent, sha);
  }

  lemma InvIsSound(base: Multi, s: Db, keepRecent: nat, sha: Sha)
    requires Inv(base, s, keepRecent, sha)
    ensures Committed(base, s.es) && Sound(base, s.es, s.disk, sha)
  {
  }

  /** Whatever happened to the copy: once it is linked, it is the current snapshot, and it loads if
      and only if its trees have the names and hashes of its version. */
  lemma LinkedLoadsIff(base: Multi, s: Db, keepRecent: nat, sha: Sha)
    requires Inv(base, s, keepRecent, sha) && s.rewrite.Copied? && s.rewrite.index !in s.disk.snapshots
    ensures var d, k := Linking(Renaming(s)).disk, s.rewrite.index;
      && d.current == k && k in d.snapshots && Committed(base, s.es) && k <= |s.es|
      && (Load(d.snapshots[k], IavlHasher(sha)).Some?
          <==> SameHashes(s.rewrite.x.trees, StateAt(base, s.es, k).trees, IavlHasher(sha)))
  {
    hide Inv, Sound, StateAt, Load, SameHashes, IavlHasher, Committed;
    LinkedIsSound(base, s, keepRecent, sha);
    SnapshotLoadsIff(base, s.es, Linking(Renaming(s)).disk, s.rewrite.index, sha);
  }

  /** A rewrite from any state, with no change in between: it loads if and only if the working
      trees have the names and hashes of the last commit. */
  lemma RewriteLoadsIff(base: Multi, s: Db, keepRecent: nat, sha: Sha)
    requires Inv(base, s, keepRecent, sha) && |s.es| !in s.disk.snapshots
    ensures var d := Rewritten(s).disk;
      && d.current == |s.es| && |s.es| in d.snapshots
      && (Load(d.snapshots[|s.es|], IavlHasher(sha)).Some?
          <==> SameHashes(s.working.trees, StateAt(base, s.es, |s.es|).trees, IavlHasher(sha)))
  {
    hide Inv, Sound, StateAt, Load, SameHashes, IavlHasher, Committed;
    CopyKeeps(base, s, keepRecent, sha);
    LinkedLoadsIff(base, Copying(s), keepRecent, sha);
  }

  /** If nothing is pending, the working trees are those of the last commit. */
  lemma NothingPending(base: Multi, s: Db, keepRecent: nat, sha: Sha)
    requires Inv(base, s, keepRecent, sha) && s.pending == NOTHING
    ensures s.working == StateAt(base, s.es, |s.es|)
  {
    hide Sound, StateAt, RewriteSound, PruneSound, InfoAt, ApplyEntry;
    NothingApplied(StateAt(base, s.es, |s.es|));
  }

  /** So a rewrite with nothing pending can be loaded, and gives the last version. */
  lemma RewriteOfCommitLoads(base: Multi, s: Db, keepRecent: nat, sha: Sha)
    requires Inv(base, s, keepRecent, sha) && |s.es| !in s.disk.snapshots && s.pending == NOTHING
    ensures var d := Rewritten(s).disk;
      && |s.es| in d.snapshots
      && Load(d.snapshots[|s.es|], IavlHasher(sha)) == Some(StateAt(base, s.es, |s.es|))
  {
    hide Inv, Sound, StateAt, Load, IavlHasher, Committed, NoCollision;
    NothingPending(base, s, keepRecent, sha);
    CopyKeeps(base, s, keepRecent, sha);
    LinkedIsSound(base, Copying(s), keepRecent, sha);
    SnapshotLoads(base, s.es, Rewritten(s).disk, |s.es|, sha);
  }

  /** All snapshots, and the copy being written, hold the trees of their versions. */
  ghost predicate AllClean(base: Multi, s: Db) {
    && Committed(base, s.es)
    && (forall k :: k in s.disk.snapshots ==> Clean(base, s.es, s.disk, k))
    && (s.rewrite.Copied? ==>
        && s.rewrite.index <= |s.es| && NoneDirty(s.rewrite.x.trees)
        && SameRoots(s.rewrite.x.trees, StateAt(base, s.es, s.rewrite.index).trees))
  }

  ghost predicate NoneDirty(trees: map<Name, TreeStates.State>) {
    forall n :: n in trees ==> !trees[n].dirty
  }

  lemma NoDrift(copy: map<Name, TreeStates.State>, trees: map<Name, TreeStates.State>)
    requires NoneDirty(copy) && Drifts(copy, trees)
    ensures trees == copy
  {
    hide Healthy;
  }

  /** Rewrites are started with nothing pending. */
  ghost predicate Careful(base: Multi, s: Db, run: seq<Action>, keepRecent: nat, sha: Sha)
    decreases |run|
  {
    run != [] && Enabled(base, s, run[0], sha) ==>
      && (run[0].StartRewrite? ==> s.pending == NOTHING)
      && Careful(base, Next(base, s, run[0], keepRecent, sha), run[1..], keepRecent, sha)
  }

  lemma SaveKeepsClean(base: Multi, s: Db, sha: Sha)
    requires AllClean(base, s) && Describes(base, s.es, s.pending, s.working)
    requires Healthy(s.working.trees) && SaveAll(s.working).Some? && WalVersion(|s.es| + 2, base.initial) < TWO_32
    ensures AllClean(base, Saving(s, sha))
  {
    hide Committed, StateAt, ApplyEntry, SaveAll, Healthy, InfoAt, SameRoots;
    GrowCommitted(base, s.es, s.pending);
  }

  lemma StepKeepsClean(base: Multi, s: Db, a: Action, keepRecent: nat, sha: Sha)
    requires Inv(base, s, keepRecent, sha) && AllClean(base, s) && Enabled(base, s, a, sha)
    requires a.StartRewrite? ==> s.pending == NOTHING
    ensures AllClean(base, Next(base, s, a, keepRecent, sha))
  {
    hide Committed, StateAt, Sound, RewriteSound, PruneSound, Listing, Earliest, Inv, SameRoots;
    hide Describes, ApplyChanges, SaveAll, UpgradedBy, Trusted, LoadsHealthy, LoadLatest, Switched, InfoAt, Saving,
         Healthy, Drifts, NoneDirty;
    match a
    case SaveVersion => CleanSave(base, s, keepRecent, sha);
    case StartRewrite => CleanCopy(base, s, keepRecent, sha);
    case DriftCopy(trees) => NoDrift(s.rewrite.x.trees, trees);
    case _ =>
  }

  lemma CleanSave(base: Multi, s: Db, keepRecent: nat, sha: Sha)
    requires Inv(base, s, keepRecent, sha) && AllClean(base, s)
    requires Healthy(s.working.trees) && SaveAll(s.working).Some? && WalVersion(|s.es| + 2, base.initial) < TWO_32
    ensures AllClean(base, Saving(s, sha))
  {
    hide Committed, StateAt, Sound, RewriteSound, PruneSound, InfoAt, Describes, Healthy, SaveAll, Saving, AllClean;
    SaveKeepsClean(base, s, sha);
  }

  lemma CleanCopy(base: Multi, s: Db, keepRecent: nat, sha: Sha)
    requires Inv(base, s, keepRecent, sha) && AllClean(base, s) && s.pending == NOTHING
    ensures AllClean(base, Copying(s))
  {
    InvAtBoundary(base, s, keepRecent, sha);
    hide Committed, StateAt, Inv;
    NothingPending(base, s, keepRecent, sha);
  }

  lemma InvAtBoundary(base: Multi, s: Db, keepRecent: nat, sha: Sha)
    requires Inv(base, s, keepRecent, sha)
    ensures Committed(base, s.es) && AtBoundary(StateAt(base, s.es, |s.es|))
  {
    hide StateAt, AtBoundary, WrittenAt, Describes, InfoAt, RewriteSound, PruneSound;
    StateAtBoundary(base, s.es, |s.es|);
  }

  lemma {:induction false} RunKeepsClean(base: Multi, s: Db, run: seq<Action>, keepRecent: nat, sha: Sha, t: Db)
    requires Inv(base, s, keepRecent, sha) && AllClean(base, s)
    requires Reaches(base, s, run, keepRecent, sha, t) && Careful(base, s, run, keepRecent, sha)
    ensures AllClean(base, t)
    decreases |run|
  {
    if run != [] {
      hide Inv, Enabled, Next, AllClean;
      StepKeepsInv(base, s, run[0], keepRecent, sha);
      StepKeepsClean(base, s, run[0], keepRecent, sha);
      RunKeepsClean(base, Next(base, s, run[0], keepRecent, sha), run[1..], keepRecent, sha, t);
    }
  }

  /** If rewrites are started with nothing pending, a load succeeds wherever a run stops. */
  lemma CarefulStop(base: Multi, s: Db, run: seq<Action>, keepRecent: nat, sha: Sha, t: Db)
    requires Inv(base, s, keepRecent, sha) && AllClean(base, s)
    requires Reaches(base, s, run, keepRecent, sha, t) && Careful(base, s, run, keepRecent, sha)
    ensures t.disk.current in t.disk.snapshots && LoadsHealthy(t.disk.snapshots[t.disk.current], sha)
    ensures Committed(base, t.es) && 0 <= Durable(t.disk) <= |t.es| && Durable(t.disk) >= Durable(s.disk)
    ensures LoadLatest(t.disk, sha) == Reached(StateAt(base, t.es, Durable(t.disk)))
  {
    hide StateAt, Reaches, Careful, LoadLatest, Healthy, RewriteSound, PruneSound, LoadsHealthy, Describes, InfoAt;
    RunKeepsInv(base, s, run, keepRecent, sha, t);
    RunKeepsClean(base, s, run, keepRecent, sha, t);
    LoadsCommitted(base, t.es, t.disk, sha);
  }

  // ----------------------------------------------------------------- inputs

  /** A new database: one empty snapshot, and an empty log. */
  ghost function NewDb(sha: Sha): Db {
    var base := Multi(0, 0, map[]);
    Db([], base, InfoAt(base, sha), NOTHING,
       Disk(map[0 := Written(base, map[], IavlHasher(sha))], 0, Log(1, [])), NoRewrite, NoPrune)
  }

  lemma NewDbIsSound(sha: Sha)
    ensures Inv(Multi(0, 0, map[]), NewDb(sha), 0, sha) && AllClean(Multi(0, 0, map[]), NewDb(sha))
  {
    var base, s := Multi(0, 0, map[]), NewDb(sha);
    var none: seq<WalEntry> := [];
    assert none[..0] == none && StateAt(base, none, 0) == base;
    NothingApplied(base);
  }

  /** Its first version, with nothing in it. */
  lemma OneVersion(sha: Sha) returns (s: Db)
    ensures var base := Multi(0, 0, map[]);
      && Inv(base, s, 0, sha) && Reaches(base, NewDb(sha), [SaveVersion], 0, sha, s)
      && s == NewDb(sha).(es := [NOTHING], working := Multi(0, 1, map[]), info := s.info)
      && StateAt(base, s.es, |s.es|) == s.working
  {
    var base, d := Multi(0, 0, map[]), NewDb(sha);
    NewDbIsSound(sha);
    hide ApplyEntry, Sound, InfoAt, Written;
    assert SaveAll(d.working) == Some(Multi(0, 1, map[]));
    assert Enabled(base, d, SaveVersion, sha);
    s := Next(base, d, SaveVersion, 0, sha);
    StepKeepsInv(base, d, SaveVersion, 0, sha);
    assert [SaveVersion][1..] == [] && d.es + [NOTHING] == [NOTHING];
    assert Reaches(base, s, [], 0, sha, s);
    NothingPending(base, s, 0, sha);
  }

  const REWRITE := [StartRewrite, RenameSnapshot, SwapLink]

  lemma RewriteReaches(base: Multi, s: Db, keepRecent: nat, sha: Sha)
    requires s.rewrite == NoRewrite && |s.es| !in s.disk.snapshots
    ensures Reaches(base, s, REWRITE, keepRecent, sha, Rewritten(s))
  {
    var a, b, c := Copying(s), Renaming(Copying(s)), Rewritten(s);
    assert REWRITE[1..] == [RenameSnapshot, SwapLink] && REWRITE[1..][1..] == [SwapLink]
      && REWRITE[1..][1..][1..] == [];
    assert Reaches(base, c, [], keepRecent, sha, c);
    assert Reaches(base, b, [SwapLink], keepRecent, sha, c);
    assert Reaches(base, a, [RenameSnapshot, SwapLink], keepRecent, sha, c);
  }

  /** A stop after the swap of the link, with the log not yet written: the snapshot is ahead. */
  lemma SnapshotAhead(sha: Sha) returns (s: Db, t: Db)
    ensures var base := Multi(0, 0, map[]);
      && Inv(base, s, 0, sha) && Reaches(base, s, REWRITE, 0, sha, t)
      && t.disk.current > t.disk.log.Last()
  {
    s := OneVersion(sha);
    t := Rewritten(s);
    RewriteReaches(Multi(0, 0, map[]), s, 0, sha);
  }

  /** A store is added to the first version, and not committed yet. */
  lemma UnsavedStore(sha: Sha) returns (s: Db)
    ensures var base := Multi(0, 0, map[]);
      && Inv(base, s, 0, sha) && s.es == [NOTHING] && s.disk == NewDb(sha).disk && s.rewrite == NoRewrite
      && [97] in s.working.trees && Committed(base, s.es) && StateAt(base, s.es, 1).trees == map[]
  {
    var base := Multi(0, 0, map[]);
    var first := OneVersion(sha);
    var add := [Upgrade([97], [], false)];
    OneAdded(first.working, add);
    InvIsSound(base, first, 0, sha);
    hide Sound, InfoAt, RewriteSound, PruneSound, ApplyEntry, UpgradedBy, StateAt, Committed, Written;
    assert WalEntry(NOTHING.upgrades + add, NOTHING.changes) == WalEntry(add, []);
    assert Enabled(base, first, UpgradeStores(add), sha);
    s := Next(base, first, UpgradeStores(add), 0, sha);
    StepKeepsInv(base, first, UpgradeStores(add), 0, sha);
  }

  /** A rewrite then: the current snapshot is refused, and so is the load of the database. */
  lemma UnsavedStoreIsRefused(sha: Sha) returns (s: Db, t: Db)
    ensures var base := Multi(0, 0, map[]);
      && Inv(base, s, 0, sha) && Reaches(base, s, REWRITE, 0, sha, t)
      && t.es == [NOTHING] && t.disk.snapshots.Keys == {0, 1} && t.disk.log == Log(1, []) && t.disk.current == 1
      && Load(t.disk.snapshots[1], IavlHasher(sha)) == None
      && LoadsHealthy(t.disk.snapshots[1], sha) && LoadLatest(t.disk, sha) == Failed
  {
    var base := Multi(0, 0, map[]);
    s := UnsavedStore(sha);
    t := Rewritten(s);
    RewriteReaches(base, s, 0, sha);
    hide *;
    RefusedThen(s, t, sha);
    RefusedLoad(t.disk, sha);
  }

  lemma RefusedThen(s: Db, t: Db, sha: Sha)
    requires var base := Multi(0, 0, map[]);
      && Inv(base, s, 0, sha) && s.es == [NOTHING] && s.disk == NewDb(sha).disk && t == Rewritten(s)
      && [97] in s.working.trees && Committed(base, s.es) && StateAt(base, s.es, 1).trees == map[]
    ensures t.es == [NOTHING] && t.disk.snapshots.Keys == {0, 1} && t.disk.log == Log(1, []) && t.disk.current == 1
    ensures Load(t.disk.snapshots[1], IavlHasher(sha)) == None
  {
    hide Inv, StateAt, Committed, Load, Written, IavlHasher, InfoAt;
    RewriteLoadsIff(Multi(0, 0, map[]), s, 0, sha);
  }

  lemma RefusedLoad(d: Disk, sha: Sha)
    requires d.current in d.snapshots && Load(d.snapshots[d.current], IavlHasher(sha)) == None
    ensures LoadsHealthy(d.snapshots[d.current], sha) && LoadLatest(d, sha) == Failed
  {
    hide Load, IavlHasher, CatchUp;
  }

  lemma OneAdded(m: Multi, us: seq<Upgrade>)
    requires m.trees == map[] && us == [Upgrade([97], [], false)]
    ensures Healthy(m.trees) && UpgradedBy(m, us).Some? && [97] in UpgradedBy(m, us).value.trees
    ensures ApplyEntry(m, WalEntry(us, [])) == UpgradedBy(m, us)
  {
    hide UpgradeAll, NewTree, TreeStates.Sound;
    assert us == Additions([[97]]);
    AdditionsAdd(m.trees, [[97]], NewTree(NextVersion(m.version, m.initial)));
    UpgradeAllIsHealthy(m.trees, us, NextVersion(m.version, m.initial));
  }
}

/** Rolling back to an older version while loading. */
module Rollbacks {
  import opened Bytes
  import opened Hashing
  import opened StoreLists
  import TreeStates
  import opened MultiStates
  import opened CommitInfos
  import opened MultiTrees
  import opened Disks
  import opened SnapshotProtocol

  /** A way back: to an index of the log, from a snapshot at or below it. */
  datatype Way = Way(target: nat, k: nat, x: Stored, sha: Sha)

  /** A disk on the way: the snapshot is linked and loads, and a version no lower than the target is
      reached from it. */
  ghost predicate LeadsOn(base: Multi, es: seq<WalEntry>, d: Disk, way: Way) {
    && Sound(base, es, d, way.sha)
    && d.current == way.k && d.snapshots[way.k] == way.x && Load(way.x, IavlHasher(way.sha)).Some?
    && (way.k >= way.target || d.log.Last() >= way.target)
  }

  /** A load gives a committed state no lower than the target. */
  ghost predicate LoadsAtLeast(base: Multi, es: seq<WalEntry>, d: Disk, target: nat, sha: Sha) {
    && Committed(base, es) && target <= Durable(d) <= |es|
    && d.current in d.snapshots && LoadsHealthy(d.snapshots[d.current], sha)
    && LoadLatest(d, sha) == Reached(StateAt(base, es, Durable(d)))
  }

  /** On every disk on the way it does. */
  lemma LoadsCommittedAtLeast(base: Multi, es: seq<WalEntry>, d: Disk, way: Way)
    requires LeadsOn(base, es, d, way) && Trusted(base, es, d, way.k, way.sha)
    ensures LoadsAtLeast(base, es, d, way.target, way.sha)
  {
    assert Committed(base, es);
    hide StateAt, Healthy, Committed, LoadLatest, Genuine, LoadsHealthy, Sound, Clean, Load, IavlHasher;
    SnapshotLoads(base, es, d, way.k, way.sha);
    LoadsCommitted(base, es, d, way.sha);
  }

  lemma TrustStays(base: Multi, es: seq<WalEntry>, d: Disk, t: Disk, way: Way)
    requires LeadsOn(base, es, t, way) && Trusted(base, es, d, way.k, way.sha) && d.snapshots[way.k] == way.x
    ensures Trusted(base, es, t, way.k, way.sha)
  {
    hide StateAt, Committed, Genuine, WrittenAt, AtBoundary, Load;
  }

  lemma AllLoadAtLeast(base: Multi, es: seq<WalEntry>, d: Disk, trace: seq<Disk>, way: Way)
    requires AllLeadOn(base, es, trace, way) && Trusted(base, es, d, way.k, way.sha) && d.snapshots[way.k] == way.x
    ensures AllLoad(base, es, trace, way.target, way.sha)
  {
    hide LeadsOn, Trusted, LoadsAtLeast;
    assert way.k in d.snapshots by { TrustedIsThere(base, es, d, way.k, way.sha); }
    forall i | 0 <= i < |trace| ensures LoadsAtLeast(base, es, trace[i], way.target, way.sha) {
      TrustStays(base, es, d, trace[i], way);
      LoadsCommittedAtLeast(base, es, trace[i], way);
    }
  }

  lemma TrustedIsThere(base: Multi, es: seq<WalEntry>, d: Disk, k: nat, sha: Sha)
    requires Trusted(base, es, d, k, sha)
    ensures k in d.snapshots
  {
  }

  ghost predicate AllLoad(base: Multi, es: seq<WalEntry>, trace: seq<Disk>, target: nat, sha: Sha) {
    forall i :: 0 <= i < |trace| ==> LoadsAtLeast(base, es, trace[i], target, sha)
  }

  lemma VersionOrder(base: Multi, es: seq<WalEntry>, k: nat, target: nat)
    requires Committed(base, es) && k <= |es| && 1 <= target <= |es|
    ensures VersionOf(base, k) <= WalVersion(target, base.initial) <==> k <= target
  {
    hide ReplayAll, Healthy;
    IndexOfVersion(1, base.initial);
  }

  class Store {
    var disk: Disk
    // the disk after every change made to it
    ghost var trace: seq<Disk>

    method Apply(d: Disk)
      modifies this
      ensures disk == d && trace == old(trace) + [d]
    {
      disk := d;
      trace := trace + [d];
    }

    /** The largest snapshot version at or below the target. The walk starts with the newest
        snapshot, and fails at a name that cannot be read. */
    method SeekSnapshot(listing: seq<nat>, target: nat, base: Multi, ghost es: seq<WalEntry>, ghost sha: Sha)
      returns (r: Sought)
      requires Sound(base, es, disk, sha) && Listing(listing, disk)
      ensures r.Unreadable? <==> !AllParse(base, disk)
      ensures r.Pruned? <==> AllParse(base, disk) && forall j :: j in disk.snapshots ==> VersionOf(base, j) > target
      ensures r.Found? ==> NewestBelow(base, disk, target, r.k)
    {
      FirstDecides(base, es, disk, listing, sha);
      hide Sound, Committed, VersionOf, AllParse, Parses;
      for i := 0 to |listing|
        invariant i > 0 ==> AllParse(base, disk)
        invariant forall j :: 0 <= j < i ==> VersionOf(base, listing[j]) > target
      {
        if !Parses(base, listing[i]) {
          AllOrNone(base, disk, listing[i]);
          return Unreadable;
        }
        if VersionOf(base, listing[i]) <= target {
          return Found(listing[i]);
        }
      }
      return Pruned;
    }

    /** Removes the snapshots above the target, the newest first. The names were all read
        before. */
    method RemoveNewer(listing: seq<nat>, target: nat, base: Multi, ghost es: seq<WalEntry>, ghost way: Way)
      requires LeadsOn(base, es, disk, way) && Listing(listing, disk) && way.k <= way.target <= disk.log.Last()
      requires 1 <= way.target <= |es| && target == WalVersion(way.target, base.initial)
      requires AllLeadOn(base, es, trace, way) && AllParse(base, disk)
      modifies this
      ensures LeadsOn(base, es, disk, way) && disk.log == old(disk.log)
      ensures forall k :: k in disk.snapshots ==> k <= way.target
      ensures AllLeadOn(base, es, trace, way)
    {
      hide Sound, Committed, StateAt, VersionOf, WalVersion, Listing, LeadsOn, Remaining, AllLeadOn, Parses;
      AllRemain(listing, disk);
      for i := 0 to |listing|
        invariant LeadsOn(base, es, disk, way) && disk.log == old(disk.log) && AllParse(base, disk)
        invariant Remaining(disk, listing, i) && AllLeadOn(base, es, trace, way)
      {
        var k := listing[i];
        IsThere(base, es, disk, listing, i, way);
        VersionOrder(base, es, k, way.target);
        assert Parses(base, k);
        if VersionOf(base, k) <= target {
          NoneNewer(disk, listing, i, way.target);
          return;
        }
        RemoveStep(base, es, disk, listing, i, way);
        TraceGrows(base, es, trace, Remove(disk, k), way);
        Apply(Remove(disk, k));
      }
      NoneRemain(disk, listing, way.target);
    }

    /** Finds the snapshot to go back to and loads it; nothing is changed. */
    method Locate(listing: seq<nat>, target: nat, base: Multi, found: Directories, ghost es: seq<WalEntry>, sha: Sha)
      returns (t: MultiTree?, k: nat, index: nat)
      requires Sound(base, es, disk, sha) && Listing(listing, disk) && FoundIn(found, disk)
      ensures t != null <==> CanRollBack(base, disk, target, sha)
      ensures t != null ==>
        && fresh(t) && NewestBelow(base, disk, target, k) && Load(disk.snapshots[k], IavlHasher(sha)) == Some(t.Value())
        && index == WalIndex(target, base.initial) && InRange(disk, target, base)
      ensures t != null && Trusted(base, es, disk, k, sha) ==> t.Valid()
    {
      hide Sound, Committed, StateAt, VersionOf, Listing, Parses, AllParse, Load, Trusted, IavlHasher, OpenedAll;
      t, k, index := null, 0, WalIndex(target, base.initial);
      var snapshot := SeekSnapshot(listing, target, base, es, sha);
      if !snapshot.Found? {
        NoneToGoTo(base, disk, target, sha, snapshot);
        return;
      }
      k := snapshot.k;
      OnlyNewest(base, disk, target, k, sha);
      t := LoadMultiTree(disk.snapshots[k], found[k], IavlHasher(sha));
      if t != null && Trusted(base, es, disk, k, sha) {
        OpenedIsHealthy(base, es, disk, k, sha);
      }
      if index == 0 || index < disk.log.first || index > disk.log.Last() {
        t := null;
      }
    }

    /** Links the snapshot, removes the newer ones, and cuts the log. */
    method Rewind(listing: seq<nat>, target: nat, base: Multi, k: nat, index: nat, ghost es: seq<WalEntry>,
                  ghost way: Way)
      requires Sound(base, es, disk, way.sha) && Listing(listing, disk) && trace == [] && 0 < target < TWO_32
      requires AllParse(base, disk) && InRange(disk, target, base) && index == WalIndex(target, base.initial)
      requires NewestBelow(base, disk, target, k) && way == Way(index, k, disk.snapshots[k], way.sha)
      requires Load(way.x, IavlHasher(way.sha)).Some?
      modifies this
      ensures AllLeadOn(base, es, trace, way) && 1 <= index <= |es|
      ensures disk.log.Last() == index && (forall j :: j in disk.snapshots ==> j <= index)
      ensures Sound(base, es[..index], disk, way.sha)
    {
      hide Sound, Committed, StateAt, VersionOf, Listing, LeadsOn, AllLeadOn, Parses, Load, IavlHasher;
      TargetIndex(base, es, disk, target, way.sha);
      SeekIsBelow(base, es, disk, k, target, way.sha);
      NothingYet(base, es, way);
      LinkIsSound(base, es, disk, k, way.sha);
      LinkLeadsOn(base, es, LinkTo(disk, k), way);
      if k != disk.current {
        TraceGrows(base, es, trace, LinkTo(disk, k), way);
        StillListed(listing, disk, k);
        Apply(LinkTo(disk, k));
      }
      assert disk == LinkTo(old(disk), k);
      RemoveNewer(listing, target, base, es, way);
      CutBackLeadsOn(base, es, disk, way);
      TraceGrows(base, es, trace, disk.(log := TruncateBack(disk.log, index)), way);
      Apply(disk.(log := TruncateBack(disk.log, index)));
    }

    /** Fails, with nothing changed, for a version below all snapshots or outside the log, if the
        version of any snapshot does not fit in a signed number of 32 bits, and if the newest snapshot
        at or below the target is refused. Otherwise the log ends at the version and no snapshot is
        newer. At every step in between a load gives a committed state no lower than the target,
        unless hashes collide. */
    method RollBack(listing: seq<nat>, target: nat, base: Multi, found: Directories, ghost es: seq<WalEntry>, sha: Sha)
      returns (ok: bool, ghost way: Way)
      requires Sound(base, es, disk, sha) && Listing(listing, disk) && FoundIn(found, disk)
      requires trace == [] && 0 < target < TWO_32
      modifies this
      ensures ok <==> CanRollBack(base, old(disk), target, sha)
      ensures !ok ==> disk == old(disk) && trace == []
      ensures ok ==> RolledBack(base, es, old(disk), target, way, disk) && way.sha == sha
      ensures ok && Trusted(base, es, old(disk), way.k, sha) ==> AllLoad(base, es, trace, way.target, sha)
    {
      hide Sound, Committed, StateAt, Listing, LeadsOn, AllLeadOn, Load, Trusted, IavlHasher, AllLoad, WalIndex;
      var t, k, index := Locate(listing, target, base, found, es, sha);
      if t == null {
        return false, *;
      }
      way := Way(index, k, disk.snapshots[k], sha);
      Rewind(listing, target, base, k, index, es, way);
      if Trusted(base, es, old(disk), k, sha) {
        AllLoadAtLeast(base, es, old(disk), trace, way);
      }
      return true, way;
    }

    /** The whole load of an older version for overwriting: the snapshot catches up with the log
        before anything is changed. If no hashes collide that never fails, and the target is what is
        loaded. */
    method LoadForOverwriting(listing: seq<nat>, target: nat, base: Multi, found: Directories,
                              ghost es: seq<WalEntry>, sha: Sha)
      returns (t: MultiTree?, ghost way: Way)
      requires Sound(base, es, disk, sha) && Listing(listing, disk) && FoundIn(found, disk)
      requires trace == [] && 0 < target < TWO_32
      requires forall k :: NewestBelow(base, disk, target, k) ==> Trusted(base, es, disk, k, sha)
      modifies this
      ensures t != null <==> CanRollBack(base, old(disk), target, sha)
      ensures t == null ==> disk == old(disk) && trace == []
      ensures t != null ==>
        && RolledBack(base, es, old(disk), target, way, disk) && AllLoad(base, es, trace, way.target, sha)
        && t.Valid() && t.Value() == StateAt(base, es, way.target)
    {
      hide Sound, Committed, StateAt, Listing, LeadsOn, AllLeadOn, Load, Trusted, IavlHasher, AllLoad, WalIndex;
      hide CatchUp, Healthy, Shows, InOrder, Indexes, Listed;
      var k, index;
      t, k, index := Locate(listing, target, base, found, es, sha);
      if t == null {
        return null, *;
      }
      TargetIndex(base, es, disk, target, sha);
      ReachesTarget(base, es, disk, target, k, t.Value(), sha);
      if target > t.version {
        var caught := t.CatchupWal(disk.log, target, IavlHasher(sha));
      }
      way := Way(index, k, disk.snapshots[k], sha);
      Rewind(listing, target, base, k, index, es, way);
      AllLoadAtLeast(base, es, old(disk), trace, way);
    }
  }

  /** The trees found in the directory of every snapshot, in any order. */
  type Directories = map<nat, seq<Named<TreeStates.State>>>

  ghost predicate FoundIn(found: Directories, d: Disk) {
    forall k :: k in d.snapshots ==> k in found && Shows(found[k], d.snapshots[k].trees)
  }

  /** When a rollback succeeds: all names can be read, the target is in the log, and the newest
      snapshot at or below it loads. */
  ghost predicate CanRollBack(base: Multi, d: Disk, target: nat, sha: Sha) {
    && AllParse(base, d) && InRange(d, target, base)
    && exists k :: NewestBelow(base, d, target, k) && Load(d.snapshots[k], IavlHasher(sha)).Some?
  }

  ghost predicate RolledBack(base: Multi, es: seq<WalEntry>, d: Disk, target: nat, way: Way, t: Disk) {
    && way.target == WalIndex(target, base.initial) && 1 <= way.target <= |es|
    && NewestBelow(base, d, target, way.k) && way.x == d.snapshots[way.k]
    && t.log.Last() == way.target && (forall k :: k in t.snapshots ==> k <= way.target)
    && Sound(base, es[..way.target], t, way.sha)
  }

  lemma NoneToGoTo(base: Multi, d: Disk, target: nat, sha: Sha, r: Sought)
    requires r.Unreadable? ==> !AllParse(base, d)
    requires r.Pruned? ==> forall j :: j in d.snapshots ==> VersionOf(base, j) > target
    requires !r.Found?
    ensures !CanRollBack(base, d, target, sha)
  {
    hide Load;
  }

  /** There is one newest snapshot. */
  lemma OnlyNewest(base: Multi, d: Disk, target: nat, k: nat, sha: Sha)
    requires NewestBelow(base, d, target, k) && AllParse(base, d)
    ensures CanRollBack(base, d, target, sha)
       <==> InRange(d, target, base) && Load(d.snapshots[k], IavlHasher(sha)).Some?
  {
    hide Load, InRange, AllParse;
  }

  lemma OpenedIsHealthy(base: Multi, es: seq<WalEntry>, d: Disk, k: nat, sha: Sha)
    requires Sound(base, es, d, sha) && Trusted(base, es, d, k, sha) && Load(d.snapshots[k], IavlHasher(sha)).Some?
    ensures Healthy(OpenedAll(d.snapshots[k]))
  {
    hide Sound, StateAt, Committed, Genuine, Healthy, OpenedAll, InfoOf, VersionFound;
    TrustedIsHealthy(base, es, d, k, sha);
  }

  /** The snapshot that loads catches up to the target. */
  lemma ReachesTarget(base: Multi, es: seq<WalEntry>, d: Disk, target: nat, k: nat, m: Multi, sha: Sha)
    requires Sound(base, es, d, sha) && InRange(d, target, base) && 0 < target < TWO_32
    requires NewestBelow(base, d, target, k) && Trusted(base, es, d, k, sha)
    requires Load(d.snapshots[k], IavlHasher(sha)) == Some(m)
    ensures var index := WalIndex(target, base.initial);
      && Committed(base, es) && 1 <= index <= |es| && Healthy(m.trees)
      && if target > m.version then CatchUp(m, d.log, target) == Reached(StateAt(base, es, index))
         else m == StateAt(base, es, index)
  {
    TargetIndex(base, es, d, target, sha);
    SeekIsBelow(base, es, d, k, target, sha);
    var index := WalIndex(target, base.initial);
    assert Committed(base, es) && k <= |es|;
    hide Sound, StateAt, Committed, Load, IavlHasher, Genuine, CatchUp, Healthy, WalIndex, WalVersion;
    SnapshotLoads(base, es, d, k, sha);
    assert m == StateAt(base, es, k);
    VersionIs(base, es, k, index);
    if k < index { LoadsVersion(base, es, d, k, index, sha); }
  }

  lemma VersionIs(base: Multi, es: seq<WalEntry>, k: nat, index: nat)
    requires Committed(base, es) && k <= index && 1 <= index <= |es|
    ensures WalVersion(index, base.initial) > StateAt(base, es, k).version <==> k < index
  {
    hide StateAt, ReplayAll, Healthy;
    StateVersions(base, es, k);
    IndexOfVersion(index, base.initial);
    if k > 0 { IndexOfVersion(k, base.initial); }
  }

  datatype Sought = Found(k: nat) | Pruned | Unreadable

  ghost predicate AllParse(base: Multi, d: Disk) {
    forall k :: k in d.snapshots ==> Parses(base, k)
  }

  /** If the newest name can be read, all can. */
  lemma FirstDecides(base: Multi, es: seq<WalEntry>, d: Disk, listing: seq<nat>, sha: Sha)
    requires Sound(base, es, d, sha) && Listing(listing, d)
    ensures listing != [] && (AllParse(base, d) <==> Parses(base, listing[0]))
  {
    hide StateAt, Healthy, ReplayAll, WrittenAt, AtBoundary;
    assert d.current in listing;
    IndexOfVersion(1, base.initial);
    forall k | k in d.snapshots ensures VersionOf(base, k) <= VersionOf(base, listing[0]) {
      var i :| 0 <= i < |listing| && listing[i] == k;
    }
  }

  lemma AllOrNone(base: Multi, d: Disk, k: nat)
    requires k in d.snapshots && !Parses(base, k)
    ensures !AllParse(base, d)
  {
  }

  ghost predicate AllLeadOn(base: Multi, es: seq<WalEntry>, trace: seq<Disk>, way: Way) {
    forall i :: 0 <= i < |trace| ==> LeadsOn(base, es, trace[i], way)
  }

  predicate InRange(d: Disk, target: nat, base: Multi) {
    var index := WalIndex(target, base.initial);
    index != 0 && d.log.first <= index <= d.log.Last()
  }

  ghost predicate SomeBelow(d: Disk, target: nat, base: Multi) {
    exists k :: k in d.snapshots && VersionOf(base, k) <= target
  }

  ghost predicate NewestBelow(base: Multi, d: Disk, target: nat, k: nat) {
    && k in d.snapshots && VersionOf(base, k) <= target
    && forall j :: j in d.snapshots && VersionOf(base, j) <= target ==> j <= k
  }

  /** There are sound disks with a target in range that cannot be rolled back to: here the
      first version is 2^31. */
  lemma UnreadableDisk(sha: Sha) returns (base: Multi, es: seq<WalEntry>, d: Disk, target: nat)
    ensures Sound(base, es, d, sha) && 0 < target < TWO_32 && InRange(d, target, base) && SomeBelow(d, target, base)
    ensures !AllParse(base, d)
  {
    base, es := Multi(TWO_31, 0, map[]), [NOTHING];
    target := TWO_31;
    var first := Multi(TWO_31, TWO_31, map[]);
    NothingApplied(base);
    assert SaveAll(base) == Some(first);
    assert Replay(base, es[0]) == Some(first);
    hide Replay;
    assert es[..0] == [] && es[..1] == es && es[1..] == [];
    assert ReplayAll(base, es[..0]) == Some(base);
    assert ReplayAll(base, es[..1]) == Some(first);
    hide ReplayAll;
    assert Committed(base, es);
    var h := IavlHasher(sha);
    d := Disk(map[0 := Written(base, map[], h), 1 := Written(first, map[], h)], 1, Log(1, es));
    hide Written;
    assert 0 in d.snapshots && VersionOf(base, 0) <= target;
    assert 1 in d.snapshots && VersionOf(base, 1) == TWO_31;
  }

  /** There are sound disks, all of whose names can be read, with a target in range that cannot be
      rolled back to: here the current snapshot was written with a store that is not committed. */
  lemma RefusedDisk(sha: Sha) returns (base: Multi, es: seq<WalEntry>, d: Disk, target: nat)
    ensures Sound(base, es, d, sha) && 0 < target < TWO_32 && AllParse(base, d) && InRange(d, target, base)
    ensures SomeBelow(d, target, base) && !CanRollBack(base, d, target, sha)
  {
    base := Multi(0, 0, map[]);
    var s, t := UnsavedStoreIsRefused(sha);
    hide Inv, Load, IavlHasher, LoadLatest, LoadsHealthy, Reaches, Sound;
    RunKeepsInv(base, s, REWRITE, 0, sha, t);
    WriteKeeps(base, t, 1, 0, sha);
    InvIsSound(base, LogWritten(t, 1), 0, sha);
    es, d, target := t.es, LogWritten(t, 1).disk, 1;
    OnlyRefused(base, d, sha);
  }

  lemma OnlyRefused(base: Multi, d: Disk, sha: Sha)
    requires base == Multi(0, 0, map[]) && d.snapshots.Keys == {0, 1} && d.log.first == 1 == d.log.Last()
    requires Load(d.snapshots[1], IavlHasher(sha)) == None
    ensures AllParse(base, d) && InRange(d, 1, base) && SomeBelow(d, 1, base) && !CanRollBack(base, d, 1, sha)
  {
    hide Load, IavlHasher;
    assert 1 in d.snapshots && VersionOf(base, 1) == 1;
    OnlyNewest(base, d, 1, 1, sha);
  }

  /** The snapshots are those from position `i` of a descending listing on. */
  ghost predicate Remaining(d: Disk, listing: seq<nat>, i: nat)
    requires i <= |listing|
  {
    && (forall x, y :: 0 <= x < y < |listing| ==> listing[x] > listing[y])
    && (forall k :: k in d.snapshots <==> k in listing[i..])
  }

  lemma AllRemain(listing: seq<nat>, d: Disk)
    requires Listing(listing, d)
    ensures Remaining(d, listing, 0)
  {
    assert listing[0..] == listing;
  }

  lemma StillListed(listing: seq<nat>, d: Disk, k: nat)
    requires Listing(listing, d)
    ensures Listing(listing, LinkTo(d, k))
  {
  }

  lemma IsThere(base: Multi, es: seq<WalEntry>, d: Disk, listing: seq<nat>, i: nat, way: Way)
    requires LeadsOn(base, es, d, way) && i < |listing| && Remaining(d, listing, i)
    ensures Committed(base, es) && listing[i] in d.snapshots && listing[i] <= |es|
  {
    hide Committed, StateAt, WrittenAt, AtBoundary;
    assert listing[i..][0] == listing[i];
    SoundSnapshot(base, es, d, listing[i], way.sha);
  }

  lemma NoneNewer(d: Disk, listing: seq<nat>, i: nat, index: nat)
    requires i < |listing| && Remaining(d, listing, i) && listing[i] <= index
    ensures forall k :: k in d.snapshots ==> k <= index
  {
    forall k | k in d.snapshots ensures k <= index {
      var j :| 0 <= j < |listing[i..]| && listing[i..][j] == k;
      assert listing[i + j] == k;
    }
  }

  lemma NoneRemain(d: Disk, listing: seq<nat>, index: nat)
    requires Remaining(d, listing, |listing|)
    ensures forall k :: k in d.snapshots ==> k <= index
  {
  }

  lemma RemoveStep(base: Multi, es: seq<WalEntry>, d: Disk, listing: seq<nat>, i: nat, way: Way)
    requires LeadsOn(base, es, d, way) && i < |listing| && Remaining(d, listing, i)
    requires way.k <= way.target < listing[i]
    ensures LeadsOn(base, es, Remove(d, listing[i]), way)
    ensures Remaining(Remove(d, listing[i]), listing, i + 1)
  {
    hide Committed, StateAt, WrittenAt, AtBoundary;
    var k := listing[i];
    RemoveIsSound(base, es, d, k, way.sha);
    assert listing[i..] == [k] + listing[i + 1..];
    assert k !in listing[i + 1..];
  }

  lemma TraceGrows(base: Multi, es: seq<WalEntry>, trace: seq<Disk>, d: Disk, way: Way)
    requires AllLeadOn(base, es, trace, way) && LeadsOn(base, es, d, way)
    ensures AllLeadOn(base, es, trace + [d], way)
  {
    hide LeadsOn;
  }

  lemma NothingYet(base: Multi, es: seq<WalEntry>, way: Way)
    ensures AllLeadOn(base, es, [], way)
  {
  }

  lemma LinkLeadsOn(base: Multi, es: seq<WalEntry>, d: Disk, way: Way)
    requires Sound(base, es, d, way.sha) && way.target <= d.log.Last()
    requires d.current == way.k && way.k in d.snapshots && d.snapshots[way.k] == way.x
    requires Load(way.x, IavlHasher(way.sha)).Some?
    ensures LeadsOn(base, es, d, way)
  {
    hide Committed, StateAt, WrittenAt, AtBoundary;
  }

  /** A target in the log is the version of its index. */
  lemma TargetIndex(base: Multi, es: seq<WalEntry>, d: Disk, target: nat, sha: Sha)
    requires Sound(base, es, d, sha) && InRange(d, target, base) && 0 < target < TWO_32
    ensures var index := WalIndex(target, base.initial);
      1 <= index <= |es| && Committed(base, es) && target == WalVersion(index, base.initial)
  {
    hide StateAt, Healthy, ReplayAll, WrittenAt, AtBoundary;
  }

  lemma SeekIsBelow(base: Multi, es: seq<WalEntry>, d: Disk, k: nat, target: nat, sha: Sha)
    requires Sound(base, es, d, sha) && k in d.snapshots && VersionOf(base, k) <= target
    requires InRange(d, target, base) && 0 < target < TWO_32
    ensures k <= WalIndex(target, base.initial)
  {
    hide StateAt, VersionOf, WalIndex, WalVersion, Committed, WrittenAt, AtBoundary;
    TargetIndex(base, es, d, target, sha);
    SoundSnapshot(base, es, d, k, sha);
    VersionOrder(base, es, k, WalIndex(target, base.initial));
  }

  /** Cutting the log last leaves a disk that is sound for the shorter history. */
  lemma CutBackIsSound(base: Multi, es: seq<WalEntry>, d: Disk, index: nat, n: nat, sha: Sha)
    requires Sound(base, es, d, sha) && d.log.first <= index <= d.log.Last() && 1 <= index <= n <= |es|
    requires forall k :: k in d.snapshots ==> k <= index
    ensures var t := d.(log := TruncateBack(d.log, index));
      t.log.Last() == index && Sound(base, es[..n], t, sha)
  {
    var t := d.(log := TruncateBack(d.log, index));
    CutWindow(d.log, es, index, n);
    ShorterHistory(base, es, n);
    hide Committed, StateAt, WrittenAt, AtBoundary, Window, TruncateBack;
    forall k | k in d.snapshots
      ensures k <= n && WrittenAt(d.snapshots[k], StateAt(base, es[..n], k), sha) && d.log.first <= k + 1
    {
      assert StateAt(base, es[..n], k) == StateAt(base, es, k);
    }
  }

  lemma CutWindow(log: Log, es: seq<WalEntry>, index: nat, n: nat)
    requires log.first >= 1 && Window(log, es, log.Last()) && log.first <= index <= log.Last() && index <= n <= |es|
    ensures var t := TruncateBack(log, index); t.first == log.first && t.Last() == index && Window(t, es[..n], index)
  {
    SliceOfSlice(es, log.first - 1, log.Last(), 0, index - log.first + 1);
    assert es[log.first - 1..index] == es[..n][log.first - 1..index];
  }

  lemma CutBackLeadsOn(base: Multi, es: seq<WalEntry>, d: Disk, way: Way)
    requires LeadsOn(base, es, d, way) && d.log.first <= way.target <= d.log.Last() && 1 <= way.target <= |es|
    requires forall k :: k in d.snapshots ==> k <= way.target
    ensures var t := d.(log := TruncateBack(d.log, way.target));
      t.log.Last() == way.target && Sound(base, es[..way.target], t, way.sha) && LeadsOn(base, es, t, way)
  {
    hide Sound, TruncateBack;
    CutBackIsSound(base, es, d, way.target, way.target, way.sha);
    CutBackIsSound(base, es, d, way.target, |es|, way.sha);
    assert es[..|es|] == es;
  }

  lemma ShorterHistory(base: Multi, es: seq<WalEntry>, n: nat)
    requires Committed(base, es) && n <= |es|
    ensures Committed(base, es[..n])
    ensures forall k :: 0 <= k <= n ==> StateAt(base, es[..n], k) == StateAt(base, es, k)
  {
    hide ReplayAll, Base;
    assert forall k :: 0 <= k <= n ==> es[..n][..k] == es[..k];
  }
}
