/** All stores together, as values: what an entry of the write-ahead log does to them. */
module MultiStates {
  import opened Bytes
  import opened Iavl
  import opened IavlContents
  import opened TreeStates
  import opened StoreLists

  datatype Changes = Changes(name: Name, pairs: seq<Op>)
  datatype WalEntry = WalEntry(upgrades: seq<Upgrade>, changes: seq<Changes>)

  datatype Multi = Multi(initial: nat, version: nat, trees: map<Name, State>)

  // ------------------------------------------------ versions and log indices

  function NextVersion(v: nat, initial: nat): (n: nat)
    ensures n >= 1
  {
    if v == 0 && initial > 1 then initial else v + 1
  }

  /** In 64-bit arithmetic; a version below the initial one wraps around. */
  function WalIndex(v: int, initial: nat): nat {
    if initial > 1 then (v - initial + 1) % TWO_64 else v % TWO_64
  }

  function WalVersion(index: nat, initial: nat): int {
    if initial > 1 then index + initial - 1 else index
  }

  /** The two conversions undo each other, and the entry after version `v` follows that of
      `v`. */
  lemma IndexOfVersion(index: nat, initial: nat)
    requires 1 <= index < TWO_63 && initial < TWO_32
    ensures WalIndex(WalVersion(index, initial), initial) == index
    ensures WalVersion(index, initial) >= 1
    ensures NextVersion(WalVersion(index, initial), initial) == WalVersion(index + 1, initial)
    ensures NextVersion(0, initial) == WalVersion(1, initial)
  {
  }

  // --------------------------------------------------------- the operations

  ghost predicate Healthy(trees: map<Name, State>) {
    forall n :: n in trees ==> Sound(trees[n])
  }

  lemma {:induction false} EditedAllIsSound(s: State, ops: seq<Op>)
    requires Sound(s)
    ensures s.root.Some? ==> Exact(s.root.value)
    ensures Sound(EditedAll(s, ops))
    decreases |ops|
  {
    hide Sound, Edited;
    SoundIsExact(s);
    if ops != [] {
      EditedAllIsSound(s, ops[..|ops| - 1]);
      EditIsSound(EditedAll(s, ops[..|ops| - 1]), ops[|ops| - 1]);
    }
  }

  /** Changes to a store that is not there are an error. */
  ghost function ApplyChange(trees: map<Name, State>, c: Changes): (r: Option<map<Name, State>>)
    requires Healthy(trees)
    ensures r.Some? ==> Healthy(r.value)
  {
    if c.name in trees then
      EditedAllIsSound(trees[c.name], c.pairs);
      Some(trees[c.name := EditedAll(trees[c.name], c.pairs)])
    else None
  }

  ghost function ApplyChanges(trees: map<Name, State>, cs: seq<Changes>): (r: Option<map<Name, State>>)
    requires Healthy(trees)
    ensures r.Some? ==> Healthy(r.value)
    decreases |cs|
  {
    if cs == [] then Some(trees)
    else
      var next := ApplyChange(trees, cs[0]);
      if next.None? then None else ApplyChanges(next.value, cs[1..])
  }

  /** A tree that is added starts just below the version being written. */
  function NewTree(next: nat): State {
    State(if U32(next) <= 1 then 0 else U32(next) - 1, None, false)
  }

  lemma UpgradeAllIsHealthy(trees: map<Name, State>, us: seq<Upgrade>, next: nat)
    requires Healthy(trees)
    ensures var r := UpgradeAll(trees, us, NewTree(next)); r.Some? ==> Healthy(r.value)
  {
    assert Sound(NewTree(next));
    hide UpgradeAll, Sound;
    UpgradeAllHolds(trees, us, NewTree(next));
  }

  /** The upgrades of an entry come before its changes. */
  ghost function ApplyEntry(m: Multi, e: WalEntry): (r: Option<Multi>)
    requires Healthy(m.trees)
    ensures r.Some? ==> Healthy(r.value.trees)
  {
    var up := UpgradeAll(m.trees, e.upgrades, NewTree(NextVersion(m.version, m.initial)));
    if up.None? then None
    else
      UpgradeAllIsHealthy(m.trees, e.upgrades, NextVersion(m.version, m.initial));
      var changed := ApplyChanges(up.value, e.changes);
      if changed.None? then None else Some(Multi(m.initial, m.version, changed.value))
  }

  /** Refused, with nothing changed, when the version of any tree is the highest. */
  ghost function SaveAll(m: Multi): (r: Option<Multi>)
    requires Healthy(m.trees)
    ensures r.Some? ==> Healthy(r.value.trees)
  {
    if exists n :: n in m.trees && m.trees[n].version == TWO_32 - 1 then None
    else Some(Multi(m.initial, NextVersion(m.version, m.initial), map n | n in m.trees :: Saved(m.trees[n])))
  }

  ghost function Replay(m: Multi, e: WalEntry): (r: Option<Multi>)
    requires Healthy(m.trees)
    ensures r.Some? ==> Healthy(r.value.trees)
  {
    var applied := ApplyEntry(m, e);
    if applied.None? then None else SaveAll(applied.value)
  }

  ghost function ReplayAll(m: Multi, es: seq<WalEntry>): (r: Option<Multi>)
    requires Healthy(m.trees)
    ensures r.Some? ==> Healthy(r.value.trees)
    decreases |es|
  {
    if es == [] then Some(m)
    else
      var next := Replay(m, es[0]);
      if next.None? then None else ReplayAll(next.value, es[1..])
  }

  lemma ReplayFirst(m: Multi, es: seq<WalEntry>, e: WalEntry, rest: seq<WalEntry>)
    requires Healthy(m.trees) && es == [e] + rest
    ensures ReplayAll(m, es) == var next := Replay(m, e); if next.None? then None else ReplayAll(next.value, rest)
  {
    hide Replay, Healthy;
    assert es[0] == e && es[1..] == rest;
  }

  lemma ReplayNone(m: Multi, es: seq<WalEntry>)
    requires Healthy(m.trees) && es == []
    ensures ReplayAll(m, es) == Some(m)
  {
  }

  lemma {:induction false} ReplayAppend(m: Multi, a: seq<WalEntry>, b: seq<WalEntry>)
    requires Healthy(m.trees)
    ensures ReplayAll(m, a + b) == var mid := ReplayAll(m, a); if mid.None? then None else ReplayAll(mid.value, b)
    decreases |a|
  {
    hide Replay, Healthy;
    if a == [] {
      assert a + b == b;
    } else {
      assert (a + b)[0] == a[0] && (a + b)[1..] == a[1..] + b;
      var next := Replay(m, a[0]);
      if next.Some? { ReplayAppend(next.value, a[1..], b); }
    }
  }

  // ------------------------------------------------------ versions in step

  /** The versions of all trees are in step with that of the whole. */
  ghost predicate Aligned(m: Multi) {
    && m.initial < TWO_32 && Healthy(m.trees)
    && forall n :: n in m.trees ==> m.trees[n].version == NextVersion(m.version, m.initial) - 1
  }

  lemma {:induction false} ChangesKeepVersions(trees: map<Name, State>, cs: seq<Changes>, v: nat)
    requires Healthy(trees) && forall n :: n in trees ==> trees[n].version == v
    ensures var r := ApplyChanges(trees, cs);
      r.Some? ==> r.value.Keys == trees.Keys && forall n :: n in r.value ==> r.value[n].version == v
    decreases |cs|
  {
    if cs != [] && cs[0].name in trees {
      EditedAllIsSound(trees[cs[0].name], cs[0].pairs);
      ChangesKeepVersions(ApplyChange(trees, cs[0]).value, cs[1..], v);
    }
  }

  lemma UpgradesKeepVersions(trees: map<Name, State>, us: seq<Upgrade>, next: nat)
    requires 1 <= next < TWO_32 && forall n :: n in trees ==> trees[n].version == next - 1
    ensures var r := UpgradeAll(trees, us, NewTree(next));
      r.Some? ==> forall n :: n in r.value ==> r.value[n].version == next - 1
  {
    hide UpgradeAll;
    UpgradeAllHolds(trees, us, NewTree(next));
  }

  /** Replaying an entry keeps the versions in step, and moves on by one. */
  lemma ReplayKeepsStep(m: Multi, e: WalEntry)
    requires Aligned(m) && NextVersion(m.version, m.initial) < TWO_32
    ensures var r := Replay(m, e);
      r.Some? ==>
        Aligned(r.value) && r.value.initial == m.initial && r.value.version == NextVersion(m.version, m.initial)
  {
    hide Sound, UpgradeAll, ApplyChanges;
    var next := NextVersion(m.version, m.initial);
    UpgradesKeepVersions(m.trees, e.upgrades, next);
    UpgradeAllIsHealthy(m.trees, e.upgrades, next);
    var up := UpgradeAll(m.trees, e.upgrades, NewTree(next));
    if up.Some? { ChangesKeepVersions(up.value, e.changes, next - 1); }
  }

  // ------------------------------------------------ catching up with a log

  /** A contiguous piece of the log, from index `first` on. */
  datatype Log = Log(first: nat, entries: seq<WalEntry>) {
    function Last(): int { first + |entries| - 1 }
  }

  datatype Caught = Reached(m: Multi) | Failed

  /** Replays the entries after the version of `m`, up to an end version, or all of them
      if that is zero. A negative end version, an end before the next entry, and an entry
      that was truncated away are errors. */
  ghost function CatchUp(m: Multi, log: Log, end: int): Caught
    requires Healthy(m.trees)
  {
    var next := WalIndex(NextVersion(m.version, m.initial), m.initial);
    if end < 0 then Failed
    else if next > log.Last() then Reached(m)
    else CatchUpTo(m, log, next, if end == 0 then log.Last() else WalIndex(end, m.initial))
  }

  ghost function CatchUpTo(m: Multi, log: Log, next: nat, target: int): Caught
    requires Healthy(m.trees) && next <= log.Last()
  {
    if target < next || next < log.first then Failed
    else
      var stop := if target > log.Last() then log.Last() else target;
      var r := ReplayAll(m, log.entries[next - log.first..stop - log.first + 1]);
      if r.None? then Failed else Reached(r.value)
  }

  /** A state that the whole history can be replayed on; its next log index is 1. */
  ghost predicate Base(m: Multi) {
    Aligned(m) && NextVersion(m.version, m.initial) == WalVersion(1, m.initial)
  }

  /** A history all of whose entries were applied with success. */
  ghost predicate Committed(base: Multi, es: seq<WalEntry>) {
    && Base(base) && WalVersion(|es| + 1, base.initial) < TWO_32
    && forall k :: 0 <= k <= |es| ==> ReplayAll(base, es[..k]).Some?
  }

  ghost function StateAt(base: Multi, es: seq<WalEntry>, k: nat): (m: Multi)
    requires Committed(base, es) && k <= |es|
    ensures Healthy(m.trees)
  {
    ReplayAll(base, es[..k]).value
  }

  lemma {:induction false} StateStep(base: Multi, es: seq<WalEntry>, k: nat)
    requires Committed(base, es) && k < |es|
    ensures Replay(StateAt(base, es, k), es[k]) == Some(StateAt(base, es, k + 1))
  {
    hide Replay, Healthy;
    assert es[..k + 1] == es[..k] + [es[k]];
    ReplayAppend(base, es[..k], [es[k]]);
    var m := StateAt(base, es, k);
    assert ReplayAll(m, [es[k]]) == var n := Replay(m, es[k]); if n.None? then None else ReplayAll(n.value, []);
  }

  /** Every committed state is in step, and its version is that of its log index. */
  lemma {:induction false} StateVersions(base: Multi, es: seq<WalEntry>, k: nat)
    requires Committed(base, es) && k <= |es|
    ensures var m := StateAt(base, es, k);
      && Aligned(m) && m.initial == base.initial
      && NextVersion(m.version, m.initial) == WalVersion(k + 1, m.initial)
      && (k > 0 ==> m.version == WalVersion(k, m.initial))
    decreases k
  {
    if k == 0 {
      assert es[..0] == [];
    } else {
      hide Replay, Aligned, Healthy, ReplayAll;
      StateVersions(base, es, k - 1);
      StateStep(base, es, k - 1);
      ReplayKeepsStep(StateAt(base, es, k - 1), es[k - 1]);
      IndexOfVersion(k, base.initial);
    }
  }

  /** Replaying a stretch of the history leads from one committed state to another. */
  lemma {:induction false} StateFrom(base: Multi, es: seq<WalEntry>, j: nat, k: nat)
    requires Committed(base, es) && j <= k <= |es|
    ensures ReplayAll(StateAt(base, es, j), es[j..k]) == Some(StateAt(base, es, k))
  {
    hide Replay, Healthy;
    assert es[..k] == es[..j] + es[j..k];
    ReplayAppend(base, es[..j], es[j..k]);
  }

  /** The log holds the entries of the history from index `first` to `last`. */
  ghost predicate Window(log: Log, es: seq<WalEntry>, last: nat) {
    1 <= log.first <= last + 1 && last <= |es| && log.entries == es[log.first - 1..last]
  }

  /** The next entry to replay on a committed state. */
  lemma {:induction false} NextEntry(base: Multi, es: seq<WalEntry>, k: nat)
    requires Committed(base, es) && k <= |es|
    ensures var m := StateAt(base, es, k);
      m.initial == base.initial && WalIndex(NextVersion(m.version, m.initial), m.initial) == k + 1
  {
    hide Replay, Healthy, ReplayAll, StateAt;
    StateVersions(base, es, k);
    IndexOfVersion(k + 1, base.initial);
  }

  lemma SliceOfSlice<T>(s: seq<T>, a: nat, b: nat, i: nat, j: nat)
    requires a <= b <= |s| && i <= j <= b - a
    ensures s[a..b][i..j] == s[a + i..a + j]
  {
    var x, y := s[a..b][i..j], s[a + i..a + j];
    assert |x| == |y| && forall n :: 0 <= n < |x| ==> x[n] == y[n];
  }

  lemma {:induction false} WindowFrom(base: Multi, es: seq<WalEntry>, k: nat, log: Log, last: nat, target: int)
    requires Committed(base, es) && Window(log, es, last) && log.first <= k + 1 <= last
    ensures CatchUpTo(StateAt(base, es, k), log, k + 1, target)
         == if target <= k then Failed else Reached(StateAt(base, es, if target < last then target else last))
  {
    hide Replay, Healthy, ReplayAll, StateAt;
    if target > k {
      var stop := if target < last then target else last;
      var i, j := k + 1 - log.first, stop - log.first + 1;
      SliceOfSlice(es, log.first - 1, last, i, j);
      assert log.entries[i..j] == es[k..stop];
      StateFrom(base, es, k, stop);
    }
  }

  /** Where replay ends does not depend on the committed state that it starts from. */
  lemma {:induction false} CatchUpIsIndependent(base: Multi, es: seq<WalEntry>, k: nat, log: Log, last: nat, end: int)
    requires Committed(base, es) && k <= |es| && Window(log, es, last) && log.first <= k + 1
    requires end == 0 || (end > 0 && base.initial <= end + 1)
    ensures var m := StateAt(base, es, k); var target := if end == 0 then last else WalIndex(end, base.initial);
      CatchUp(m, log, end) ==
        if k >= last then Reached(m)
        else if target <= k then Failed
        else Reached(StateAt(base, es, if target < last then target else last))
  {
    hide Healthy, CatchUpTo, StateAt, WalIndex, NextVersion, Committed;
    NextEntry(base, es, k);
    if k < last {
      WindowFrom(base, es, k, log, last, if end == 0 then last else WalIndex(end, base.initial));
    }
  }

  /** An end version below the initial version is not refused: its index wraps around, and
      everything is replayed. */
  lemma {:induction false} CatchUpBelowInitial(base: Multi, es: seq<WalEntry>, k: nat, log: Log, last: nat, end: int)
    requires Committed(base, es) && k < last && Window(log, es, last) && log.first <= k + 1
    requires 0 < end && end + 1 < base.initial
    ensures CatchUp(StateAt(base, es, k), log, end) == Reached(StateAt(base, es, last))
  {
    IndexWraps(end, base.initial);
    hide Healthy, CatchUpTo, StateAt, WalIndex, NextVersion;
    NextEntry(base, es, k);
    WindowFrom(base, es, k, log, last, WalIndex(end, base.initial));
  }

  lemma IndexWraps(v: int, initial: nat)
    requires 0 < v && v + 1 < initial < TWO_32
    ensures WalIndex(v, initial) >= TWO_32
  {
  }
}

/** The stores as a list kept in order of their names, with an index by name. */
module MultiTrees {
  import opened Bytes
  import opened Iavl
  import opened Hashing
  import opened TreeStates
  import opened StoreLists
  import opened MultiStates
  import opened CommitInfos

  // ------------------------------------------------------------ the object

  /** The position of every store, by name. */
  ghost predicate Indexes(byName: map<Name, nat>, ts: seq<Named<State>>) {
    && (forall i :: 0 <= i < |ts| ==> ts[i].name in byName && byName[ts[i].name] == i)
    && (forall n :: n in byName ==> byName[n] < |ts| && ts[byName[n]].name == n)
  }

  class MultiTree {
    const initialVersion: nat
    // the last commit info is this version, and the stores of it
    var version: nat
    var stores: seq<Named<CommitId>>
    var trees: seq<Named<State>>
    var byName: map<Name, nat>
    ghost var contents: map<Name, State>

    ghost predicate Valid()
      reads this
    {
      Shows(trees, contents) && InOrder(trees) && Indexes(byName, trees) && Healthy(contents)
    }

    ghost function Value(): Multi
      reads this
    {
      Multi(initialVersion, version, contents)
    }

    /** No stores yet. */
    constructor (initial: nat)
      ensures Valid() && Value() == Multi(initial, 0, map[]) && stores == []
    {
      initialVersion, version, stores, trees, byName, contents := initial, 0, [], [], map[], map[];
    }

    /** The trees of a snapshot as they were found in its directory, in any order. */
    constructor Open(x: Stored, found: seq<Named<State>>)
      requires Shows(found, x.trees)
      ensures Value() == Multi(x.initial, x.info.version, OpenedAll(x)) && stores == x.info.stores
      ensures Shows(trees, contents) && InOrder(trees) && Indexes(byName, trees)
    {
      initialVersion, version, stores, contents := x.initial, x.info.version, x.info.stores, OpenedAll(x);
      new;
      hide Shows, InOrder, Indexes, Sorted;
      var list := OpenTrees(found, x.initial);
      OpenedShows(found, list, x);
      SortedSorts(list);
      SortedShows(list, OpenedAll(x));
      ShowsDistinct(Sorted(list), OpenedAll(x));
      trees := Sorted(list);
      var index := BuildIndex(trees);
      byName := index.value;
    }

    /** The commit info is brought up to date with the trees. */
    method UpdateCommitInfo(h: Hasher)
      requires Valid()
      modifies this
      ensures Valid() && Value() == old(Value()) && stores == Listed(Ids(contents, h))
    {
      hide Shows, InOrder, Indexes, Healthy;
      stores := BuildCommitInfo(trees, h);
      InfoIsListed(trees, contents, stores, h);
    }

    method ApplyChangeSet(c: Changes) returns (ok: bool)
      requires Valid()
      modifies this
      ensures Valid() && version == old(version) && stores == old(stores)
      ensures ok <==> ApplyChange(old(contents), c).Some?
      ensures contents == if ok then ApplyChange(old(contents), c).value else old(contents)
    {
      hide Sound, Shows, InOrder, Indexes, Healthy, EditedAll;
      NameKnown(trees, contents, byName, c.name);
      if c.name !in byName {
        return false;
      }
      var i := byName[c.name];
      ChangeKeeps(trees, contents, byName, i, c);
      trees := trees[i := Named(trees[i].name, EditedAll(trees[i].tree, c.pairs))];
      contents := ApplyChange(contents, c).value;
      return true;
    }

    method ApplyChangeSets(cs: seq<Changes>) returns (ok: bool)
      requires Valid()
      modifies this
      ensures Valid() && version == old(version) && stores == old(stores)
      ensures ok <==> ApplyChanges(old(contents), cs).Some?
      ensures ok ==> contents == ApplyChanges(old(contents), cs).value
    {
      hide Sound, Shows, InOrder, Indexes, ApplyChange;
      var i := 0;
      while i < |cs|
        invariant 0 <= i <= |cs| && Valid() && version == old(version) && stores == old(stores)
          && Healthy(old(contents))
        invariant ApplyChanges(contents, cs[i..]) == ApplyChanges(old(contents), cs)
      {
        assert cs[i..][0] == cs[i] && cs[i..][1..] == cs[i + 1..];
        var applied := ApplyChangeSet(cs[i]);
        if !applied {
          return false;
        }
        i := i + 1;
      }
      return true;
    }

    /** Refused before anything changes if any tree is at the highest version. Without an update
        the commit info has no stores. */
    method SaveVersion(update: bool, h: Hasher) returns (ok: bool)
      requires Valid()
      modifies this
      ensures Valid()
      ensures ok <==> SaveAll(old(Value())).Some?
      ensures Value() == if ok then SaveAll(old(Value())).value else old(Value())
      ensures stores == if !ok then old(stores) else if update then Listed(Ids(contents, h)) else []
    {
      hide Sound, Shows, InOrder, Indexes, Healthy, SaveAll, Listed;
      var overflows := Overflows(trees, Value());
      if overflows {
        return false;
      }
      version := NextVersion(version, initialVersion);
      var saved := SaveTrees(trees);
      SavedKeeps(trees, saved, old(Value()), byName);
      trees, contents := saved, SaveAll(old(Value())).value.trees;
      if update {
        UpdateCommitInfo(h);
      } else {
        stores := [];
      }
      return true;
    }

    /** Fails for an unknown name, and if two stores end up with one name. */
    method ApplyUpgrades(us: seq<Upgrade>) returns (ok: bool)
      requires Valid()
      modifies this
      ensures version == old(version) && stores == old(stores) && (ok ==> Valid())
      ensures var r := UpgradeAll(old(contents), us, NewTree(NextVersion(version, initialVersion)));
        (ok <==> r.Some?) && (ok ==> contents == r.value)
    {
      hide Sound, Shows, InOrder, Indexes, Healthy, UpgradeList, Sorted, Distinct, NewTree, ToMap;
      NoUpgrades(contents, NewTree(NextVersion(version, initialVersion)));
      if |us| == 0 {
        return true;
      }
      OneList(trees, Listed(contents), contents);
      UpgradeAllIsHealthy(contents, us, NextVersion(version, initialVersion));
      byName := map[];
      var blank := NewTree(NextVersion(version, initialVersion));
      for i := 0 to |us|
        invariant version == old(version) && stores == old(stores) && contents == old(contents)
        invariant UpgradeLists(trees, us[i..], blank) == UpgradeLists(old(trees), us, blank)
      {
        assert us[i..][0] == us[i] && us[i..][1..] == us[i + 1..];
        var list := UpgradeList(trees, us[i], blank);
        if list.None? {
          return false;
        }
        trees := list.value;
      }
      SortedSorts(trees);
      SortedDistinct(trees);
      if Distinct(trees) {
        DistinctShows(trees);
        SortedShows(trees, ToMap(trees));
        contents := ToMap(trees);
      }
      trees := Sorted(trees);
      var index := BuildIndex(trees);
      if index.None? {
        return false;
      }
      byName := index.value;
      return true;
    }

    /** The upgrades come first. */
    method ApplyWalEntry(e: WalEntry) returns (ok: bool)
      requires Valid()
      modifies this
      ensures version == old(version) && stores == old(stores) && (ok ==> Valid())
      ensures Healthy(old(contents))
      ensures ok <==> ApplyEntry(old(Value()), e).Some?
      ensures ok ==> ApplyEntry(old(Value()), e) == Some(Value())
    {
      ValidIsHealthy();
      hide Sound, Shows, InOrder, Indexes, Healthy, UpgradeAll, ApplyChanges;
      ok := ApplyUpgrades(e.upgrades);
      if !ok {
        return false;
      }
      ok := ApplyChangeSets(e.changes);
    }

    /** Replays one entry of the log. */
    method ReplayEntry(e: WalEntry, h: Hasher) returns (ok: bool)
      requires Valid()
      modifies this
      ensures (ok ==> Valid()) && Healthy(old(contents))
      ensures ok <==> Replay(old(Value()), e).Some?
      ensures ok ==> Replay(old(Value()), e) == Some(Value())
    {
      hide Sound, Shows, InOrder, Indexes, Healthy, ApplyEntry, SaveAll;
      ok := ApplyWalEntry(e);
      if !ok {
        return false;
      }
      ok := SaveVersion(false, h);
    }

    /** Replays the log from the next version on, and brings the commit info up to date. */
    method CatchupWal(log: Log, end: int, h: Hasher) returns (ok: bool)
      requires Valid()
      modifies this
      ensures (ok ==> Valid()) && Healthy(old(contents))
      ensures ok <==> CatchUp(old(Value()), log, end).Reached?
      ensures ok ==> CatchUp(old(Value()), log, end) == Reached(Value())
      ensures ok ==> var next := WalIndex(NextVersion(old(version), initialVersion), initialVersion);
        stores == if next > log.Last() then old(stores) else Listed(Ids(contents, h))
    {
      hide Sound, Shows, InOrder, Indexes, Healthy, ReplayAll, WalIndex, NextVersion, Listed;
      ValidIsHealthy();
      if end < 0 {
        return false;
      }
      var first := WalIndex(NextVersion(version, initialVersion), initialVersion);
      if first > log.Last() {
        return true;
      }
      var last := if end == 0 then log.Last() else WalIndex(end, initialVersion);
      if last < first {
        return false;
      }
      if first < log.first {
        return false;
      }
      ok := ReplayTo(log, first, if last > log.Last() then log.Last() else last, h);
      if ok {
        UpdateCommitInfo(h);
      }
    }

    method ReplayTo(log: Log, first: nat, last: nat, h: Hasher) returns (ok: bool)
      requires Valid() && log.first <= first <= last + 1 && last <= log.Last()
      modifies this
      ensures (ok ==> Valid()) && Healthy(old(contents))
      ensures var r := ReplayAll(old(Value()), log.entries[first - log.first..last - log.first + 1]);
        (ok <==> r.Some?) && (ok ==> r == Some(Value()))
    {
      hide Sound, Shows, InOrder, Indexes, Healthy, Replay, ReplayAll;
      ValidIsHealthy();
      ghost var todo := log.entries[first - log.first..last - log.first + 1];
      var i := first;
      while i <= last
        invariant first <= i <= last + 1 && Valid() && Healthy(contents)
        invariant ReplayAll(Value(), todo[i - first..]) == ReplayAll(old(Value()), todo)
      {
        var entry := log.entries[i - log.first];
        ReplayFirst(Value(), todo[i - first..], entry, todo[i + 1 - first..]);
        var applied := ReplayEntry(entry, h);
        if !applied {
          return false;
        }
        ValidIsHealthy();
        i := i + 1;
      }
      ReplayNone(Value(), todo[i - first..]);
      return true;
    }

    lemma ValidIsHealthy()
      requires Valid()
      ensures Healthy(contents)
    {
    }
  }

  /** Loads a snapshot; it is refused if its commit info is not that of the trees found. */
  method LoadMultiTree(x: Stored, found: seq<Named<State>>, h: Hasher) returns (r: MultiTree?)
    requires Shows(found, x.trees)
    ensures r != null <==> Load(x, h).Some?
    ensures r != null ==> fresh(r) && Load(x, h) == Some(r.Value()) && r.stores == x.info.stores
    ensures r != null && Healthy(OpenedAll(x)) ==> r.Valid()
  {
    hide Shows, InOrder, Indexes, Healthy, Listed;
    var t := new MultiTree.Open(x, found);
    OneList(t.trees, Listed(t.contents), t.contents);
    var actual := if |t.trees| > 0 then t.trees[0].tree.version else x.info.version;
    var ids := BuildCommitInfo(t.trees, h);
    InfoIsListed(t.trees, t.contents, ids, h);
    var same := CommitInfoEqual(x.info, CommitInfo(actual, ids));
    if same {
      return t;
    }
    return null;
  }

  /** Version, number of stores, and then names, versions and hashes. */
  method CommitInfoEqual(trusted: CommitInfo, actual: CommitInfo) returns (r: bool)
    ensures r <==> trusted == actual
  {
    if trusted.version != actual.version || |trusted.stores| != |actual.stores| {
      return false;
    }
    for i := 0 to |trusted.stores|
      invariant trusted.stores[..i] == actual.stores[..i]
    {
      var want, got := trusted.stores[i], actual.stores[i];
      if want.name != got.name || want.tree.version != got.tree.version || want.tree.hash != got.tree.hash {
        return false;
      }
      assert want == got;
    }
    assert trusted.stores == trusted.stores[..|trusted.stores|] == actual.stores[..|trusted.stores|] == actual.stores;
    return true;
  }

  method BuildCommitInfo(ts: seq<Named<State>>, h: Hasher) returns (ids: seq<Named<CommitId>>)
    ensures |ids| == |ts| && forall j :: 0 <= j < |ts| ==> ids[j] == Named(ts[j].name, IdOf(ts[j].tree, h))
  {
    ids := [];
    for i := 0 to |ts|
      invariant |ids| == i && forall j :: 0 <= j < i ==> ids[j] == Named(ts[j].name, IdOf(ts[j].tree, h))
    {
      ids := ids + [Named(ts[i].name, IdOf(ts[i].tree, h))];
    }
  }

  /** Built from the list in order, the commit info is that of the map of stores. */
  lemma InfoIsListed(ts: seq<Named<State>>, m: map<Name, State>, ids: seq<Named<CommitId>>, h: Hasher)
    requires Shows(ts, m) && InOrder(ts)
    requires |ids| == |ts| && forall j :: 0 <= j < |ts| ==> ids[j] == Named(ts[j].name, IdOf(ts[j].tree, h))
    ensures ids == Listed(Ids(m, h))
  {
    hide IdOf, Less, IndexOf, Listed;
    forall n | n in m ensures IndexOf(ids, n) >= 0 { assert ids[IndexOf(ts, n)].name == n; }
    OneList(ids, Listed(Ids(m, h)), Ids(m, h));
  }

  method OpenTrees(ts: seq<Named<State>>, initial: nat) returns (us: seq<Named<State>>)
    ensures |us| == |ts| && forall j :: 0 <= j < |ts| ==> us[j] == Named(ts[j].name, Opened(ts[j].tree, initial))
  {
    us := [];
    for i := 0 to |ts|
      invariant |us| == i && forall j :: 0 <= j < i ==> us[j] == Named(ts[j].name, Opened(ts[j].tree, initial))
    {
      us := us + [Named(ts[i].name, Opened(ts[i].tree, initial))];
    }
  }

  lemma OpenedShows(ts: seq<Named<State>>, us: seq<Named<State>>, x: Stored)
    requires Shows(ts, x.trees)
    requires |us| == |ts| && forall j :: 0 <= j < |ts| ==> us[j] == Named(ts[j].name, Opened(ts[j].tree, x.initial))
    ensures Shows(us, OpenedAll(x))
  {
    hide Opened, IndexOf;
    forall n | n in x.trees ensures IndexOf(us, n) >= 0 { assert us[IndexOf(ts, n)].name == n; }
  }

  /** The index by name, unless a name comes twice. */
  method BuildIndex(ts: seq<Named<State>>) returns (r: Option<map<Name, nat>>)
    ensures r.Some? <==> Distinct(ts)
    ensures r.Some? ==> Indexes(r.value, ts)
  {
    var byName: map<Name, nat> := map[];
    for i := 0 to |ts|
      invariant forall j :: 0 <= j < i ==> ts[j].name in byName && byName[ts[j].name] == j
      invariant forall n :: n in byName ==> byName[n] < i && ts[byName[n]].name == n
    {
      if ts[i].name in byName {
        assert ts[byName[ts[i].name]].name == ts[i].name;
        return None;
      }
      byName := byName[ts[i].name := i];
    }
    return Some(byName);
  }

  method Overflows(ts: seq<Named<State>>, ghost m: Multi) returns (r: bool)
    requires Shows(ts, m.trees) && Healthy(m.trees)
    ensures r <==> SaveAll(m).None?
  {
    hide Sound, IndexOf, Less;
    for i := 0 to |ts|
      invariant forall j :: 0 <= j < i ==> ts[j].tree.version != TWO_32 - 1
    {
      if ts[i].tree.version == TWO_32 - 1 {
        assert ts[i].name in m.trees;
        return true;
      }
    }
    assert forall n :: n in m.trees ==> ts[IndexOf(ts, n)].tree == m.trees[n];
    return false;
  }

  method SaveTrees(ts: seq<Named<State>>) returns (us: seq<Named<State>>)
    ensures |us| == |ts| && forall j :: 0 <= j < |ts| ==> us[j] == Named(ts[j].name, Saved(ts[j].tree))
  {
    us := ts;
    for i := 0 to |us|
      invariant |us| == |ts|
      invariant forall j :: 0 <= j < i ==> us[j] == Named(ts[j].name, Saved(ts[j].tree))
      invariant forall j :: i <= j < |us| ==> us[j] == ts[j]
    {
      us := us[i := Named(us[i].name, Saved(us[i].tree))];
    }
  }

  lemma NameKnown(ts: seq<Named<State>>, m: map<Name, State>, byName: map<Name, nat>, name: Name)
    requires Shows(ts, m) && Indexes(byName, ts)
    ensures name in m <==> name in byName
    ensures name in byName ==> byName[name] < |ts| && ts[byName[name]] == Named(name, m[name])
  {
    var i := IndexOf(ts, name);
  }

  lemma ChangeKeeps(ts: seq<Named<State>>, m: map<Name, State>, byName: map<Name, nat>, i: nat, c: Changes)
    requires Shows(ts, m) && InOrder(ts) && Indexes(byName, ts) && Healthy(m)
    requires i < |ts| && ts[i].name == c.name && c.name in m && m[c.name] == ts[i].tree
    ensures ts[i].tree.root.Some? ==> Exact(ts[i].tree.root.value)
    ensures var us := ts[i := Named(ts[i].name, EditedAll(ts[i].tree, c.pairs))];
      Shows(us, ApplyChange(m, c).value) && InOrder(us) && Indexes(byName, us)
  {
    hide Sound, Shows, Less, EditedAll, IndexOf;
    EditedAllIsSound(ts[i].tree, c.pairs);
    ShowsSet(ts, m, i, EditedAll(ts[i].tree, c.pairs));
  }

  lemma SavedKeeps(ts: seq<Named<State>>, us: seq<Named<State>>, m: Multi, byName: map<Name, nat>)
    requires Shows(ts, m.trees) && InOrder(ts) && Indexes(byName, ts) && Healthy(m.trees) && SaveAll(m).Some?
    requires |us| == |ts| && forall j :: 0 <= j < |ts| ==> us[j] == Named(ts[j].name, Saved(ts[j].tree))
    ensures SaveAll(m).value == Multi(m.initial, NextVersion(m.version, m.initial), SaveAll(m).value.trees)
    ensures var r := SaveAll(m).value.trees;
      Shows(us, r) && InOrder(us) && Indexes(byName, us) && Healthy(r)
  {
    hide Sound, IndexOf, Less, Shows, InOrder, Indexes, Healthy;
    SavedShows(ts, us, m);
    NamesStay(ts, us, byName);
  }

  lemma SavedShows(ts: seq<Named<State>>, us: seq<Named<State>>, m: Multi)
    requires Shows(ts, m.trees) && Healthy(m.trees) && SaveAll(m).Some?
    requires |us| == |ts| && forall j :: 0 <= j < |ts| ==> us[j] == Named(ts[j].name, Saved(ts[j].tree))
    ensures Shows(us, SaveAll(m).value.trees)
  {
    hide Sound, IndexOf, Less, Healthy;
    forall n | n in m.trees ensures IndexOf(us, n) >= 0 {
      assert us[IndexOf(ts, n)].name == n;
    }
  }

  lemma NamesStay(ts: seq<Named<State>>, us: seq<Named<State>>, byName: map<Name, nat>)
    requires InOrder(ts) && Indexes(byName, ts)
    requires |us| == |ts| && forall j :: 0 <= j < |ts| ==> us[j].name == ts[j].name
    ensures InOrder(us) && Indexes(byName, us)
  {
    hide Less;
  }
}
