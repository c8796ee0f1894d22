/** Upgrades look at names only. So where every store of the result comes from can be told
    by upgrading labels instead of stores, and the order of the stores matters only where a
    name that is there twice is looked up. */
module UpgradeLabels {
  import opened Bytes
  import opened StoreLists

  /** The same list with something else in the place of each store. */
  function Mapped<T, U>(f: T -> U, ts: seq<Named<T>>): (r: seq<Named<U>>)
    ensures |r| == |ts| && forall i :: 0 <= i < |ts| ==> r[i] == Named(ts[i].name, f(ts[i].tree))
  {
    seq(|ts|, i requires 0 <= i < |ts| => Named(ts[i].name, f(ts[i].tree)))
  }

  lemma {:induction false} MappedIndex<T, U>(f: T -> U, ts: seq<Named<T>>, name: Name)
    ensures IndexOf(Mapped(f, ts), name) == IndexOf(ts, name)
    decreases |ts|
  {
    if ts != [] {
      assert Mapped(f, ts)[1..] == Mapped(f, ts[1..]);
      MappedIndex(f, ts[1..], name);
    }
  }

  function MappedSome<T, U>(f: T -> U, list: Option<seq<Named<T>>>): Option<seq<Named<U>>> {
    if list.None? then None else Some(Mapped(f, list.value))
  }

  lemma MappedUpgrade<T, U>(f: T -> U, ts: seq<Named<T>>, u: Upgrade, blank: T)
    ensures UpgradeList(Mapped(f, ts), u, f(blank)) == MappedSome(f, UpgradeList(ts, u, blank))
  {
    hide IndexOf;
    MappedIndex(f, ts, u.name);
    MappedIndex(f, ts, u.renameFrom);
    var a, b := UpgradeList(Mapped(f, ts), u, f(blank)), UpgradeList(ts, u, blank);
    if b.Some? { assert a.value == Mapped(f, b.value); }
  }

  lemma {:induction false} MappedUpgrades<T, U>(f: T -> U, ts: seq<Named<T>>, us: seq<Upgrade>, blank: T)
    ensures UpgradeLists(Mapped(f, ts), us, f(blank)) == MappedSome(f, UpgradeLists(ts, us, blank))
    decreases |us|
  {
    hide UpgradeList, Mapped;
    if us != [] {
      MappedUpgrade(f, ts, us[0], blank);
      var list := UpgradeList(ts, us[0], blank);
      if list.Some? { MappedUpgrades(f, list.value, us[1..], blank); }
    }
  }

  lemma {:induction false} UpgradesAppend<T>(ts: seq<Named<T>>, a: seq<Upgrade>, b: seq<Upgrade>, blank: T)
    ensures UpgradeLists(ts, a + b, blank)
         == var mid := UpgradeLists(ts, a, blank); if mid.None? then None else UpgradeLists(mid.value, b, blank)
    decreases |a|
  {
    hide UpgradeList;
    if a == [] {
      assert a + b == b;
    } else {
      assert (a + b)[0] == a[0] && (a + b)[1..] == a[1..] + b;
      var list := UpgradeList(ts, a[0], blank);
      if list.Some? { UpgradesAppend(list.value, a[1..], b, blank); }
    }
  }

  // ------------------------------------------------------------ order does not matter

  /** The name that an upgrade looks up. */
  function LookedUp(u: Upgrade): Option<Name> {
    if u.delete then Some(u.name) else if u.renameFrom != [] then Some(u.renameFrom) else None
  }

  /** All stores that have the name looked up are the same. */
  ghost predicate Clear<T>(ts: seq<Named<T>>, u: Upgrade) {
    LookedUp(u).Some? ==>
      forall i, j :: 0 <= i < |ts| && 0 <= j < |ts| && ts[i].name == LookedUp(u).value == ts[j].name ==> ts[i] == ts[j]
  }

  /** So it is for every upgrade of the list. */
  ghost predicate AllClear<T>(ts: seq<Named<T>>, us: seq<Upgrade>, blank: T)
    decreases |us|
  {
    us != [] ==> Clear(ts, us[0]) && (UpgradeList(ts, us[0], blank).Some? ==>
      AllClear(UpgradeList(ts, us[0], blank).value, us[1..], blank))
  }

  lemma UpgradedBag<T>(ts: seq<Named<T>>, u: Upgrade, blank: T)
    requires UpgradeList(ts, u, blank).Some?
    ensures var i := if u.delete then IndexOf(ts, u.name) else IndexOf(ts, u.renameFrom);
      var r := multiset(UpgradeList(ts, u, blank).value);
      if u.delete then i >= 0 && r == multiset(ts) - multiset{ts[i]}
      else if u.renameFrom != [] then
        i >= 0 && r == multiset(ts) - multiset{ts[i]} + multiset{Named(u.name, ts[i].tree)}
      else r == multiset(ts) + multiset{Named(u.name, blank)}
  {
    hide IndexOf;
    var k := |ts| - 1;
    if u.delete {
      var i := IndexOf(ts, u.name);
      var moved := ts[i := ts[k]];
      assert multiset(moved) == multiset(ts) - multiset{ts[i]} + multiset{ts[k]};
      assert moved == moved[..k] + [ts[k]];
      assert multiset(moved) == multiset(moved[..k]) + multiset{ts[k]};
      assert multiset(moved[..k]) == multiset(moved) - multiset{ts[k]};
    }
  }

  lemma SameFirst<T>(ts: seq<Named<T>>, us: seq<Named<T>>, name: Name)
    requires multiset(ts) == multiset(us)
    requires forall i, j :: 0 <= i < |ts| && 0 <= j < |ts| && ts[i].name == name == ts[j].name ==> ts[i] == ts[j]
    ensures var i, j := IndexOf(ts, name), IndexOf(us, name);
      (i < 0 <==> j < 0) && (i >= 0 ==> ts[i] == us[j])
  {
    var i, j := IndexOf(ts, name), IndexOf(us, name);
    hide IndexOf;
    if i >= 0 {
      assert ts[i] in multiset(ts);
      assert ts[i] in us;
    }
    if j >= 0 {
      assert us[j] in multiset(us);
      assert us[j] in ts;
    }
  }

  lemma UpgradePermutes<T>(ts: seq<Named<T>>, us: seq<Named<T>>, u: Upgrade, blank: T)
    requires multiset(ts) == multiset(us) && Clear(ts, u)
    ensures var a, b := UpgradeList(ts, u, blank), UpgradeList(us, u, blank);
      (a.Some? <==> b.Some?) && (a.Some? ==> multiset(a.value) == multiset(b.value))
  {
    hide IndexOf;
    if LookedUp(u).Some? { SameFirst(ts, us, LookedUp(u).value); }
    var a, b := UpgradeList(ts, u, blank), UpgradeList(us, u, blank);
    if a.Some? {
      UpgradedBag(ts, u, blank);
      UpgradedBag(us, u, blank);
    }
  }

  lemma {:induction false} UpgradesPermute<T>(ts: seq<Named<T>>, us: seq<Named<T>>, vs: seq<Upgrade>, blank: T)
    requires multiset(ts) == multiset(us) && AllClear(ts, vs, blank)
    ensures var a, b := UpgradeLists(ts, vs, blank), UpgradeLists(us, vs, blank);
      (a.Some? <==> b.Some?) && (a.Some? ==> multiset(a.value) == multiset(b.value))
    decreases |vs|
  {
    hide UpgradeList, Clear;
    if vs != [] {
      UpgradePermutes(ts, us, vs[0], blank);
      var a, b := UpgradeList(ts, vs[0], blank), UpgradeList(us, vs[0], blank);
      if a.Some? { UpgradesPermute(a.value, b.value, vs[1..], blank); }
    }
  }

  lemma {:induction false} Twice<T>(ts: seq<T>, x: T)
    requires multiset(ts)[x] >= 2
    ensures exists i, j :: 0 <= i < j < |ts| && ts[i] == x == ts[j]
    decreases |ts|
  {
    var k := |ts| - 1;
    assert ts == ts[..k] + [ts[k]];
    if ts[k] == x {
      assert x in multiset(ts[..k]);
      assert x in ts[..k];
      var i :| 0 <= i < k && ts[..k][i] == x;
      assert ts[i] == x == ts[k];
    } else {
      Twice(ts[..k], x);
      var i, j :| 0 <= i < j < k && ts[..k][i] == x == ts[..k][j];
      assert ts[i] == x == ts[j];
    }
  }

  lemma TwiceIn<T>(ts: seq<T>, i: nat, j: nat)
    requires i < j < |ts| && ts[i] == ts[j]
    ensures multiset(ts)[ts[i]] >= 2
  {
    assert ts == ts[..j] + [ts[j]] + ts[j + 1..];
    assert ts[..j][i] == ts[i];
    assert ts[i] in multiset(ts[..j]);
  }

  lemma PermutedClash<T>(ts: seq<Named<T>>, us: seq<Named<T>>)
    requires multiset(ts) == multiset(us) && Distinct(us)
    ensures Distinct(ts)
  {
    forall i, j | 0 <= i < j < |ts| ensures ts[i].name != ts[j].name {
      var x, y := ts[i], ts[j];
      if x == y {
        TwiceIn(ts, i, j);
        Twice(us, x);
      } else {
        assert x in multiset(us) && y in multiset(us);
        var k :| 0 <= k < |us| && us[k] == x;
        var l :| 0 <= l < |us| && us[l] == y;
      }
    }
  }

  /** The same stores in another order make the same map. */
  lemma PermutedMap<T>(ts: seq<Named<T>>, us: seq<Named<T>>)
    requires multiset(ts) == multiset(us)
    ensures Distinct(ts) <==> Distinct(us)
    ensures Distinct(ts) ==> ToMap(ts) == ToMap(us)
  {
    if Distinct(us) { PermutedClash(ts, us); }
    if Distinct(ts) {
      PermutedClash(us, ts);
      DistinctShows(ts);
      DistinctShows(us);
      PermutedShows(ts, us, ToMap(ts));
      OneMap(us, ToMap(ts), ToMap(us));
    }
  }

  lemma PermutedShows<T>(ts: seq<Named<T>>, us: seq<Named<T>>, m: map<Name, T>)
    requires multiset(ts) == multiset(us) && Shows(ts, m) && Distinct(us)
    ensures Shows(us, m)
  {
    forall i | 0 <= i < |us| ensures us[i].name in m && m[us[i].name] == us[i].tree {
      assert us[i] in multiset(ts);
      assert us[i] in ts;
    }
    forall n | n in m ensures IndexOf(us, n) >= 0 {
      assert ts[IndexOf(ts, n)] in multiset(us);
      assert ts[IndexOf(ts, n)] in us;
    }
  }
}

/** When the upgrades of a commit can be put before its changes, and several lists of them
    into one, as the log entry does. */
module UpgradeOrders {
  import opened Bytes
  import opened StoreLists
  import opened UpgradeLabels

  function MapOf<T, U>(f: T -> U, m: map<Name, T>): map<Name, U> {
    map n | n in m :: f(m[n])
  }

  function MapSome<T, U>(f: T -> U, m: Option<map<Name, T>>): Option<map<Name, U>> {
    if m.None? then None else Some(MapOf(f, m.value))
  }

  lemma MappedShows<T, U>(f: T -> U, ts: seq<Named<T>>, m: map<Name, T>)
    requires Shows(ts, m)
    ensures Shows(Mapped(f, ts), MapOf(f, m))
  {
    forall n | n in MapOf(f, m) ensures IndexOf(Mapped(f, ts), n) >= 0 { MappedIndex(f, ts, n); }
  }

  lemma MappedListed<T, U>(f: T -> U, m: map<Name, T>)
    ensures Listed(MapOf(f, m)) == Mapped(f, Listed(m))
  {
    MappedShows(f, Listed(m), m);
    hide Shows, Less;
    OneList(Listed(MapOf(f, m)), Mapped(f, Listed(m)), MapOf(f, m));
  }

  /** Upgrading does not look at what the stores hold. */
  lemma UpgradeAllMapped<T, U>(f: T -> U, m: map<Name, T>, us: seq<Upgrade>, blank: T)
    ensures UpgradeAll(MapOf(f, m), us, f(blank)) == MapSome(f, UpgradeAll(m, us, blank))
  {
    hide Shows, UpgradeLists, ToMap, MapOf;
    MappedListed(f, m);
    MappedUpgrades(f, Listed(m), us, blank);
    var list := UpgradeLists(Listed(m), us, blank);
    if list.Some? && Distinct(list.value) {
      var ts := Mapped(f, list.value);
      DistinctShows(list.value);
      MappedShows(f, list.value, ToMap(list.value));
      DistinctShows(ts);
      OneMap(ts, ToMap(ts), MapOf(f, ToMap(list.value)));
    }
  }

  // ----------------------------------------------------------------- labels

  /** Where a store comes from: it had a name before, or it is new. */
  datatype Origin = Old(name: Name) | New

  function Own(names: set<Name>): map<Name, Origin> {
    map n | n in names :: Old(n)
  }

  /** The store that a label stands for. */
  function Pick<T>(m: map<Name, T>, blank: T): Origin -> T {
    (o: Origin) => if o.Old? && o.name in m then m[o.name] else blank
  }

  /** Every list of upgrades moves stores as it moves their names. */
  lemma UpgradeByLabels<T>(m: map<Name, T>, us: seq<Upgrade>, blank: T)
    ensures UpgradeAll(m, us, blank) == MapSome(Pick(m, blank), UpgradeAll(Own(m.Keys), us, New))
  {
    hide UpgradeAll;
    var f := Pick(m, blank);
    assert MapOf(f, Own(m.Keys)) == m;
    UpgradeAllMapped(f, Own(m.Keys), us, New);
  }

  ghost predicate OnceOnly<T>(ts: seq<Named<T>>, blank: T) {
    forall i, j :: 0 <= i < j < |ts| && ts[i].tree == ts[j].tree ==> ts[i].tree == blank
  }

  lemma UpgradeKeepsOnce<T>(ts: seq<Named<T>>, u: Upgrade, blank: T)
    requires OnceOnly(ts, blank) && UpgradeList(ts, u, blank).Some?
    ensures OnceOnly(UpgradeList(ts, u, blank).value, blank)
  {
    hide IndexOf;
  }

  lemma {:induction false} UpgradesKeepOnce<T>(ts: seq<Named<T>>, us: seq<Upgrade>, blank: T)
    requires OnceOnly(ts, blank) && UpgradeLists(ts, us, blank).Some?
    ensures OnceOnly(UpgradeLists(ts, us, blank).value, blank)
    decreases |us|
  {
    hide UpgradeList, OnceOnly;
    if us != [] {
      UpgradeKeepsOnce(ts, us[0], blank);
      UpgradesKeepOnce(UpgradeList(ts, us[0], blank).value, us[1..], blank);
    }
  }

  /** The labels of the result: each is that of a store which was there, and none comes
      twice. */
  lemma LabelsAfter(names: set<Name>, us: seq<Upgrade>)
    requires UpgradeAll(Own(names), us, New).Some?
    ensures var r := UpgradeAll(Own(names), us, New).value;
      && (forall n :: n in r && r[n].Old? ==> r[n].name in names)
      && (forall a, b :: a in r && b in r && r[a] == r[b] && r[a].Old? ==> a == b)
  {
    LabelsAreOld(names, us);
    LabelsOnce(names, us);
  }

  lemma LabelsAreOld(names: set<Name>, us: seq<Upgrade>)
    requires UpgradeAll(Own(names), us, New).Some?
    ensures var r := UpgradeAll(Own(names), us, New).value; forall n :: n in r && r[n].Old? ==> r[n].name in names
  {
    hide UpgradeAll;
    UpgradeAllHolds(Own(names), us, New);
  }

  lemma OwnOnce(names: set<Name>)
    ensures OnceOnly(Listed(Own(names)), New)
  {
    hide IndexOf, InOrder;
    var ts := Listed(Own(names));
    forall i, j | 0 <= i < j < |ts| ensures ts[i].tree != ts[j].tree {
      assert Own(names)[ts[i].name] == ts[i].tree && Own(names)[ts[j].name] == ts[j].tree;
    }
  }

  lemma LabelsOnce(names: set<Name>, us: seq<Upgrade>)
    requires UpgradeAll(Own(names), us, New).Some?
    ensures var r := UpgradeAll(Own(names), us, New).value;
      forall a, b :: a in r && b in r && r[a] == r[b] && r[a].Old? ==> a == b
  {
    hide UpgradeLists, ToMap, InOrder, Listed, IndexOf;
    var list := UpgradeLists(Listed(Own(names)), us, New).value;
    OwnOnce(names);
    UpgradesKeepOnce(Listed(Own(names)), us, New);
    DistinctShows(list);
    var r := ToMap(list);
    forall a, b | a in r && b in r && r[a] == r[b] && r[a].Old? ensures a == b {
      var i, j := IndexOf(list, a), IndexOf(list, b);
      assert list[i].name == a && list[j].name == b && list[i].tree == list[j].tree;
    }
  }

  /** Whether a list of upgrades can be logged with those before it, and before the changes
      of some stores. It depends on names only: both lists in one go must leave the stores
      that they leave one after the other, and a store with changes must keep its name. */
  ghost predicate CanMoveUp(names: set<Name>, before: seq<Upgrade>, us: seq<Upgrade>, changed: set<Name>) {
    var origins := UpgradeAll(Own(names), before, New);
    && origins.Some?
    && UpgradeAll(Own(names), before + us, New) == UpgradeAll(origins.value, us, New)
    && var moved := UpgradeAll(Own(origins.value.Keys), us, New);
      moved.Some? && forall n :: n in changed ==> n in moved.value && moved.value[n] == Old(n)
  }

  /** A single list before all changes can always be logged. */
  lemma SingleList(names: set<Name>, us: seq<Upgrade>)
    requires UpgradeAll(Own(names), us, New).Some?
    ensures CanMoveUp(names, [], us, {})
  {
    hide UpgradeAll;
    NoUpgrades(Own(names), New);
    assert [] + us == us && Own(names).Keys == names;
  }

  /** Two lists can be logged as one if the second never looks up a name that stands for
      two different stores then. */
  lemma ClearLists(names: set<Name>, before: seq<Upgrade>, us: seq<Upgrade>)
    requires UpgradeAll(Own(names), before, New).Some?
    requires var origins := UpgradeAll(Own(names), before, New).value;
      AllClear(Listed(origins), us, New) && UpgradeAll(origins, us, New).Some?
    ensures CanMoveUp(names, before, us, {})
  {
    hide Shows, UpgradeLists, ToMap, InOrder, AllClear;
    var ts := Listed(Own(names));
    var mid := UpgradeLists(ts, before, New).value;
    var origins := ToMap(mid);
    UpgradesAppend(ts, before, us, New);
    ListedPermutes(mid);
    UpgradesPermute(Listed(origins), mid, us, New);
    var a, b := UpgradeLists(Listed(origins), us, New).value, UpgradeLists(mid, us, New).value;
    PermutedMap(a, b);
    var c := Pick(origins, New);
    assert MapOf(c, Own(origins.Keys)) == origins;
    UpgradeAllMapped(c, Own(origins.Keys), us, New);
  }

  /** Upgrades may come after the changes of stores that they do not name. */
  lemma UntouchedStay(names: set<Name>, before: seq<Upgrade>, us: seq<Upgrade>, changed: set<Name>)
    requires CanMoveUp(names, before, us, {}) && changed <= UpgradeAll(Own(names), before, New).value.Keys
    requires forall n :: n in changed ==> Untouched(us, n)
    ensures CanMoveUp(names, before, us, changed)
  {
    hide UpgradeAll, Untouched;
    var keys := UpgradeAll(Own(names), before, New).value.Keys;
    forall n | n in changed
      ensures var moved := UpgradeAll(Own(keys), us, New).value; n in moved && moved[n] == Old(n)
    {
      UpgradeAllLeavesAlone(Own(keys), us, New, n);
    }
  }

  lemma ListedPermutes<T>(ts: seq<Named<T>>)
    requires Distinct(ts)
    ensures multiset(Listed(ToMap(ts))) == multiset(ts)
  {
    hide Shows, ToMap;
    DistinctShows(ts);
    SortedSorts(ts);
    SortedShows(ts, ToMap(ts));
    OneList(Sorted(ts), Listed(ToMap(ts)), ToMap(ts));
  }
}

/** The condition is exact: where it holds, the log entry replays to the working trees; where
    it does not, there are stores with the same names, and changes to the same of them, for
    which it does not replay to them. */
module MovedUpgrades {
  import opened Bytes
  import opened Iavl
  import opened IavlContents
  import opened TreeStates
  import opened StoreLists
  import opened UpgradeOrders
  import opened MultiStates
  import opened PendingLogs

  ghost function ChangedNames(cs: seq<Changes>): set<Name> {
    set i | 0 <= i < |cs| :: cs[i].name
  }

  /** What a commit does: upgrades, changes, and more upgrades; with all states on the way. */
  ghost predicate Steps(m: Multi, before: seq<Upgrade>, cs: seq<Changes>, us: seq<Upgrade>,
                        first: map<Name, State>, mid: map<Name, State>, last: map<Name, State>) {
    var blank := NewTree(NextVersion(m.version, m.initial));
    && Healthy(m.trees) && UpgradeAll(m.trees, before, blank) == Some(first)
    && Healthy(first) && ApplyChanges(first, cs) == Some(mid)
    && UpgradeAll(mid, us, blank) == Some(last)
  }

  /** A store of the result, as the working trees have it and as the log entry gives it. */
  lemma StoreMoves(first: map<Name, State>, mid: map<Name, State>, cs: seq<Changes>, blank: State,
                   moved: map<Name, Origin>, n: Name)
    requires Healthy(first) && ApplyChanges(first, cs) == Some(mid) && Sound(blank) && n in moved
    requires moved[n].Old? ==> moved[n].name in first
    requires forall a, b :: a in moved && b in moved && moved[a] == moved[b] && moved[a].Old? ==> a == b
    requires forall k :: k in ChangedNames(cs) ==> k in moved && moved[k] == Old(k)
    ensures var x := Pick(first, blank)(moved[n]);
      && (x.root.Some? ==> Exact(x.root.value))
      && Pick(mid, blank)(moved[n]) == EditedAll(x, PairsOf(cs, n))
  {
    ChangesByStore(first, cs);
    SoundIsExact(blank);
    hide Sound, Healthy, ApplyChanges, PairsOf;
    if n !in ChangedNames(cs) { NoPairsOf(cs, n); }
    if moved[n].Old? {
      var k := moved[n].name;
      if k != n && k !in ChangedNames(cs) { NoPairsOf(cs, k); }
    }
  }

  lemma NoPairsOf(cs: seq<Changes>, n: Name)
    requires n !in ChangedNames(cs)
    ensures PairsOf(cs, n) == []
  {
    forall i | 0 <= i < |cs| ensures cs[i].name != n { assert cs[i].name in ChangedNames(cs); }
    PairsOfNone(cs, n);
  }

  /** The upgrades of the log entry move the stores as those of the working trees do. */
  lemma MovedTogether(m: Multi, before: seq<Upgrade>, cs: seq<Changes>, us: seq<Upgrade>,
                      first: map<Name, State>, mid: map<Name, State>, last: map<Name, State>)
    returns (moved: map<Name, Origin>)
    requires Steps(m, before, cs, us, first, mid, last)
    requires CanMoveUp(m.trees.Keys, before, us, ChangedNames(cs))
    ensures var blank := NewTree(NextVersion(m.version, m.initial));
      && UpgradeAll(m.trees, before + us, blank) == Some(MapOf(Pick(first, blank), moved))
      && last == MapOf(Pick(mid, blank), moved)
      && UpgradeAll(Own(first.Keys), us, New) == Some(moved)
      && (forall n :: n in ChangedNames(cs) ==> n in moved && moved[n] == Old(n))
  {
    hide UpgradeAll, Healthy, ApplyChanges, NewTree, NextVersion, Pick, MapOf;
    var blank := NewTree(NextVersion(m.version, m.initial));
    var origins := UpgradeAll(Own(m.trees.Keys), before, New).value;
    UpgradeByLabels(m.trees, before, blank);
    UpgradeByLabels(m.trees, before + us, blank);
    MapKeys(Pick(m.trees, blank), origins);
    SameKeys(first, cs, mid);
    UpgradeByLabels(mid, us, blank);
    UpgradeByLabels(origins, us, New);
    moved := UpgradeAll(Own(first.Keys), us, New).value;
    PickTwice(m.trees, blank, origins, moved);
  }

  lemma MapKeys<T, U>(f: T -> U, m: map<Name, T>)
    ensures MapOf(f, m).Keys == m.Keys
  {
  }

  lemma SameKeys(first: map<Name, State>, cs: seq<Changes>, mid: map<Name, State>)
    requires Healthy(first) && ApplyChanges(first, cs) == Some(mid)
    ensures mid.Keys == first.Keys
  {
    hide Healthy, ApplyChanges;
    ChangesByStore(first, cs);
  }

  /** Looking up a store by way of an earlier name. */
  lemma PickTwice<T>(m: map<Name, T>, blank: T, origins: map<Name, Origin>, moved: map<Name, Origin>)
    ensures MapOf(Pick(m, blank), MapOf(Pick(origins, New), moved))
      == MapOf(Pick(MapOf(Pick(m, blank), origins), blank), moved)
  {
  }

  /** Where the condition holds, replaying the entry leads to the working trees. */
  lemma MovedUpReplays(m: Multi, before: seq<Upgrade>, cs: seq<Changes>, us: seq<Upgrade>,
                       first: map<Name, State>, mid: map<Name, State>, last: map<Name, State>)
    requires Steps(m, before, cs, us, first, mid, last)
    requires CanMoveUp(m.trees.Keys, before, us, ChangedNames(cs))
    ensures ApplyEntry(m, WalEntry(before + us, cs)) == Some(Multi(m.initial, m.version, last))
  {
    hide UpgradeAll, Sound, ApplyChanges, PairsOf, NextVersion, Pick, Healthy, NamesKnown, CanMoveUp;
    var next := NextVersion(m.version, m.initial);
    var blank := NewTree(next);
    BlankIsSound(next);
    hide NewTree;
    var moved := MovedTogether(m, before, cs, us, first, mid, last);
    LabelsAfter(first.Keys, us);
    UpgradeAllIsHealthy(m.trees, before + us, next);
    var upgraded := MapOf(Pick(first, blank), moved);
    ChangesByStore(upgraded, cs);
    AllKnown(upgraded, cs);
    forall n | n in moved ensures last[n] == ApplyChanges(upgraded, cs).value[n] {
      StoreMoves(first, mid, cs, blank, moved, n);
    }
    assert ApplyChanges(upgraded, cs).value == last;
  }

  lemma BlankIsSound(next: nat)
    ensures Sound(NewTree(next))
  {
  }

  lemma AllKnown(trees: map<Name, State>, cs: seq<Changes>)
    requires ChangedNames(cs) <= trees.Keys
    ensures NamesKnown(trees, cs)
  {
    forall i | 0 <= i < |cs| ensures cs[i].name in trees { assert cs[i].name in ChangedNames(cs); }
  }

  // --------------------------------------------------------- the condition is needed

  lemma SavedRoots(a: Multi, b: Multi)
    requires Healthy(a.trees) && Healthy(b.trees) && SaveAll(a).Some? && SaveAll(a) == SaveAll(b)
    ensures a.trees.Keys == b.trees.Keys && forall n :: n in a.trees ==> a.trees[n].root == b.trees[n].root
  {
    hide Sound;
    var x, y := SaveAll(a).value.trees, SaveAll(b).value.trees;
    assert x.Keys == a.trees.Keys && y.Keys == b.trees.Keys;
    forall n | n in a.trees ensures a.trees[n].root == b.trees[n].root {
      assert x[n] == Saved(a.trees[n]) && y[n] == Saved(b.trees[n]);
    }
  }

  /** All stores are at the version before the one being written. */
  ghost predicate Level(trees: map<Name, State>, next: nat) {
    Healthy(trees) && forall n :: n in trees ==> trees[n].version == next - 1
  }

  lemma LevelSaves(initial: nat, version: nat, trees: map<Name, State>, next: nat)
    requires Level(trees, next) && next < TWO_32
    ensures SaveAll(Multi(initial, version, trees)).Some?
  {
    hide Sound;
  }

  lemma LevelAfter(trees: map<Name, State>, us: seq<Upgrade>, next: nat)
    requires Level(trees, next) && 1 <= next < TWO_32 && UpgradeAll(trees, us, NewTree(next)).Some?
    ensures Level(UpgradeAll(trees, us, NewTree(next)).value, next)
  {
    hide UpgradeAll, Healthy;
    UpgradeAllIsHealthy(trees, us, next);
    UpgradesKeepVersions(trees, us, next);
  }

  /** A store that holds its own name. */
  function Marked(n: Name, next: nat): State
    requires next >= 1
  {
    State(next - 1, Some(Leaf([], n, 0)), false)
  }

  lemma MarkedIsSound(n: Name, next: nat)
    requires 1 <= next < TWO_32
    ensures Sound(Marked(n, next))
  {
  }

  function Emptied(cs: seq<Changes>): (r: seq<Changes>)
    ensures |r| == |cs| && forall i :: 0 <= i < |cs| ==> r[i] == Changes(cs[i].name, [])
  {
    seq(|cs|, i requires 0 <= i < |cs| => Changes(cs[i].name, []))
  }

  lemma {:induction false} NothingIn(cs: seq<Changes>, n: Name)
    requires forall i :: 0 <= i < |cs| ==> cs[i].pairs == []
    ensures PairsOf(cs, n) == []
    decreases |cs|
  {
    if cs != [] { NothingIn(cs[..|cs| - 1], n); }
  }

  /** Changes without pairs change nothing, but need their stores. */
  lemma EmptiedApplies(trees: map<Name, State>, cs: seq<Changes>)
    requires Healthy(trees) && forall i :: 0 <= i < |cs| ==> cs[i].pairs == []
    ensures ApplyChanges(trees, cs) == if NamesKnown(trees, cs) then Some(trees) else None
  {
    ChangesByStore(trees, cs);
    hide ApplyChanges, Healthy, NamesKnown, PairsOf;
    if NamesKnown(trees, cs) {
      var r := ApplyChanges(trees, cs).value;
      forall n | n in trees ensures r[n] == trees[n] { NothingIn(cs, n); }
      assert r == trees;
    }
  }

  /** Marked stores tell all labels apart. */
  lemma MarkedApart(names: set<Name>, next: nat, a: map<Name, Origin>, b: map<Name, Origin>)
    requires next >= 1
    requires forall n :: n in a && a[n].Old? ==> a[n].name in names
    requires forall n :: n in b && b[n].Old? ==> b[n].name in names
    requires var f := Pick(map n | n in names :: Marked(n, next), NewTree(next));
      MapOf(f, a).Keys == MapOf(f, b).Keys && forall n :: n in MapOf(f, a) ==>
        MapOf(f, a)[n].root == MapOf(f, b)[n].root
    ensures a == b
  {
    var f := Pick(map n | n in names :: Marked(n, next), NewTree(next));
    assert a.Keys == MapOf(f, a).Keys && b.Keys == MapOf(f, b).Keys;
    forall n | n in a ensures a[n] == b[n] {
      assert MapOf(f, a)[n] == f(a[n]) && MapOf(f, b)[n] == f(b[n]);
    }
  }

  lemma LabelsKnown(names: set<Name>, origins: map<Name, Origin>, us: seq<Upgrade>)
    requires forall n :: n in origins && origins[n].Old? ==> origins[n].name in names
    ensures var r := UpgradeAll(origins, us, New);
      r.Some? ==> forall n :: n in r.value && r.value[n].Old? ==> r.value[n].name in names
  {
    hide UpgradeAll;
    UpgradeAllHolds(origins, us, New);
    var r := UpgradeAll(origins, us, New);
    if r.Some? {
      forall n | n in r.value && r.value[n].Old? ensures r.value[n].name in names {
        var k :| k in origins && origins[k] == r.value[n];
      }
    }
  }

  /** If both lists in one go do not leave the stores that they leave one after the other,
      marked stores without changes show it. */
  lemma MarkedFail(initial: nat, version: nat, names: set<Name>, before: seq<Upgrade>, us: seq<Upgrade>,
                   cs: seq<Changes>)
    returns (m: Multi, first: map<Name, State>, last: map<Name, State>)
    requires 1 <= NextVersion(version, initial) < TWO_32 && UpgradeAll(Own(names), before, New).Some?
    requires var origins := UpgradeAll(Own(names), before, New).value;
      && ChangedNames(cs) <= origins.Keys && UpgradeAll(origins, us, New).Some?
      && UpgradeAll(Own(names), before + us, New) != UpgradeAll(origins, us, New)
    ensures m.initial == initial && m.version == version && m.trees.Keys == names
      && Level(m.trees, NextVersion(version, initial))
    ensures Steps(m, before, Emptied(cs), us, first, first, last)
    ensures Healthy(last) && SaveAll(Multi(initial, version, last)).Some?
    ensures Replay(m, WalEntry(before + us, Emptied(cs))) != SaveAll(Multi(initial, version, last))
  {
    hide UpgradeAll, Sound, ApplyChanges, NextVersion, Pick, NamesKnown, Marked, PairsOf, SaveAll;
    var next := NextVersion(version, initial);
    var blank, log := NewTree(next), Emptied(cs);
    hide NewTree;
    m := MarkedMulti(initial, version, names);
    hide Healthy;
    var f := Pick(m.trees, blank);
    var origins := UpgradeAll(Own(names), before, New).value;
    var inTurn := UpgradeAll(origins, us, New).value;
    UpgradeByLabels(m.trees, before, blank);
    PickBlank(m.trees, blank);
    UpgradeAllMapped(f, origins, us, New);
    first, last := MapOf(f, origins), MapOf(f, inTurn);
    LevelAfter(m.trees, before, next);
    LevelAfter(first, us, next);
    LevelSaves(initial, version, last, next);
    MapKeys(f, origins);
    NamesOf(cs, log);
    AllKnown(first, log);
    EmptiedApplies(first, log);
    UpgradeByLabels(m.trees, before + us, blank);
    var again := UpgradeAll(Own(names), before + us, New);
    if again.Some? && Replay(m, WalEntry(before + us, log)) == SaveAll(Multi(initial, version, last)) {
      LevelAfter(m.trees, before + us, next);
      EmptiedApplies(MapOf(f, again.value), log);
      SavedRoots(Multi(initial, version, MapOf(f, again.value)), Multi(initial, version, last));
      LabelsAfter(names, before);
      LabelsAfter(names, before + us);
      LabelsKnown(names, origins, us);
      MarkedApart(names, next, again.value, inTurn);
    }
  }

  lemma MarkedMulti(initial: nat, version: nat, names: set<Name>) returns (m: Multi)
    requires 1 <= NextVersion(version, initial) < TWO_32
    ensures m.initial == initial && m.version == version && m.trees.Keys == names
    ensures m.trees == map n | n in names :: Marked(n, NextVersion(version, initial))
    ensures Level(m.trees, NextVersion(version, initial))
  {
    hide Sound;
    var next := NextVersion(version, initial);
    m := Multi(initial, version, map n | n in names :: Marked(n, next));
    forall n | n in names ensures Sound(Marked(n, next)) { MarkedIsSound(n, next); }
  }

  lemma PickBlank<T>(m: map<Name, T>, blank: T)
    ensures Pick(m, blank)(New) == blank
  {
  }

  lemma NamesOf(a: seq<Changes>, b: seq<Changes>)
    requires |a| == |b| && forall i :: 0 <= i < |a| ==> a[i].name == b[i].name
    ensures ChangedNames(a) == ChangedNames(b)
  {
    forall i | 0 <= i < |a| ensures a[i].name in ChangedNames(b) && b[i].name in ChangedNames(a) {
    }
  }

  /** Changes that write the name of the store into it. */
  function Written(cs: seq<Changes>): (r: seq<Changes>)
    ensures |r| == |cs| && forall i :: 0 <= i < |cs| ==> r[i] == Changes(cs[i].name, [SetOp([], cs[i].name)])
  {
    seq(|cs|, i requires 0 <= i < |cs| => Changes(cs[i].name, [SetOp([], cs[i].name)]))
  }

  lemma {:induction false} WrittenPairs(cs: seq<Changes>, n: Name)
    requires forall i :: 0 <= i < |cs| ==> cs[i].pairs == [SetOp([], cs[i].name)]
    ensures forall i :: 0 <= i < |PairsOf(cs, n)| ==> PairsOf(cs, n)[i] == SetOp([], n)
    ensures PairsOf(cs, n) == [] <==> n !in ChangedNames(cs)
    decreases |cs|
  {
    if cs != [] {
      var k := |cs| - 1;
      WrittenPairs(cs[..k], n);
      assert ChangedNames(cs) == ChangedNames(cs[..k]) + {cs[k].name} by {
        assert forall i :: 0 <= i < k ==> cs[..k][i] == cs[i];
      }
    }
  }

  lemma {:induction false} WrittenRoot(s: State, ops: seq<Op>, n: Name)
    requires s.root.None? && forall i :: 0 <= i < |ops| ==> ops[i] == SetOp([], n)
    ensures EditedAll(s, ops).root == if ops == [] then None else Some(Leaf([], n, U32(s.version + 1)))
    decreases |ops|
  {
    if ops != [] { WrittenRoot(s, ops[..|ops| - 1], n); }
  }

  /** An empty store, or one that holds its own name if it is among those written. */
  ghost predicate Signed(s: State, n: Name, written: set<Name>) {
    if n in written then s.root.Some? && s.root.value.Leaf? && s.root.value.value == n else s.root.None?
  }

  lemma SignedAfter(s: State, cs: seq<Changes>, n: Name)
    requires s.root.None? && forall i :: 0 <= i < |cs| ==> cs[i].pairs == [SetOp([], cs[i].name)]
    ensures Signed(EditedAll(s, PairsOf(cs, n)), n, ChangedNames(cs))
  {
    hide PairsOf, EditedAll;
    WrittenPairs(cs, n);
    WrittenRoot(s, PairsOf(cs, n), n);
  }

  /** What writing the names does to empty stores. */
  lemma WrittenApplies(trees: map<Name, State>, cs: seq<Changes>)
    requires Healthy(trees) && forall n :: n in trees ==> trees[n].root.None?
    requires forall i :: 0 <= i < |cs| ==> cs[i].pairs == [SetOp([], cs[i].name)]
    ensures ApplyChanges(trees, cs).Some? <==> ChangedNames(cs) <= trees.Keys
    ensures ApplyChanges(trees, cs).Some? ==> var r := ApplyChanges(trees, cs).value;
      r.Keys == trees.Keys && forall n :: n in r ==> Signed(r[n], n, ChangedNames(cs))
  {
    hide ApplyChanges, Healthy, NamesKnown, PairsOf, EditedAll, Signed, ChangedNames;
    ChangesByStore(trees, cs);
    KnownNames(trees, cs);
    if NamesKnown(trees, cs) {
      forall n | n in trees ensures Signed(ApplyChanges(trees, cs).value[n], n, ChangedNames(cs)) {
        SignedAfter(trees[n], cs, n);
      }
    }
  }

  lemma KnownNames(trees: map<Name, State>, cs: seq<Changes>)
    ensures NamesKnown(trees, cs) <==> ChangedNames(cs) <= trees.Keys
  {
    if ChangedNames(cs) <= trees.Keys { AllKnown(trees, cs); }
  }

  lemma EmptyMulti(initial: nat, version: nat, names: set<Name>) returns (m: Multi)
    requires 1 <= NextVersion(version, initial) < TWO_32
    ensures m.initial == initial && m.version == version && m.trees.Keys == names
    ensures m.trees == map n | n in names :: NewTree(NextVersion(version, initial))
    ensures Level(m.trees, NextVersion(version, initial))
  {
    var next := NextVersion(version, initial);
    m := Multi(initial, version, map n | n in names :: NewTree(next));
    BlankIsSound(next);
  }

  lemma AllBlank(trees: map<Name, State>, blank: State, labels: map<Name, Origin>)
    requires forall n :: n in trees ==> trees[n] == blank
    ensures var r := MapOf(Pick(trees, blank), labels); forall n :: n in r ==> r[n] == blank
  {
  }

  /** If a store with changes does not keep its name, empty stores show it. */
  lemma WrittenFail(initial: nat, version: nat, names: set<Name>, before: seq<Upgrade>, us: seq<Upgrade>,
                    cs: seq<Changes>, n: Name)
    returns (m: Multi, first: map<Name, State>, mid: map<Name, State>, last: map<Name, State>)
    requires 1 <= NextVersion(version, initial) < TWO_32 && UpgradeAll(Own(names), before, New).Some?
    requires var origins := UpgradeAll(Own(names), before, New).value;
      var moved := UpgradeAll(Own(origins.Keys), us, New);
      && ChangedNames(cs) <= origins.Keys && moved.Some?
      && UpgradeAll(Own(names), before + us, New) == UpgradeAll(origins, us, New)
      && n in ChangedNames(cs) && !(n in moved.value && moved.value[n] == Old(n))
    ensures m.initial == initial && m.version == version && m.trees.Keys == names
      && Level(m.trees, NextVersion(version, initial))
    ensures Steps(m, before, Written(cs), us, first, mid, last)
    ensures Healthy(last) && SaveAll(Multi(initial, version, last)).Some?
    ensures Replay(m, WalEntry(before + us, Written(cs))) != SaveAll(Multi(initial, version, last))
  {
    hide UpgradeAll, Sound, ApplyChanges, NextVersion, Pick, PairsOf, SaveAll;
    var next := NextVersion(version, initial);
    var blank, log := NewTree(next), Written(cs);
    assert blank.root == None;
    m := EmptyMulti(initial, version, names);
    hide Healthy, NewTree;
    var f := Pick(m.trees, blank);
    var origins := UpgradeAll(Own(names), before, New).value;
    var moved := UpgradeAll(Own(origins.Keys), us, New).value;
    NamesOf(cs, log);
    UpgradeByLabels(m.trees, before, blank);
    first := MapOf(f, origins);
    LevelAfter(m.trees, before, next);
    MapKeys(f, origins);
    AllBlank(m.trees, blank, origins);
    WrittenApplies(first, log);
    mid := ApplyChanges(first, log).value;
    ChangesKeepVersions(first, log, next - 1);
    UpgradeByLabels(mid, us, blank);
    last := MapOf(Pick(mid, blank), moved);
    LevelAfter(mid, us, next);
    LevelSaves(initial, version, last, next);
    UpgradeByLabels(m.trees, before + us, blank);
    UpgradeByLabels(origins, us, New);
    var again := MapOf(Pick(origins, New), moved);
    var upgraded := MapOf(f, again);
    MapKeys(f, again);
    MapKeys(Pick(origins, New), moved);
    LevelAfter(m.trees, before + us, next);
    AllBlank(m.trees, blank, again);
    WrittenApplies(upgraded, log);
    if Replay(m, WalEntry(before + us, log)) == SaveAll(Multi(initial, version, last)) {
      SavedRoots(Multi(initial, version, ApplyChanges(upgraded, log).value), Multi(initial, version, last));
      PickedRoot(mid, blank, moved, n);
    }
  }

  lemma PickedRoot(mid: map<Name, State>, blank: State, moved: map<Name, Origin>, n: Name)
    requires n in moved && moved[n] != Old(n) && blank.root.None?
    requires forall k :: k in mid && mid[k].root.Some? ==> mid[k].root.value.Leaf? && mid[k].root.value.value == k
    ensures var x := MapOf(Pick(mid, blank), moved)[n].root; x.Some? ==> x.value.Leaf? && x.value.value != n
  {
  }

  /** The condition is needed: without it there are stores of the same names, and changes to
      the same of them, for which the entry does not replay to the working trees. */
  lemma StuckUpgradesFail(initial: nat, version: nat, names: set<Name>, before: seq<Upgrade>, us: seq<Upgrade>,
                          cs: seq<Changes>)
    returns (m: Multi, log: seq<Changes>, first: map<Name, State>, mid: map<Name, State>, last: map<Name, State>)
    requires 1 <= NextVersion(version, initial) < TWO_32 && UpgradeAll(Own(names), before, New).Some?
    requires var origins := UpgradeAll(Own(names), before, New).value;
      ChangedNames(cs) <= origins.Keys && UpgradeAll(Own(origins.Keys), us, New).Some?
    requires !CanMoveUp(names, before, us, ChangedNames(cs))
    ensures m.initial == initial && m.version == version && m.trees.Keys == names
      && Level(m.trees, NextVersion(version, initial))
    ensures |log| == |cs| && forall i :: 0 <= i < |cs| ==> log[i].name == cs[i].name
    ensures Steps(m, before, log, us, first, mid, last)
    ensures Healthy(last) && SaveAll(Multi(initial, version, last)).Some?
    ensures Replay(m, WalEntry(before + us, log)) != SaveAll(Multi(initial, version, last))
  {
    hide UpgradeAll, Level, Steps, SaveAll, Replay, NextVersion, Healthy, Pick;
    var origins := UpgradeAll(Own(names), before, New).value;
    UpgradeByLabels(origins, us, New);
    if UpgradeAll(Own(names), before + us, New) != UpgradeAll(origins, us, New) {
      log := Emptied(cs);
      m, first, last := MarkedFail(initial, version, names, before, us, cs);
      mid := first;
    } else {
      var moved := UpgradeAll(Own(origins.Keys), us, New).value;
      var n :| n in ChangedNames(cs) && !(n in moved && moved[n] == Old(n));
      log := Written(cs);
      m, first, mid, last := WrittenFail(initial, version, names, before, us, cs, n);
    }
  }
}
