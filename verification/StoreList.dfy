/** Lists of named stores: kept in order of their names, and upgraded by deletions,
    renamings and additions. What a store holds does not matter here. */
module StoreLists {
  import opened Bytes

  type Name = Bytes

  /** A deletion; or a renaming, if an old name is given; or else an addition. */
  datatype Upgrade = Upgrade(name: Name, renameFrom: Name, delete: bool)

  datatype Named<T> = Named(name: Name, tree: T)

  ghost predicate Distinct<T>(ts: seq<Named<T>>) {
    forall i, j :: 0 <= i < j < |ts| ==> ts[i].name != ts[j].name
  }

  /** The position of the first store with a name, or -1. */
  function IndexOf<T>(ts: seq<Named<T>>, name: Name): (r: int)
    ensures -1 <= r < |ts|
    ensures r >= 0 ==> ts[r].name == name
    ensures r < 0 ==> forall i :: 0 <= i < |ts| ==> ts[i].name != name
  {
    if ts == [] then -1
    else if ts[0].name == name then 0
    else var r := IndexOf(ts[1..], name); if r < 0 then -1 else r + 1
  }

  /** A list without double names that holds the stores of a map. */
  ghost predicate Shows<T>(ts: seq<Named<T>>, m: map<Name, T>) {
    && Distinct(ts)
    && (forall i :: 0 <= i < |ts| ==> ts[i].name in m && m[ts[i].name] == ts[i].tree)
    && (forall n :: n in m ==> IndexOf(ts, n) >= 0)
  }

  lemma ShowsSet<T>(ts: seq<Named<T>>, m: map<Name, T>, i: nat, t: T)
    requires Shows(ts, m) && i < |ts|
    ensures Shows(ts[i := Named(ts[i].name, t)], m[ts[i].name := t])
  {
    hide IndexOf;
    var us := ts[i := Named(ts[i].name, t)];
    forall n | n in m[ts[i].name := t] ensures IndexOf(us, n) >= 0 {
      assert us[IndexOf(ts, n)].name == n;
    }
  }

  lemma ShowsDelete<T>(ts: seq<Named<T>>, m: map<Name, T>, i: nat)
    requires Shows(ts, m) && i < |ts|
    ensures Shows(ts[i := ts[|ts| - 1]][..|ts| - 1], m - {ts[i].name})
  {
    hide IndexOf;
    var us := ts[i := ts[|ts| - 1]][..|ts| - 1];
    forall n | n in m - {ts[i].name} ensures IndexOf(us, n) >= 0 {
      var j := IndexOf(ts, n);
      assert us[if j == |ts| - 1 then i else j].name == n;
    }
  }

  lemma ShowsRename<T>(ts: seq<Named<T>>, m: map<Name, T>, i: nat, name: Name)
    requires Shows(ts, m) && i < |ts| && name !in m - {ts[i].name}
    ensures Shows(ts[i := Named(name, ts[i].tree)], (m - {ts[i].name})[name := m[ts[i].name]])
  {
    hide IndexOf;
    var us := ts[i := Named(name, ts[i].tree)];
    forall n | n in (m - {ts[i].name})[name := m[ts[i].name]] ensures IndexOf(us, n) >= 0 {
      assert us[if n == name then i else IndexOf(ts, n)].name == n;
    }
  }

  lemma ShowsAdd<T>(ts: seq<Named<T>>, m: map<Name, T>, name: Name, t: T)
    requires Shows(ts, m) && name !in m
    ensures Shows(ts + [Named(name, t)], m[name := t])
  {
    hide IndexOf;
    var us := ts + [Named(name, t)];
    forall n | n in m[name := t] ensures IndexOf(us, n) >= 0 {
      assert us[if n == name then |ts| else IndexOf(ts, n)].name == n;
    }
  }

  // ------------------------------------------------------------- sorting

  ghost predicate InOrder<T>(ts: seq<Named<T>>) {
    forall i, j :: 0 <= i < j < |ts| ==> !Less(ts[j].name, ts[i].name)
  }

  /** A stable sort by name. */
  function Sorted<T>(ts: seq<Named<T>>): seq<Named<T>> {
    if ts == [] then [] else Insert(Sorted(ts[..|ts| - 1]), ts[|ts| - 1])
  }

  function Insert<T>(ts: seq<Named<T>>, x: Named<T>): (r: seq<Named<T>>)
    ensures |r| == |ts| + 1
  {
    if ts == [] || !Less(x.name, ts[|ts| - 1].name) then ts + [x]
    else Insert(ts[..|ts| - 1], x) + [ts[|ts| - 1]]
  }

  lemma {:induction false} InsertOrders<T>(ts: seq<Named<T>>, x: Named<T>)
    requires InOrder(ts)
    ensures InOrder(Insert(ts, x))
    ensures forall i :: 0 <= i < |ts| + 1 ==> Insert(ts, x)[i] == x || Insert(ts, x)[i] in ts
    decreases |ts|
  {
    LessIsTotalOrder();
    hide Less;
    if ts == [] || !Less(x.name, ts[|ts| - 1].name) {
      AppendOrders(ts, x);
      return;
    }
    var init, last := ts[..|ts| - 1], ts[|ts| - 1];
    InsertOrders(init, x);
    var r := Insert(init, x);
    forall i | 0 <= i < |r| ensures !Less(last.name, r[i].name) {
      if r[i] != x {
        var j :| 0 <= j < |init| && init[j] == r[i];
        assert ts[j] == r[i];
      }
    }
    assert forall i :: 0 <= i < |init| ==> init[i] in ts;
  }

  lemma AppendOrders<T>(ts: seq<Named<T>>, x: Named<T>)
    requires InOrder(ts) && (ts != [] ==> !Less(x.name, ts[|ts| - 1].name))
    ensures InOrder(ts + [x])
  {
    LessIsTotalOrder();
    hide Less;
    forall i | 0 <= i < |ts| ensures !Less(x.name, ts[i].name) {
      assert i < |ts| - 1 ==> !Less(ts[|ts| - 1].name, ts[i].name);
    }
  }

  lemma {:induction false} InsertKeeps<T>(ts: seq<Named<T>>, x: Named<T>)
    ensures multiset(Insert(ts, x)) == multiset(ts) + multiset{x}
    decreases |ts|
  {
    hide Less;
    if ts != [] && Less(x.name, ts[|ts| - 1].name) {
      assert ts == ts[..|ts| - 1] + [ts[|ts| - 1]];
      InsertKeeps(ts[..|ts| - 1], x);
    }
  }

  /** A list in order, with the same stores. */
  lemma {:induction false} SortedSorts<T>(ts: seq<Named<T>>)
    ensures InOrder(Sorted(ts)) && multiset(Sorted(ts)) == multiset(ts)
    decreases |ts|
  {
    if ts != [] {
      hide Insert, Less;
      assert ts == ts[..|ts| - 1] + [ts[|ts| - 1]];
      SortedSorts(ts[..|ts| - 1]);
      InsertOrders(Sorted(ts[..|ts| - 1]), ts[|ts| - 1]);
      InsertKeeps(Sorted(ts[..|ts| - 1]), ts[|ts| - 1]);
    }
  }

  function Count<T>(ts: seq<Named<T>>, name: Name): (n: nat)
    ensures n > 0 <==> exists i :: 0 <= i < |ts| && ts[i].name == name
  {
    if ts == [] then 0
    else
      var k := |ts| - 1;
      assert ts == ts[..k] + [ts[k]];
      Count(ts[..k], name) + (if ts[k].name == name then 1 else 0)
  }

  lemma {:induction false} InsertCounts<T>(ts: seq<Named<T>>, x: Named<T>, name: Name)
    ensures Count(Insert(ts, x), name) == Count(ts, name) + (if x.name == name then 1 else 0)
    decreases |ts|
  {
    hide Less;
    if ts == [] || !Less(x.name, ts[|ts| - 1].name) {
      assert (ts + [x])[..|ts|] == ts;
    } else {
      var init := Insert(ts[..|ts| - 1], x);
      InsertCounts(ts[..|ts| - 1], x, name);
      assert (init + [ts[|ts| - 1]])[..|init|] == init;
    }
  }

  lemma {:induction false} SortedCounts<T>(ts: seq<Named<T>>, name: Name)
    ensures Count(Sorted(ts), name) == Count(ts, name)
    decreases |ts|
  {
    if ts != [] {
      hide Insert;
      SortedCounts(ts[..|ts| - 1], name);
      InsertCounts(Sorted(ts[..|ts| - 1]), ts[|ts| - 1], name);
    }
  }

  ghost predicate OnceEach<T>(ts: seq<Named<T>>) {
    forall n :: Count(ts, n) <= 1
  }

  lemma CountStep<T>(ts: seq<Named<T>>, name: Name)
    requires ts != []
    ensures Count(ts, name) == Count(ts[..|ts| - 1], name) + (if ts[|ts| - 1].name == name then 1 else 0)
  {
  }

  lemma {:induction false} DistinctCounts<T>(ts: seq<Named<T>>)
    ensures Distinct(ts) <==> OnceEach(ts)
    decreases |ts|
  {
    hide Count;
    if ts == [] {
      NoneCounted(ts);
      return;
    }
    var init, x := ts[..|ts| - 1], ts[|ts| - 1];
    DistinctCounts(init);
    forall n ensures Count(ts, n) == Count(init, n) + (if x.name == n then 1 else 0) { CountStep(ts, n); }
    assert Distinct(ts) <==> Distinct(init) && Count(init, x.name) == 0;
    assert OnceEach(ts) ==> Count(ts, x.name) <= 1;
  }

  lemma NoneCounted<T>(ts: seq<Named<T>>)
    requires ts == []
    ensures forall n :: Count(ts, n) == 0
  {
  }

  lemma SortedDistinct<T>(ts: seq<Named<T>>)
    ensures Distinct(Sorted(ts)) <==> Distinct(ts)
  {
    hide Sorted, Count, Distinct;
    DistinctCounts(ts);
    DistinctCounts(Sorted(ts));
    forall n ensures Count(Sorted(ts), n) == Count(ts, n) { SortedCounts(ts, n); }
    assert OnceEach(Sorted(ts)) <==> OnceEach(ts);
  }

  lemma {:induction false} InsertShows<T>(ts: seq<Named<T>>, x: Named<T>, m: map<Name, T>)
    requires Shows(ts, m) && x.name !in m
    ensures Shows(Insert(ts, x), m[x.name := x.tree])
    decreases |ts|
  {
    hide Shows, Less;
    if ts == [] || !Less(x.name, ts[|ts| - 1].name) {
      ShowsAdd(ts, m, x.name, x.tree);
      return;
    }
    var k := |ts| - 1;
    var last := ts[k];
    ShowsLast(ts, m);
    InsertShows(ts[..k], x, m - {last.name});
    ShowsAdd(Insert(ts[..k], x), (m - {last.name})[x.name := x.tree], last.name, last.tree);
    assert (m - {last.name})[x.name := x.tree][last.name := last.tree] == m[x.name := x.tree];
  }

  lemma ShowsLast<T>(ts: seq<Named<T>>, m: map<Name, T>)
    requires Shows(ts, m) && ts != []
    ensures var last := ts[|ts| - 1];
      && last.name in m && m[last.name] == last.tree
      && Shows(ts[..|ts| - 1], m - {last.name})
  {
    var k := |ts| - 1;
    ShowsDelete(ts, m, k);
    assert ts[k := ts[k]][..k] == ts[..k];
  }

  /** Sorting keeps the stores. */
  lemma {:induction false} SortedShows<T>(ts: seq<Named<T>>, m: map<Name, T>)
    requires Shows(ts, m)
    ensures Shows(Sorted(ts), m)
    decreases |ts|
  {
    hide Shows, Insert, IndexOf, Sorted;
    SortedStep(ts);
    if ts == [] {
      return;
    }
    var k := |ts| - 1;
    var init, x, rest := ts[..k], ts[k], m - {ts[k].name};
    ShowsLast(ts, m);
    SortedShows(init, rest);
    InsertShows(Sorted(init), x, rest);
    assert rest[x.name := x.tree] == m;
  }

  lemma SortedStep<T>(ts: seq<Named<T>>)
    ensures Sorted(ts) == if ts == [] then [] else Insert(Sorted(ts[..|ts| - 1]), ts[|ts| - 1])
  {
  }

  /** The map of a list without double names. */
  ghost function ToMap<T>(ts: seq<Named<T>>): map<Name, T> {
    if ts == [] then map[] else ToMap(ts[..|ts| - 1])[ts[|ts| - 1].name := ts[|ts| - 1].tree]
  }

  lemma {:induction false} DistinctShows<T>(ts: seq<Named<T>>)
    requires Distinct(ts)
    ensures Shows(ts, ToMap(ts))
    decreases |ts|
  {
    if ts != [] {
      var init, last := ts[..|ts| - 1], ts[|ts| - 1];
      DistinctShows(init);
      assert IndexOf(init, last.name) < 0;
      ShowsAdd(init, ToMap(init), last.name, last.tree);
      assert init + [Named(last.name, last.tree)] == ts;
    }
  }

  // ------------------------------------------------------------ upgrades

  /** One upgrade on the list; a deleted store is replaced by the last one. */
  function UpgradeList<T>(ts: seq<Named<T>>, u: Upgrade, blank: T): Option<seq<Named<T>>> {
    if u.delete then
      var i := IndexOf(ts, u.name);
      if i < 0 then None else Some(ts[i := ts[|ts| - 1]][..|ts| - 1])
    else if u.renameFrom != [] then
      var i := IndexOf(ts, u.renameFrom);
      if i < 0 then None else Some(ts[i := Named(u.name, ts[i].tree)])
    else Some(ts + [Named(u.name, blank)])
  }

  function UpgradeLists<T>(ts: seq<Named<T>>, us: seq<Upgrade>, blank: T): Option<seq<Named<T>>>
    decreases |us|
  {
    if us == [] then Some(ts)
    else
      var r := UpgradeList(ts, us[0], blank);
      if r.None? then None else UpgradeLists(r.value, us[1..], blank)
  }

  /** The same on the map of stores, where a name must be there or must be free. */
  function UpgradeOne<T>(m: map<Name, T>, u: Upgrade, blank: T): Option<map<Name, T>> {
    if u.delete then
      if u.name in m then Some(m - {u.name}) else None
    else if u.renameFrom != [] then
      if u.renameFrom !in m || u.name in m - {u.renameFrom} then None
      else Some((m - {u.renameFrom})[u.name := m[u.renameFrom]])
    else
      if u.name in m then None else Some(m[u.name := blank])
  }

  function UpgradeEach<T>(m: map<Name, T>, us: seq<Upgrade>, blank: T): Option<map<Name, T>>
    decreases |us|
  {
    if us == [] then Some(m)
    else
      var r := UpgradeOne(m, us[0], blank);
      if r.None? then None else UpgradeEach(r.value, us[1..], blank)
  }

  lemma UpgradeShows<T>(ts: seq<Named<T>>, m: map<Name, T>, u: Upgrade, blank: T)
    requires Shows(ts, m) && UpgradeOne(m, u, blank).Some?
    ensures var r, list := UpgradeOne(m, u, blank).value, UpgradeList(ts, u, blank);
      list.Some? && Shows(list.value, r)
  {
    hide IndexOf;
    if u.delete {
      ShowsDelete(ts, m, IndexOf(ts, u.name));
    } else if u.renameFrom != [] {
      ShowsRename(ts, m, IndexOf(ts, u.renameFrom), u.name);
    } else {
      ShowsAdd(ts, m, u.name, blank);
    }
  }

  lemma {:induction false} UpgradesShow<T>(ts: seq<Named<T>>, m: map<Name, T>, us: seq<Upgrade>, blank: T)
    requires Shows(ts, m) && UpgradeEach(m, us, blank).Some?
    ensures var r, list := UpgradeEach(m, us, blank).value, UpgradeLists(ts, us, blank);
      list.Some? && Shows(list.value, r)
    decreases |us|
  {
    hide UpgradeOne, UpgradeList, Shows;
    if us != [] {
      UpgradeShows(ts, m, us[0], blank);
      UpgradesShow(UpgradeList(ts, us[0], blank).value, UpgradeOne(m, us[0], blank).value, us[1..], blank);
    }
  }

  /** Two lists of upgrades applied in one go need not do what they do one after the other,
      if a name is taken twice on the way: the stores are sorted only after each list. */
  lemma MergedUpgradesDiffer<T>(s: T, blank: T)
    ensures var a, m := [97], [109]; var ts := [Named(m, s)];
      var one, two := [Upgrade(a, [], false)], [Upgrade(a, m, false), Upgrade(a, [], true)];
      var first := UpgradeLists(ts, one, blank);
      && first.Some? && UpgradeLists(Sorted(first.value), two, blank) == Some([Named(a, s)])
      && UpgradeLists(ts, one + two, blank) == Some([Named(a, blank)])
  {
    var a: Name, m: Name := [97], [109];
    var add, rename, delete := Upgrade(a, [], false), Upgrade(a, m, false), Upgrade(a, [], true);
    var x, y := Named(m, s), Named(a, blank);
    assert Less(a, m);
    hide Less, Sorted, IndexOf;
    SortTwo(x, y);
    RenamedAndDeleted(x, y, a, m, blank);
    RenamedAndDeleted(y, x, a, m, blank);
    assert UpgradeList([x], add, blank).value == [x, y];
    hide UpgradeList;
    assert [add] + [rename, delete] == [add, rename, delete];
    assert [add, rename, delete][1..] == [rename, delete] && [add][1..] == [];
  }

  /** The second of two stores is left. */
  lemma RenamedAndDeleted<T>(x: Named<T>, y: Named<T>, a: Name, m: Name, blank: T)
    requires a != m && m != [] && ((x.name == a && y.name == m) || (x.name == m && y.name == a))
    ensures UpgradeLists([x, y], [Upgrade(a, m, false), Upgrade(a, [], true)], blank) == Some([Named(a, y.tree)])
  {
    hide IndexOf;
    var rename, delete := Upgrade(a, m, false), Upgrade(a, [], true);
    FirstOfTwo(x, y, m);
    var p, q := Named(a, x.tree), Named(a, y.tree);
    assert UpgradeList([x, y], rename, blank).value == [p, q];
    FirstOfTwo(p, q, a);
    assert UpgradeList([p, q], delete, blank).value == [q];
    TwoUpgrades([x, y], rename, delete, blank);
  }

  lemma SortTwo<T>(x: Named<T>, y: Named<T>)
    requires Less(y.name, x.name)
    ensures Sorted([x, y]) == [y, x]
  {
    hide Less;
    assert [x, y][..1] == [x] && [x][..0] == [];
    assert Sorted([x]) == Insert([], x) == [x];
    assert Insert([x], y) == Insert([], y) + [x];
  }

  lemma FirstOfTwo<T>(x: Named<T>, y: Named<T>, name: Name)
    ensures IndexOf([x, y], name) == if x.name == name then 0 else if y.name == name then 1 else -1
  {
    assert [x, y][1..] == [y];
  }

  lemma TwoUpgrades<T>(ts: seq<Named<T>>, u: Upgrade, v: Upgrade, blank: T)
    ensures UpgradeLists(ts, [u, v], blank)
         == var r := UpgradeList(ts, u, blank); if r.None? then None else UpgradeList(r.value, v, blank)
  {
    hide UpgradeList;
    assert [u, v][1..] == [v] && [v][1..] == [];
    var r := UpgradeList(ts, u, blank);
    if r.Some? {
      var q := UpgradeList(r.value, v, blank);
      assert UpgradeLists(r.value, [v], blank) == if q.None? then None else UpgradeLists(q.value, [], blank);
    }
  }

  // -------------------------------------------------- the stores of a map in order

  /** A list in order, without double names, is given by its map. */
  lemma {:induction false} OneList<T>(ts: seq<Named<T>>, us: seq<Named<T>>, m: map<Name, T>)
    requires Shows(ts, m) && Shows(us, m) && InOrder(ts) && InOrder(us)
    ensures ts == us
    decreases |ts|
  {
    hide Less, IndexOf, Shows, InOrder;
    if ts == [] || us == [] {
      NoStores(ts, us, m);
      return;
    }
    LastIsLast(ts, us, m);
    FrontInOrder(ts);
    FrontInOrder(us);
    var x := ts[|ts| - 1];
    ShowsLast(ts, m);
    ShowsLast(us, m);
    OneList(ts[..|ts| - 1], us[..|us| - 1], m - {x.name});
    assert ts == ts[..|ts| - 1] + [x] && us == us[..|us| - 1] + [us[|us| - 1]];
  }

  lemma FrontInOrder<T>(ts: seq<Named<T>>)
    requires InOrder(ts) && ts != []
    ensures InOrder(ts[..|ts| - 1])
  {
    hide Less;
  }

  lemma NoStores<T>(ts: seq<Named<T>>, us: seq<Named<T>>, m: map<Name, T>)
    requires Shows(ts, m) && Shows(us, m) && (ts == [] || us == [])
    ensures ts == us == []
  {
    assert ts == [] || IndexOf(us, ts[0].name) >= 0;
    assert us == [] || IndexOf(ts, us[0].name) >= 0;
  }

  lemma LastIsLast<T>(ts: seq<Named<T>>, us: seq<Named<T>>, m: map<Name, T>)
    requires Shows(ts, m) && Shows(us, m) && InOrder(ts) && InOrder(us) && ts != [] && us != []
    ensures ts[|ts| - 1] == us[|us| - 1]
  {
    LessIsTotalOrder();
    hide Less;
    var x, y := ts[|ts| - 1], us[|us| - 1];
    var i, j := IndexOf(us, x.name), IndexOf(ts, y.name);
    assert us[i].name == x.name && ts[j].name == y.name;
    hide IndexOf;
    NoneAfterLast(us, i);
    NoneAfterLast(ts, j);
  }

  lemma NoneAfterLast<T>(ts: seq<Named<T>>, i: nat)
    requires InOrder(ts) && i < |ts|
    ensures !Less(ts[|ts| - 1].name, ts[i].name)
  {
    LessIsTotalOrder();
  }

  /** The stores of a map, in order. */
  ghost function Listed<T>(m: map<Name, T>): (ts: seq<Named<T>>)
    ensures Shows(ts, m) && InOrder(ts)
    decreases |m|
  {
    if m == map[] then []
    else
      var n :| n in m;
      OneLess(m, n);
      ListedStep(m, n, Listed(m - {n}));
      Insert(Listed(m - {n}), Named(n, m[n]))
  }

  lemma OneLess<T>(m: map<Name, T>, n: Name)
    requires n in m
    ensures |m - {n}| < |m|
  {
    assert n in m.Keys && (m - {n}).Keys == m.Keys - {n};
  }

  lemma ListedStep<T>(m: map<Name, T>, n: Name, rest: seq<Named<T>>)
    requires n in m && Shows(rest, m - {n}) && InOrder(rest)
    ensures Shows(Insert(rest, Named(n, m[n])), m) && InOrder(Insert(rest, Named(n, m[n])))
  {
    hide Shows, InOrder, Insert;
    InsertOrders(rest, Named(n, m[n]));
    InsertShows(rest, Named(n, m[n]), m - {n});
    assert (m - {n})[n := m[n]] == m;
  }

  lemma OneMap<T>(ts: seq<Named<T>>, m: map<Name, T>, k: map<Name, T>)
    requires Shows(ts, m) && Shows(ts, k)
    ensures m == k
  {
    forall n | n in m ensures n in k && k[n] == m[n] { assert ts[IndexOf(ts, n)].name == n; }
    forall n | n in k ensures n in m { assert ts[IndexOf(ts, n)].name == n; }
  }

  /** A list of upgrades on the stores of a map. It fails for an unknown name, and if a name
      is there twice in the end; what is there twice on the way does not matter. */
  ghost function UpgradeAll<T>(m: map<Name, T>, us: seq<Upgrade>, blank: T): Option<map<Name, T>> {
    var list := UpgradeLists(Listed(m), us, blank);
    if list.None? || !Distinct(list.value) then None else Some(ToMap(list.value))
  }

  /** It is what the upgrades do to the map one by one, if no name is ever taken twice. */
  lemma UpgradeAllIsEach<T>(m: map<Name, T>, us: seq<Upgrade>, blank: T)
    ensures UpgradeEach(m, us, blank).Some? ==> UpgradeAll(m, us, blank) == UpgradeEach(m, us, blank)
  {
    hide UpgradeEach, UpgradeLists, Shows;
    if UpgradeEach(m, us, blank).Some? {
      var list := UpgradeLists(Listed(m), us, blank);
      UpgradesShow(Listed(m), m, us, blank);
      ShowsDistinct(list.value, UpgradeEach(m, us, blank).value);
      DistinctShows(list.value);
      OneMap(list.value, ToMap(list.value), UpgradeEach(m, us, blank).value);
    }
  }

  lemma ShowsDistinct<T>(ts: seq<Named<T>>, m: map<Name, T>)
    requires Shows(ts, m)
    ensures Distinct(ts)
  {
  }

  lemma NoUpgrades<T>(m: map<Name, T>, blank: T)
    ensures UpgradeAll(m, [], blank) == Some(m)
  {
    hide Shows;
    ShowsDistinct(Listed(m), m);
    DistinctShows(Listed(m));
    OneMap(Listed(m), ToMap(Listed(m)), m);
  }

  ghost function Held<T>(ts: seq<Named<T>>): set<T> {
    set i | 0 <= i < |ts| :: ts[i].tree
  }

  lemma UpgradeHolds<T>(ts: seq<Named<T>>, u: Upgrade, blank: T)
    ensures UpgradeList(ts, u, blank).Some? ==> Held(UpgradeList(ts, u, blank).value) <= Held(ts) + {blank}
  {
    hide IndexOf;
    var list := UpgradeList(ts, u, blank);
    if list.Some? {
      forall i | 0 <= i < |list.value| ensures list.value[i].tree in Held(ts) + {blank} {
        assert i < |ts| ==> list.value[i].tree == ts[i].tree || list.value[i].tree == ts[|ts| - 1].tree;
      }
    }
  }

  lemma {:induction false} UpgradesHold<T>(ts: seq<Named<T>>, us: seq<Upgrade>, blank: T)
    ensures UpgradeLists(ts, us, blank).Some? ==> Held(UpgradeLists(ts, us, blank).value) <= Held(ts) + {blank}
    decreases |us|
  {
    hide UpgradeList, Held;
    if us != [] {
      UpgradeHolds(ts, us[0], blank);
      var list := UpgradeList(ts, us[0], blank);
      if list.Some? { UpgradesHold(list.value, us[1..], blank); }
    }
  }

  /** Every store that is left was there before, or is a new one. */
  lemma UpgradeAllHolds<T>(m: map<Name, T>, us: seq<Upgrade>, blank: T)
    ensures var r := UpgradeAll(m, us, blank);
      r.Some? ==> forall n :: n in r.value ==> r.value[n] == blank || r.value[n] in m.Values
  {
    hide UpgradeLists, IndexOf, InOrder, ToMap;
    var r, list := UpgradeAll(m, us, blank), UpgradeLists(Listed(m), us, blank);
    if r.Some? {
      UpgradesHold(Listed(m), us, blank);
      DistinctShows(list.value);
      forall n | n in r.value ensures r.value[n] == blank || r.value[n] in m.Values {
        assert list.value[IndexOf(list.value, n)].tree == r.value[n];
        assert r.value[n] in Held(list.value);
      }
    }
  }

  /** The upgrades leave a store alone. */
  ghost predicate Untouched(us: seq<Upgrade>, store: Name) {
    forall i :: 0 <= i < |us| ==> us[i].name != store && us[i].renameFrom != store
  }

  lemma UpgradeLeavesAlone<T>(ts: seq<Named<T>>, u: Upgrade, blank: T, x: Named<T>)
    requires x in ts && u.name != x.name && u.renameFrom != x.name && UpgradeList(ts, u, blank).Some?
    ensures x in UpgradeList(ts, u, blank).value
  {
    var k :| 0 <= k < |ts| && ts[k] == x;
    hide IndexOf;
    var list := UpgradeList(ts, u, blank).value;
    if u.delete && k == |ts| - 1 {
      assert list[IndexOf(ts, u.name)] == x;
    } else {
      assert list[k] == x;
    }
  }

  lemma {:induction false} UpgradesLeaveAlone<T>(ts: seq<Named<T>>, us: seq<Upgrade>, blank: T, x: Named<T>)
    requires x in ts && Untouched(us, x.name) && UpgradeLists(ts, us, blank).Some?
    ensures x in UpgradeLists(ts, us, blank).value
    decreases |us|
  {
    hide UpgradeList;
    if us != [] {
      UpgradeLeavesAlone(ts, us[0], blank, x);
      UpgradesLeaveAlone(UpgradeList(ts, us[0], blank).value, us[1..], blank, x);
    }
  }

  lemma UpgradeAllLeavesAlone<T>(m: map<Name, T>, us: seq<Upgrade>, blank: T, store: Name)
    requires store in m && Untouched(us, store) && UpgradeAll(m, us, blank).Some?
    ensures var r := UpgradeAll(m, us, blank).value; store in r && r[store] == m[store]
  {
    hide UpgradeLists, InOrder, ToMap, Untouched;
    var x, list := Named(store, m[store]), UpgradeLists(Listed(m), us, blank).value;
    assert Listed(m)[IndexOf(Listed(m), store)] == x;
    hide IndexOf;
    UpgradesLeaveAlone(Listed(m), us, blank, x);
    DistinctShows(list);
  }

  // ----------------------------------------------------------- additions

  function Additions(names: seq<Name>): (us: seq<Upgrade>)
    ensures |us| == |names| && forall i :: 0 <= i < |names| ==> us[i] == Upgrade(names[i], [], false)
  {
    seq(|names|, i requires 0 <= i < |names| => Upgrade(names[i], [], false))
  }

  function Blanks<T>(names: seq<Name>, blank: T): (ts: seq<Named<T>>)
    ensures |ts| == |names| && forall i :: 0 <= i < |names| ==> ts[i] == Named(names[i], blank)
  {
    seq(|names|, i requires 0 <= i < |names| => Named(names[i], blank))
  }

  ghost function WithBlanks<T>(m: map<Name, T>, names: seq<Name>, blank: T): map<Name, T> {
    m + map n | n in names :: blank
  }

  /** All names are new and different. */
  ghost predicate AllNew(names: seq<Name>, known: set<Name>) {
    && (forall i, j :: 0 <= i < j < |names| ==> names[i] != names[j])
    && (forall i :: 0 <= i < |names| ==> names[i] !in known)
  }

  lemma {:induction false} AdditionsAppend<T>(ts: seq<Named<T>>, names: seq<Name>, blank: T)
    ensures UpgradeLists(ts, Additions(names), blank) == Some(ts + Blanks(names, blank))
    decreases |names|
  {
    if names == [] {
      assert ts + Blanks(names, blank) == ts;
    } else {
      hide Additions, Blanks;
      assert Additions(names)[1..] == Additions(names[1..]);
      AdditionsAppend(ts + [Named(names[0], blank)], names[1..], blank);
      assert ts + Blanks(names, blank) == (ts + [Named(names[0], blank)]) + Blanks(names[1..], blank);
    }
  }

  lemma BlanksDistinct<T>(m: map<Name, T>, ts: seq<Named<T>>, names: seq<Name>, blank: T)
    requires Shows(ts, m)
    ensures Distinct(ts + Blanks(names, blank)) <==> AllNew(names, m.Keys)
  {
    hide IndexOf, Blanks;
    var all, k := ts + Blanks(names, blank), |ts|;
    assert forall i :: 0 <= i < |names| ==> all[k + i].name == names[i];
    forall i | 0 <= i < |names| && names[i] in m ensures !Distinct(all) {
      assert all[IndexOf(ts, names[i])].name == all[k + i].name;
    }
    forall i, j | 0 <= i < j < |names| && names[i] == names[j] ensures !Distinct(all) {
      assert all[k + i].name == all[k + j].name;
    }
  }

  lemma BlanksShow<T>(m: map<Name, T>, ts: seq<Named<T>>, names: seq<Name>, blank: T)
    requires Shows(ts, m) && AllNew(names, m.Keys)
    ensures Shows(ts + Blanks(names, blank), WithBlanks(m, names, blank))
  {
    hide IndexOf, Blanks;
    var all, r := ts + Blanks(names, blank), WithBlanks(m, names, blank);
    BlanksDistinct(m, ts, names, blank);
    forall n | n in r ensures IndexOf(all, n) >= 0 {
      if n in names {
        var i :| 0 <= i < |names| && names[i] == n;
        assert all[|ts| + i].name == n;
      } else {
        assert all[IndexOf(ts, n)].name == n;
      }
    }
    forall i | 0 <= i < |all| ensures all[i].name in r && r[all[i].name] == all[i].tree {
      if i >= |ts| { assert all[i] == Named(names[i - |ts|], blank); } else { assert all[i] == ts[i]; }
    }
  }

  /** Stores are added if and only if their names are new and different. */
  lemma AdditionsAdd<T>(m: map<Name, T>, names: seq<Name>, blank: T)
    ensures UpgradeAll(m, Additions(names), blank)
         == if AllNew(names, m.Keys) then Some(WithBlanks(m, names, blank)) else None
  {
    hide Shows, UpgradeLists, ToMap, Additions, Blanks, AllNew, WithBlanks, InOrder;
    var ts := Listed(m);
    AdditionsAppend(ts, names, blank);
    BlanksDistinct(m, ts, names, blank);
    if AllNew(names, m.Keys) {
      var all := ts + Blanks(names, blank);
      BlanksShow(m, ts, names, blank);
      DistinctShows(all);
      OneMap(all, ToMap(all), WithBlanks(m, names, blank));
    }
  }
}
