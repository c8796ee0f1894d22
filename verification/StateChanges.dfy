/** The change sets of one store, read back from the write-ahead log: which versions are
    reported, when the reported pairs are all that were applied, and that applying them to
    an earlier tree leads to the later one. */
module StateChanges {
  import opened Bytes
  import opened Iavl
  import opened IavlContents
  import opened TreeStates
  import opened StoreLists
  import opened MultiStates
  import opened PendingLogs

  /** The pairs of the first change set of a store. */
  function FirstOf(cs: seq<Changes>, store: Name): seq<Op> {
    if cs == [] then []
    else if cs[0].name == store then cs[0].pairs
    else FirstOf(cs[1..], store)
  }

  method FindChanges(cs: seq<Changes>, store: Name) returns (pairs: seq<Op>)
    ensures pairs == FirstOf(cs, store)
  {
    for j := 0 to |cs|
      invariant FirstOf(cs[j..], store) == FirstOf(cs, store)
    {
      assert cs[j..][1..] == cs[j + 1..];
      if cs[j].name == store {
        return cs[j].pairs;
      }
    }
    return [];
  }

  /** No change set of a store adds to an earlier one of the same entry. */
  ghost predicate OneEach(cs: seq<Changes>, store: Name) {
    forall i, j :: 0 <= i < j < |cs| && cs[i].name == store && cs[j].name == store ==> cs[j].pairs == []
  }

  /** What is reported of an entry is all that was applied, if and only if the entry has no
      second change set with pairs for the store. */
  lemma {:induction false} FirstIsAll(cs: seq<Changes>, store: Name)
    ensures FirstOf(cs, store) == PairsOf(cs, store) <==> OneEach(cs, store)
    decreases |cs|
  {
    if cs == [] {
      return;
    }
    var c, rest := cs[0], cs[1..];
    assert cs == [c] + rest;
    PairsOfAppend([c], rest, store);
    PairsOfOne(c, store);
    if c.name != store {
      FirstIsAll(rest, store);
      assert OneEach(cs, store) <==> OneEach(rest, store) by { LaterOnes(cs, store); }
    } else {
      NoPairs(rest, store);
      assert OneEach(cs, store) <==> PairsOf(rest, store) == [] by { LaterOnes(cs, store); }
    }
  }

  /** An entry with two change sets for one store: the first is reported. */
  lemma SecondIsMissed(store: Name, p: seq<Op>, q: seq<Op>)
    ensures var cs := [Changes(store, p), Changes(store, q)]; FirstOf(cs, store) == p && PairsOf(cs, store) == p + q
  {
    hide PairsOf;
    var c, d := Changes(store, p), Changes(store, q);
    assert [c, d] == [c] + [d];
    PairsOfAppend([c], [d], store);
    PairsOfOne(c, store);
    PairsOfOne(d, store);
  }

  /** And both are applied. */
  lemma SecondIsApplied(store: Name, p: seq<Op>, q: seq<Op>, m: map<Name, State>)
    requires Healthy(m) && store in m
    ensures m[store].root.Some? ==> Exact(m[store].root.value)
    ensures var r := ApplyChanges(m, [Changes(store, p), Changes(store, q)]);
      r.Some? && store in r.value && r.value[store] == EditedAll(m[store], p + q)
  {
    hide Sound, ApplyChanges, EditedAll, PairsOf, Healthy, FirstOf;
    SecondIsMissed(store, p, q);
    ChangesByStore(m, [Changes(store, p), Changes(store, q)]);
  }

  lemma LaterOnes(cs: seq<Changes>, store: Name)
    requires cs != []
    ensures var rest := cs[1..];
      OneEach(cs, store) <==> if cs[0].name == store then AllEmpty(rest, store) else OneEach(rest, store)
  {
    var rest := cs[1..];
    assert forall i :: 0 <= i < |rest| ==> rest[i] == cs[i + 1];
    assert forall i :: 0 < i < |cs| ==> cs[i] == rest[i - 1];
  }

  ghost predicate AllEmpty(cs: seq<Changes>, store: Name) {
    forall i :: 0 <= i < |cs| && cs[i].name == store ==> cs[i].pairs == []
  }

  lemma {:induction false} NoPairs(cs: seq<Changes>, store: Name)
    ensures PairsOf(cs, store) == [] <==> AllEmpty(cs, store)
    decreases |cs|
  {
    if cs != [] { NoPairs(cs[..|cs| - 1], store); }
  }

  // ------------------------------------------------------------ the traversal

  /** The log up to an index. */
  function UpTo(log: Log, last: int): Log
    requires log.first - 1 <= last <= log.Last()
  {
    Log(log.first, log.entries[..last - log.first + 1])
  }

  /** The version of an entry is in the range; an end of zero is no end. */
  predicate Asked(index: nat, initial: nat, start: int, end: int) {
    var v := WalVersion(index, initial);
    start <= v && (end == 0 || v <= end)
  }

  /** Every version of the log that is asked for, in order. */
  function Reported(log: Log, initial: nat, store: Name, start: int, end: int): seq<(int, seq<Op>)>
    decreases |log.entries|
  {
    if log.entries == [] then []
    else
      Reported(Log(log.first, log.entries[..|log.entries| - 1]), initial, store, start, end)
      + (if Asked(log.Last(), initial, start, end)
         then [(WalVersion(log.Last(), initial), FirstOf(log.entries[|log.entries| - 1].changes, store))] else [])
  }

  lemma ReportedStep(log: Log, initial: nat, store: Name, start: int, end: int, i: nat)
    requires log.first <= i <= log.Last()
    ensures Reported(UpTo(log, i), initial, store, start, end)
         == Reported(UpTo(log, i - 1), initial, store, start, end)
            + (if Asked(i, initial, start, end)
               then [(WalVersion(i, initial), FirstOf(log.entries[i - log.first].changes, store))] else [])
  {
    var u := UpTo(log, i);
    assert u.entries[..|u.entries| - 1] == UpTo(log, i - 1).entries;
  }

  /** Nothing is asked for from one index to another. */
  lemma {:induction false} ReportedSkips(log: Log, initial: nat, store: Name, start: int, end: int, i: int, j: int)
    requires log.first >= 1 && log.first - 1 <= i <= j <= log.Last()
    requires forall k :: i < k <= j ==> !Asked(k, initial, start, end)
    ensures Reported(UpTo(log, j), initial, store, start, end) == Reported(UpTo(log, i), initial, store, start, end)
    decreases j - i
  {
    if i < j {
      ReportedSkips(log, initial, store, start, end, i, j - 1);
      ReportedStep(log, initial, store, start, end, j);
    }
  }

  /** The calls made when the callback fails at one of them, or none. */
  function Called<T>(s: seq<T>, failAt: nat): seq<T> {
    if failAt < |s| then s[..failAt + 1] else s
  }

  lemma {:induction false} ReportedPrefix(log: Log, initial: nat, store: Name, start: int, end: int, i: int)
    requires log.first >= 1 && log.first - 1 <= i <= log.Last()
    ensures Reported(UpTo(log, i), initial, store, start, end) <= Reported(log, initial, store, start, end)
    decreases log.Last() - i
  {
    hide Reported, Asked, FirstOf;
    if i == log.Last() {
      WholeLog(log);
    } else {
      ReportedStep(log, initial, store, start, end, i + 1);
      ReportedPrefix(log, initial, store, start, end, i + 1);
    }
  }

  /** Calls the callback for every version of the range that the log still holds, with an
      empty change set where the store did not change, until it fails. */
  method TraverseStateChanges(log: Log, initial: nat, store: Name, start: int, end: int, failAt: nat)
    returns (calls: seq<(int, seq<Op>)>, ok: bool)
    requires 1 <= log.first && log.Last() < TWO_63 && initial < TWO_32
    ensures var all := Reported(log, initial, store, start, end);
      && calls == (if end < 0 then [] else Called(all, failAt))
      && (ok <==> end >= 0 && failAt >= |all|)
  {
    hide Reported, WalIndex, WalVersion, Asked, FirstOf;
    if end < 0 {
      return [], false;
    }
    WholeLog(log);
    NothingReported(log, initial, store, start, end);
    if log.Last() == 0 {
      return [], true;
    }
    var firstAvailable, lastAvailable := WalVersion(log.first, initial), WalVersion(log.Last(), initial);
    var to := if end == 0 || end > lastAvailable then lastAvailable else end;
    var from := if start < firstAvailable then firstAvailable else start;
    RangeIsAsked(log, initial, start, end, from, to);
    if to < from {
      ReportedSkips(log, initial, store, start, end, log.first - 1, log.Last());
      return [], true;
    }
    var first, last := WalIndex(from, initial), WalIndex(to, initial);
    ReportedSkips(log, initial, store, start, end, log.first - 1, first - 1);
    calls := [];
    var i := first;
    while i <= last
      invariant first <= i <= last + 1 && |calls| <= failAt
      invariant calls == Reported(UpTo(log, i - 1), initial, store, start, end)
    {
      ReportedStep(log, initial, store, start, end, i);
      ReportedPrefix(log, initial, store, start, end, i);
      var pairs := FindChanges(log.entries[i - log.first].changes, store);
      calls := calls + [(WalVersion(i, initial), pairs)];
      if |calls| == failAt + 1 {
        return calls, false;
      }
      i := i + 1;
    }
    ReportedSkips(log, initial, store, start, end, last, log.Last());
    return calls, true;
  }

  /** The range cut to the log holds exactly the entries that are asked for. */
  lemma RangeIsAsked(log: Log, initial: nat, start: int, end: int, from: int, to: int)
    requires 1 <= log.first && log.Last() < TWO_63 && initial < TWO_32 && end >= 0
    requires var last := WalVersion(log.Last(), initial); to == if end == 0 || end > last then last else end
    requires var first := WalVersion(log.first, initial); from == if start < first then first else start
    ensures to < from ==> forall k :: log.first <= k <= log.Last() ==> !Asked(k, initial, start, end)
    ensures to >= from ==> var first, last := WalIndex(from, initial), WalIndex(to, initial);
      && log.first <= first <= last <= log.Last()
      && forall k :: log.first <= k <= log.Last() ==> (Asked(k, initial, start, end) <==> first <= k <= last)
  {
    hide WalIndex;
    if to >= from {
      var below := if initial > 1 then initial - 1 else 0;
      IndexOfVersion(from - below, initial);
      IndexOfVersion(to - below, initial);
    }
  }

  lemma WholeLog(log: Log)
    ensures UpTo(log, log.Last()) == log
  {
    assert log.entries[..|log.entries|] == log.entries;
  }

  lemma NothingReported(log: Log, initial: nat, store: Name, start: int, end: int)
    ensures Reported(UpTo(log, log.first - 1), initial, store, start, end) == []
  {
  }

  // ---------------------------------------------- following a tree by its changes

  /** Applies the change sets of some versions to a tree, saving it after each. */
  function Follow(s: State, changes: seq<(int, seq<Op>)>): (r: State)
    requires s.root.Some? ==> Exact(s.root.value)
    ensures r.root.Some? ==> Exact(r.root.value)
    decreases |changes|
  {
    if changes == [] then s
    else Saved(EditedAll(Follow(s, changes[..|changes| - 1]), changes[|changes| - 1].1))
  }

  lemma ReplayOfStore(m: Multi, e: WalEntry, store: Name)
    requires Healthy(m.trees) && Replay(m, e).Some? && store in m.trees
    requires Untouched(e.upgrades, store) && OneEach(e.changes, store)
    ensures m.trees[store].root.Some? ==> Exact(m.trees[store].root.value)
    ensures store in Replay(m, e).value.trees
    ensures Replay(m, e).value.trees[store] == Saved(EditedAll(m.trees[store], FirstOf(e.changes, store)))
  {
    hide UpgradeAll, ApplyChanges, EditedAll, Healthy, OneEach, Untouched, NextVersion;
    var next := NextVersion(m.version, m.initial);
    UpgradeAllIsHealthy(m.trees, e.upgrades, next);
    UpgradeAllLeavesAlone(m.trees, e.upgrades, NewTree(next), store);
    ChangesByStore(UpgradeAll(m.trees, e.upgrades, NewTree(next)).value, e.changes);
    FirstIsAll(e.changes, store);
  }

  /** The change sets of a store after one index, up to another. */
  function Between(es: seq<WalEntry>, initial: nat, store: Name, j: nat, k: nat): seq<(int, seq<Op>)>
    requires j <= k <= |es|
  {
    if j == k then []
    else Between(es, initial, store, j, k - 1) + [(WalVersion(k, initial), FirstOf(es[k - 1].changes, store))]
  }

  lemma {:induction false} FollowBetween(base: Multi, es: seq<WalEntry>, j: nat, k: nat, store: Name)
    requires Committed(base, es) && j <= k <= |es| && store in StateAt(base, es, j).trees
    requires forall i :: j <= i < k ==> Untouched(es[i].upgrades, store) && OneEach(es[i].changes, store)
    ensures store in StateAt(base, es, k).trees
    ensures var s := StateAt(base, es, j).trees[store];
      && (s.root.Some? ==> Exact(s.root.value))
      && StateAt(base, es, k).trees[store] == Follow(s, Between(es, base.initial, store, j, k))
    decreases k
  {
    hide Replay, Committed, StateAt, Healthy, FirstOf, Untouched, OneEach, WalVersion;
    if j == k {
      StoreIsExact(StateAt(base, es, j).trees, store);
      return;
    }
    FollowBetween(base, es, j, k - 1, store);
    StateStep(base, es, k - 1);
    ReplayOfStore(StateAt(base, es, k - 1), es[k - 1], store);
    var now, before := Between(es, base.initial, store, j, k), Between(es, base.initial, store, j, k - 1);
    assert now[..|now| - 1] == before;
  }

  /** A log that still holds the entries after index `j` reports exactly those up to `k`. */
  lemma {:induction false} ReportedBetween(es: seq<WalEntry>, initial: nat, store: Name, log: Log, last: nat, j: nat,
                                           k: nat, n: nat)
    requires Window(log, es, last) && log.first <= j + 1 && j <= n <= k <= last && j < k
    ensures Reported(UpTo(log, n), initial, store, WalVersion(j + 1, initial), WalVersion(k, initial))
         == Between(es, initial, store, j, n)
    decreases n
  {
    hide Reported, FirstOf;
    var start, end := WalVersion(j + 1, initial), WalVersion(k, initial);
    if n == j {
      NothingReported(log, initial, store, start, end);
      ReportedSkips(log, initial, store, start, end, log.first - 1, j);
      return;
    }
    ReportedBetween(es, initial, store, log, last, j, k, n - 1);
    ReportedStep(log, initial, store, start, end, n);
    assert log.entries[n - log.first] == es[n - 1];
  }

  /** The change sets reported between two versions lead from the tree of the one to that of
      the other, if no upgrade touches the store and no entry has a second change set for it. */
  lemma ReportLeadsOn(base: Multi, es: seq<WalEntry>, log: Log, last: nat, j: nat, k: nat, store: Name)
    requires Committed(base, es) && Window(log, es, last) && log.first <= j + 1 && j < k <= last
    requires store in StateAt(base, es, j).trees
    requires forall i :: j <= i < k ==> Untouched(es[i].upgrades, store) && OneEach(es[i].changes, store)
    ensures store in StateAt(base, es, k).trees
    ensures var s := StateAt(base, es, j).trees[store];
      var report := Reported(log, base.initial, store, WalVersion(j + 1, base.initial), WalVersion(k, base.initial));
      && |report| == k - j && (s.root.Some? ==> Exact(s.root.value))
      && StateAt(base, es, k).trees[store] == Follow(s, report)
  {
    hide Reported, Committed, StateAt, Follow, Between, Untouched, OneEach;
    var start, end := WalVersion(j + 1, base.initial), WalVersion(k, base.initial);
    FollowBetween(base, es, j, k, store);
    ReportedBetween(es, base.initial, store, log, last, j, k, k);
    ReportedSkips(log, base.initial, store, start, end, k, log.Last());
    WholeLog(log);
    BetweenLength(es, base.initial, store, j, k);
  }

  lemma {:induction false} BetweenLength(es: seq<WalEntry>, initial: nat, store: Name, j: nat, k: nat)
    requires j <= k <= |es|
    ensures |Between(es, initial, store, j, k)| == k - j
    decreases k
  {
    if j < k { BetweenLength(es, initial, store, j, k - 1); }
  }

  lemma StoreIsExact(trees: map<Name, State>, store: Name)
    requires Healthy(trees) && store in trees
    ensures trees[store].root.Some? ==> Exact(trees[store].root.value)
  {
    SoundIsExact(trees[store]);
  }
}
