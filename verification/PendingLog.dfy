/** The changes of the next commit: they are applied to the working trees and merged, store
    by store, into the log entry that is to be written. */
module PendingLogs {
  import opened Bytes
  import opened Iavl
  import opened IavlContents
  import opened TreeStates
  import opened StoreLists
  import opened MultiStates

  /** All pairs for one store, in order. */
  function PairsOf(cs: seq<Changes>, name: Name): seq<Op> {
    if cs == [] then []
    else PairsOf(cs[..|cs| - 1], name) + (if cs[|cs| - 1].name == name then cs[|cs| - 1].pairs else [])
  }

  /** Two lists say the same for every store. */
  ghost predicate SamePairs(a: seq<Changes>, b: seq<Changes>) {
    forall n :: PairsOf(a, n) == PairsOf(b, n)
  }

  ghost predicate NamesKnown(trees: map<Name, State>, cs: seq<Changes>) {
    forall i :: 0 <= i < |cs| ==> cs[i].name in trees
  }

  lemma {:induction false} EditedAllAppend(s: State, a: seq<Op>, b: seq<Op>)
    requires s.root.Some? ==> Exact(s.root.value)
    ensures EditedAll(s, a + b) == EditedAll(EditedAll(s, a), b)
    decreases |b|
  {
    hide Edited;
    if b == [] {
      assert a + b == a;
    } else {
      var k := |b| - 1;
      assert (a + b)[..|a| + k] == a + b[..k] && (a + b)[|a| + k] == b[k];
      EditedAllAppend(s, a, b[..k]);
    }
  }

  lemma {:induction false} PairsOfAppend(a: seq<Changes>, b: seq<Changes>, name: Name)
    ensures PairsOf(a + b, name) == PairsOf(a, name) + PairsOf(b, name)
    decreases |b|
  {
    if b == [] {
      assert a + b == a;
    } else {
      var k := |b| - 1;
      assert (a + b)[..|a| + k] == a + b[..k] && (a + b)[|a| + k] == b[k];
      PairsOfAppend(a, b[..k], name);
    }
  }

  lemma PairsOfOne(c: Changes, name: Name)
    ensures PairsOf([c], name) == if c.name == name then c.pairs else []
  {
    assert [c][..0] == [];
  }

  /** What a list of changes makes of each store depends only on its own pairs. */
  lemma {:induction false} ChangesByStore(trees: map<Name, State>, cs: seq<Changes>)
    requires Healthy(trees)
    ensures ApplyChanges(trees, cs).Some? <==> NamesKnown(trees, cs)
    ensures NamesKnown(trees, cs) ==> var r := ApplyChanges(trees, cs).value;
      r.Keys == trees.Keys && forall n :: n in trees ==>
        (trees[n].root.Some? ==> Exact(trees[n].root.value)) && r[n] == EditedAll(trees[n], PairsOf(cs, n))
    decreases |cs|
  {
    if cs == [] {
      forall n | n in trees ensures trees[n].root.Some? ==> Exact(trees[n].root.value) { SoundIsExact(trees[n]); }
    } else if cs[0].name in trees {
      var c, rest := cs[0], cs[1..];
      var mid := ApplyChange(trees, c).value;
      ChangesByStore(mid, rest);
      assert cs == [c] + rest;
      assert NamesKnown(mid, rest) <==> NamesKnown(trees, cs);
      if NamesKnown(trees, cs) {
        StoreStep(trees, c, mid, rest, cs);
      }
    }
  }

  lemma StoreStep(trees: map<Name, State>, c: Changes, mid: map<Name, State>, rest: seq<Changes>, cs: seq<Changes>)
    requires Healthy(trees) && c.name in trees && mid == ApplyChange(trees, c).value && cs == [c] + rest
    ensures forall n :: n in trees ==>
      && (trees[n].root.Some? ==> Exact(trees[n].root.value)) && (mid[n].root.Some? ==> Exact(mid[n].root.value))
      && EditedAll(mid[n], PairsOf(rest, n)) == EditedAll(trees[n], PairsOf(cs, n))
  {
    hide Sound, EditedAll, PairsOf;
    forall n | n in trees
      ensures (trees[n].root.Some? ==> Exact(trees[n].root.value)) && (mid[n].root.Some? ==> Exact(mid[n].root.value))
      ensures EditedAll(mid[n], PairsOf(rest, n)) == EditedAll(trees[n], PairsOf(cs, n))
    {
      SoundIsExact(trees[n]);
      SoundIsExact(mid[n]);
      PairsOfAppend([c], rest, n);
      PairsOfOne(c, n);
      if n == c.name {
        EditedAllAppend(trees[n], c.pairs, PairsOf(rest, n));
      } else {
        assert [] + PairsOf(rest, n) == PairsOf(rest, n);
      }
    }
  }

  /** Merging the changes store by store does not change their effect. */
  lemma SamePairsSameTrees(trees: map<Name, State>, a: seq<Changes>, b: seq<Changes>)
    requires Healthy(trees) && SamePairs(a, b) && NamesKnown(trees, a) && NamesKnown(trees, b)
    ensures ApplyChanges(trees, a).Some? && ApplyChanges(trees, a) == ApplyChanges(trees, b)
  {
    hide Sound, EditedAll, PairsOf;
    ChangesByStore(trees, a);
    ChangesByStore(trees, b);
    var x, y := ApplyChanges(trees, a).value, ApplyChanges(trees, b).value;
    forall n | n in trees ensures x[n] == y[n] {
      assert PairsOf(a, n) == PairsOf(b, n);
    }
    assert x == y;
  }

  lemma {:induction false} ApplyChangesAppend(trees: map<Name, State>, a: seq<Changes>, b: seq<Changes>)
    requires Healthy(trees)
    ensures ApplyChanges(trees, a + b) == var mid := ApplyChanges(trees, a);
      if mid.None? then None else ApplyChanges(mid.value, b)
    decreases |a|
  {
    hide ApplyChange, Healthy;
    if a == [] {
      assert a + b == b;
    } else {
      assert (a + b)[0] == a[0] && (a + b)[1..] == a[1..] + b;
      var next := ApplyChange(trees, a[0]);
      if next.Some? { ApplyChangesAppend(next.value, a[1..], b); }
    }
  }

  /** The list `after` is `before` with the pairs of `c` merged in. */
  ghost predicate MergedIn(before: seq<Changes>, c: Changes, after: seq<Changes>) {
    && (forall n :: PairsOf(after, n) == PairsOf(before, n) + (if n == c.name then c.pairs else []))
    && (forall i :: 0 <= i < |after| ==> after[i].name == c.name || !NotNamed(before, after[i].name))
  }

  /** A change that is applied and merged into the log keeps the log a description of the
      working trees. */
  lemma MergeKeeps(trees: map<Name, State>, before: seq<Changes>, c: Changes, after: seq<Changes>)
    requires Healthy(trees) && MergedIn(before, c, after)
    requires ApplyChanges(trees, before).Some? && c.name in ApplyChanges(trees, before).value
    ensures ApplyChanges(trees, after) == ApplyChange(ApplyChanges(trees, before).value, c)
  {
    hide Sound, EditedAll, PairsOf, ApplyChange;
    var now := ApplyChanges(trees, before).value;
    ChangesByStore(trees, before);
    ApplyChangesAppend(trees, before, [c]);
    OneChange(now, c);
    forall n ensures PairsOf(before + [c], n) == PairsOf(after, n) {
      PairsOfAppend(before, [c], n);
      PairsOfOne(c, n);
    }
    SamePairsSameTrees(trees, after, before + [c]);
  }

  lemma OneChange(trees: map<Name, State>, c: Changes)
    requires Healthy(trees)
    ensures ApplyChanges(trees, [c]) == ApplyChange(trees, c)
  {
    hide ApplyChange, Healthy;
    var next := ApplyChange(trees, c);
    if next.Some? { assert ApplyChanges(next.value, [c][1..]) == next; }
  }

  // ---------------------------------------------------- merging, as lists

  ghost predicate NotNamed(cs: seq<Changes>, name: Name) {
    forall i :: 0 <= i < |cs| ==> cs[i].name != name
  }

  lemma {:induction false} PairsOfNone(cs: seq<Changes>, name: Name)
    requires NotNamed(cs, name)
    ensures PairsOf(cs, name) == []
    decreases |cs|
  {
    if cs != [] { PairsOfNone(cs[..|cs| - 1], name); }
  }

  /** Pairs appended to the last entry of a store follow all its pairs. */
  lemma AppendToLast(cs: seq<Changes>, k: nat, pairs: seq<Op>, n: Name)
    requires k < |cs| && NotNamed(cs[k + 1..], cs[k].name)
    ensures PairsOf(cs[k := Changes(cs[k].name, cs[k].pairs + pairs)], n)
         == PairsOf(cs, n) + (if n == cs[k].name then pairs else [])
  {
    hide PairsOf;
    var c := Changes(cs[k].name, cs[k].pairs + pairs);
    var a, b := cs[..k], cs[k + 1..];
    assert cs == a + ([cs[k]] + b) && cs[k := c] == a + ([c] + b);
    PairsOfAppend(a, [cs[k]] + b, n);
    PairsOfAppend([cs[k]], b, n);
    PairsOfAppend(a, [c] + b, n);
    PairsOfAppend([c], b, n);
    PairsOfOne(cs[k], n);
    PairsOfOne(c, n);
    if n == cs[k].name { PairsOfNone(b, n); }
  }

  lemma {:induction false} PairsGrow(a: seq<Changes>, b: seq<Changes>, name: Name)
    requires |a| == |b| && forall i :: 0 <= i < |a| ==> a[i].name == b[i].name && |a[i].pairs| <= |b[i].pairs|
    ensures |PairsOf(a, name)| <= |PairsOf(b, name)|
    decreases |a|
  {
    if a != [] { PairsGrow(a[..|a| - 1], b[..|b| - 1], name); }
  }

  lemma {:induction false} GrowAt(a: seq<Changes>, i: nat, c: Changes)
    requires i < |a| && c.name == a[i].name
    ensures |PairsOf(a[i := c], c.name)| == |PairsOf(a, c.name)| + |c.pairs| - |a[i].pairs|
    decreases |a|
  {
    var k := |a| - 1;
    if i < k {
      assert a[i := c][..k] == a[..k][i := c];
      GrowAt(a[..k], i, c);
    } else {
      assert a[i := c][..k] == a[..k];
    }
  }

  /** Pairs that are added in two places are there twice. */
  lemma AppendTwice(a: seq<Changes>, b: seq<Changes>, i: nat, j: nat, name: Name, grown: nat)
    requires |a| == |b| && i < j < |a| && a[i].name == name == a[j].name
    requires forall k :: 0 <= k < |a| ==> a[k].name == b[k].name && |a[k].pairs| <= |b[k].pairs|
    requires |b[i].pairs| >= |a[i].pairs| + grown && |b[j].pairs| >= |a[j].pairs| + grown
    ensures |PairsOf(b, name)| >= |PairsOf(a, name)| + 2 * grown
  {
    hide PairsOf;
    var one := a[i := b[i]];
    var two := one[j := b[j]];
    GrowAt(a, i, b[i]);
    GrowAt(one, j, b[j]);
    PairsGrow(two, b, name);
  }

  /** A new entry may go anywhere if its store has none yet. */
  lemma InsertNew(cs: seq<Changes>, k: nat, c: Changes, n: Name)
    requires k <= |cs| && NotNamed(cs, c.name)
    ensures PairsOf(cs[..k] + [c] + cs[k..], n) == PairsOf(cs, n) + (if n == c.name then c.pairs else [])
  {
    hide PairsOf;
    var a, b := cs[..k], cs[k..];
    assert cs == a + b && cs[..k] + [c] + cs[k..] == a + ([c] + b);
    PairsOfAppend(a, b, n);
    PairsOfAppend(a, [c] + b, n);
    PairsOfAppend([c], b, n);
    PairsOfOne(c, n);
    if n == c.name { PairsOfNone(a, n); PairsOfNone(b, n); }
  }
}

/** The pending log on the heap. */
module PendingChanges {
  import opened Bytes
  import opened IavlContents
  import opened StoreLists
  import opened MultiStates
  import opened PendingLogs

  class NamedChangeSet {
    const name: Name
    var pairs: seq<Op>

    constructor (name: Name, pairs: seq<Op>)
      ensures this.name == name && this.pairs == pairs
    {
      this.name, this.pairs := name, pairs;
    }
  }

  ghost function Objects(list: seq<NamedChangeSet>): set<NamedChangeSet> {
    set x | x in list
  }

  function LogOf(list: seq<NamedChangeSet>): (cs: seq<Changes>)
    reads list
    ensures |cs| == |list| && forall i :: 0 <= i < |list| ==> cs[i] == Changes(list[i].name, list[i].pairs)
  {
    seq(|list|, i requires 0 <= i < |list| reads list => Changes(list[i].name, list[i].pairs))
  }

  /** The position of the last entry of a store, or -1. */
  ghost function LastOf(list: seq<NamedChangeSet>, name: Name): (r: int)
    ensures -1 <= r < |list|
    ensures r >= 0 ==> list[r].name == name
    ensures forall j :: r < j < |list| ==> list[j].name != name
  {
    if list == [] then -1
    else if list[|list| - 1].name == name then |list| - 1
    else LastOf(list[..|list| - 1], name)
  }

  ghost predicate AllOnce(list: seq<NamedChangeSet>) {
    forall i, j :: 0 <= i < j < |list| ==> list[i] != list[j]
  }

  /** The last entry of a store is not in the list a second time. */
  ghost predicate Once(list: seq<NamedChangeSet>, name: Name) {
    var k := LastOf(list, name);
    forall i :: 0 <= i < k ==> list[i] != list[k]
  }

  lemma AllOnceEach(list: seq<NamedChangeSet>, name: Name)
    ensures AllOnce(list) ==> Once(list, name)
  {
    hide LastOf;
  }

  /** Every store that has an entry leads to the last one. */
  ghost predicate Leads(cached: map<Name, NamedChangeSet>, list: seq<NamedChangeSet>) {
    && (forall n :: n in cached ==> LastOf(list, n) >= 0 && cached[n] == list[LastOf(list, n)])
    && (forall i :: 0 <= i < |list| ==> list[i].name in cached)
  }

  ghost predicate NamesAscend(list: seq<NamedChangeSet>) {
    forall i, j :: 0 <= i < j < |list| ==> Less(list[i].name, list[j].name)
  }

  /** If the names ascend, position `i` has all smaller names before it. */
  ghost predicate Divides(list: seq<NamedChangeSet>, i: nat, name: Name) {
    NamesAscend(list) ==> forall k :: 0 <= k < |list| ==> (k < i <==> Less(list[k].name, name))
  }

  lemma LastDivides(list: seq<NamedChangeSet>, name: Name)
    requires list != [] ==> Less(list[|list| - 1].name, name)
    ensures Divides(list, |list|, name)
  {
    LessIsTotalOrder();
    hide Less;
  }

  lemma InsertAscends(list: seq<NamedChangeSet>, idx: nat, cs: NamedChangeSet)
    requires idx <= |list| && Divides(list, idx, cs.name)
    requires forall k :: 0 <= k < |list| ==> list[k].name != cs.name
    ensures NamesAscend(list) ==> NamesAscend(list[..idx] + [cs] + list[idx..])
    ensures forall x :: x in list[..idx] + [cs] + list[idx..] <==> x in list || x == cs
  {
    LessIsTotalOrder();
    hide Less;
    assert list == list[..idx] + list[idx..];
    if NamesAscend(list) {
      forall k | idx <= k < |list| ensures Less(cs.name, list[k].name) {
        assert !Less(list[k].name, cs.name);
      }
    }
  }

  /** The first entry whose name is not below a name, if the names ascend. */
  method Search(list: seq<NamedChangeSet>, name: Name) returns (i: nat)
    ensures i <= |list|
    ensures Divides(list, i, name)
  {
    LessIsTotalOrder();
    hide Less;
    i := 0;
    var j := |list|;
    while i < j
      invariant 0 <= i <= j <= |list|
      invariant NamesAscend(list) ==> forall k :: 0 <= k < i ==> Less(list[k].name, name)
      invariant NamesAscend(list) ==> forall k :: j <= k < |list| ==> !Less(list[k].name, name)
    {
      var h := (i + j) / 2;
      if Less(list[h].name, name) {
        i := h + 1;
      } else {
        j := h;
      }
    }
  }

  class Pending {
    var list: seq<NamedChangeSet>
    var cached: map<Name, NamedChangeSet>

    ghost predicate Valid()
      reads this
    {
      Leads(cached, list)
    }

    constructor ()
      ensures Valid() && list == []
    {
      list, cached := [], map[];
    }

    /** Takes a whole list of changes as it is. */
    method SetAll(changes: seq<NamedChangeSet>)
      modifies this
      ensures Valid() && list == changes
    {
      hide Leads;
      list := changes;
      cached := map[];
      LeadsNothing(changes);
      for i := 0 to |changes|
        invariant list == changes && Leads(cached, changes[..i])
      {
        LeadsStep(cached, changes, i);
        cached := cached[changes[i].name := changes[i]];
      }
      assert changes[..|changes|] == changes;
    }

    /** Merges the pairs into the log, if and only if the change set they are added to is
        not in the list twice. */
    method Add(name: Name, pairs: seq<Op>)
      requires Valid() && pairs != []
      modifies this, Objects(list)
      ensures Valid()
      ensures forall x :: x in Objects(list) ==> x in old(Objects(list)) || fresh(x)
      ensures MergedIn(old(LogOf(list)), Changes(name, pairs), LogOf(list)) <==> Once(old(list), name)
      ensures old(NamesAscend(list)) ==> NamesAscend(list)
      ensures AllOnce(old(list)) ==> AllOnce(list) && Once(old(list), name)
    {
      hide Leads, PairsOf, Less;
      ghost var was, before := list, LogOf(list);
      AllOnceEach(list, name);
      AddPairs(name, pairs);
      if Once(was, name) { AddedMerges(was, list, before, Changes(name, pairs)); }
    }

    /** Appends to the last entry of the store, or makes one. */
    method AddPairs(name: Name, pairs: seq<Op>)
      requires Valid()
      modifies this, Objects(list)
      ensures Valid()
      ensures forall x :: x in Objects(list) ==> x in old(Objects(list)) || fresh(x)
      ensures Once(old(list), name) ==>
        forall n :: PairsOf(LogOf(list), n) == PairsOf(old(LogOf(list)), n) + (if n == name then pairs else [])
      ensures !Once(old(list), name) ==>
        |PairsOf(LogOf(list), name)| >= |PairsOf(old(LogOf(list)), name)| + 2 * |pairs|
      ensures forall x :: x in list ==> x.name == name || exists y :: y in old(list) && y.name == x.name
      ensures old(NamesAscend(list)) ==> NamesAscend(list)
      ensures AllOnce(old(list)) ==> AllOnce(list)
    {
      hide LastOf, Less, PairsOf;
      if name in cached {
        AppendTo(cached[name], name, pairs);
        return;
      }
      assert Once(list, name) by { NotListed(cached, list, name); }
      var cs := new NamedChangeSet(name, pairs);
      Insert(cs);
    }

    /** The pairs go to every place where the list has the change set. */
    method AppendTo(existing: NamedChangeSet, name: Name, pairs: seq<Op>)
      requires Valid() && name in cached && cached[name] == existing
      modifies existing
      ensures Once(list, name) ==>
        forall n :: PairsOf(LogOf(list), n) == PairsOf(old(LogOf(list)), n) + (if n == name then pairs else [])
      ensures !Once(list, name) ==>
        |PairsOf(LogOf(list), name)| >= |PairsOf(old(LogOf(list)), name)| + 2 * |pairs|
    {
      hide LastOf, Less, PairsOf;
      ghost var before, k := LogOf(list), LastOf(list, name);
      existing.pairs := existing.pairs + pairs;
      assert forall i :: 0 <= i < |list| ==>
        LogOf(list)[i] == if list[i] == existing then Changes(name, before[i].pairs + pairs) else before[i];
      if Once(list, name) {
        assert LogOf(list) == before[k := Changes(name, before[k].pairs + pairs)];
        forall n ensures PairsOf(LogOf(list), n) == PairsOf(before, n) + (if n == name then pairs else []) {
          AppendToLast(before, k, pairs, n);
        }
      } else {
        ghost var i, j :| 0 <= i < j < |list| && list[i] == list[j] && list[j].name == name && LastOf(list, name) == j;
        AppendTwice(before, LogOf(list), i, j, name, |pairs|);
      }
    }

    /** Keeps the entries in order of the names if they are. */
    method Insert(cs: NamedChangeSet)
      requires Valid() && cs.name !in cached && cs !in list
      modifies this
      ensures Valid() && (forall x :: x in list <==> x in old(list) || x == cs)
        && (AllOnce(old(list)) ==> AllOnce(list))
      ensures forall n ::
        PairsOf(LogOf(list), n) == PairsOf(old(LogOf(list)), n) + (if n == cs.name then cs.pairs else [])
      ensures old(NamesAscend(list)) ==> NamesAscend(list)
    {
      hide LastOf, Less, PairsOf, NamesAscend, Divides, AllOnce, LogOf, Leads;
      NotListed(cached, list, cs.name);
      var n := |list|;
      if n == 0 || Less(list[n - 1].name, cs.name) {
        LastDivides(list, cs.name);
        InsertAscends(list, n, cs);
        PutIn(cs, n);
        return;
      }
      var idx := Search(list, cs.name);
      InsertAscends(list, idx, cs);
      PutIn(cs, idx);
    }

    method PutIn(cs: NamedChangeSet, idx: nat)
      requires Valid() && cs.name !in cached && cs !in list && idx <= |list|
      modifies this
      ensures Valid() && list == old(list)[..idx] + [cs] + old(list)[idx..] && (AllOnce(old(list)) ==> AllOnce(list))
      ensures forall n ::
        PairsOf(LogOf(list), n) == PairsOf(old(LogOf(list)), n) + (if n == cs.name then cs.pairs else [])
    {
      hide LastOf, Less, PairsOf;
      ghost var was, before := list, LogOf(list);
      cached := cached[cs.name := cs];
      list := list[..idx] + [cs] + list[idx..];
      assert LogOf(list) == before[..idx] + [Changes(cs.name, cs.pairs)] + before[idx..];
      forall n ensures PairsOf(LogOf(list), n) == PairsOf(before, n) + (if n == cs.name then cs.pairs else []) {
        InsertNew(before, idx, Changes(cs.name, cs.pairs), n);
      }
      LeadsInserted(old(cached), was, cs, idx);
    }
  }

  lemma NotListed(cached: map<Name, NamedChangeSet>, list: seq<NamedChangeSet>, name: Name)
    requires Leads(cached, list) && name !in cached
    ensures forall k :: 0 <= k < |list| ==> list[k].name != name
  {
  }

  lemma LeadsNothing(list: seq<NamedChangeSet>)
    ensures Leads(map[], list[..0])
  {
  }

  lemma LeadsStep(cached: map<Name, NamedChangeSet>, list: seq<NamedChangeSet>, i: nat)
    requires i < |list| && Leads(cached, list[..i])
    ensures Leads(cached[list[i].name := list[i]], list[..i + 1])
  {
    hide LastOf;
    var a, b, c := list[..i], list[..i + 1], cached[list[i].name := list[i]];
    forall n | n in c ensures LastOf(b, n) >= 0 && c[n] == b[LastOf(b, n)] {
      LastUnique(b, n, if n == list[i].name then i else LastOf(a, n));
    }
    forall k | 0 <= k < |b| ensures b[k].name in c {
      assert k < i ==> a[k] == b[k];
    }
  }

  lemma LeadsInserted(cached: map<Name, NamedChangeSet>, list: seq<NamedChangeSet>, cs: NamedChangeSet, idx: nat)
    requires Leads(cached, list) && cs.name !in cached && cs !in list && idx <= |list|
    ensures var l := list[..idx] + [cs] + list[idx..]; Leads(cached[cs.name := cs], l) && (AllOnce(list) ==> AllOnce(l))
  {
    hide LastOf;
    var l, c := list[..idx] + [cs] + list[idx..], cached[cs.name := cs];
    forall n | n in c ensures LastOf(l, n) >= 0 && c[n] == l[LastOf(l, n)] {
      var k := if n == cs.name then idx else LastOf(list, n);
      var at := if n == cs.name || k < idx then k else k + 1;
      assert l[at].name == n;
      LastUnique(l, n, at);
    }
  }

  lemma AddedMerges(was: seq<NamedChangeSet>, now: seq<NamedChangeSet>, before: seq<Changes>, c: Changes)
    requires |before| == |was| && forall i :: 0 <= i < |was| ==> before[i].name == was[i].name
    requires forall n :: PairsOf(LogOf(now), n) == PairsOf(before, n) + (if n == c.name then c.pairs else [])
    requires forall x :: x in now ==> x.name == c.name || exists y :: y in was && y.name == x.name
    ensures MergedIn(before, c, LogOf(now))
  {
    hide PairsOf;
    forall i | 0 <= i < |now| ensures now[i].name == c.name || !NotNamed(before, now[i].name) {
      if now[i].name != c.name {
        var y :| y in was && y.name == now[i].name;
        var j :| 0 <= j < |was| && was[j] == y;
        assert before[j].name == now[i].name;
      }
    }
  }

  lemma LastUnique(list: seq<NamedChangeSet>, n: Name, k: nat)
    requires k < |list| && list[k].name == n && forall j :: k < j < |list| ==> list[j].name != n
    ensures LastOf(list, n) == k
  {
    hide LastOf;
    assert LastOf(list, n) >= k;
  }
}

/** The part of the database that gathers the next commit. */
module WorkingState {
  import opened Bytes
  import opened IavlContents
  import opened Hashing
  import opened TreeStates
  import opened StoreLists
  import opened MultiStates
  import opened CommitInfos
  import opened MultiTrees
  import opened UpgradeOrders
  import opened MovedUpgrades
  import opened PendingLogs
  import opened PendingChanges

  /** The log entry describes the working trees: replaying it on the committed state,
      upgrades first, leads to them. */
  ghost predicate Describes(committed: Multi, upgrades: seq<Upgrade>, log: seq<Changes>, working: Multi) {
    Healthy(committed.trees) && ApplyEntry(committed, WalEntry(upgrades, log)) == Some(working)
  }

  lemma DescribesMerged(committed: Multi, upgrades: seq<Upgrade>, log: seq<Changes>, working: Multi, c: Changes,
                        after: seq<Changes>)
    requires Describes(committed, upgrades, log, working) && MergedIn(log, c, after) && c.name in working.trees
    ensures Describes(committed, upgrades, after, working.(trees := ApplyChange(working.trees, c).value))
  {
    hide Healthy, UpgradeAll, ApplyChanges, ApplyChange, MergedIn;
    var next := NextVersion(committed.version, committed.initial);
    UpgradeAllIsHealthy(committed.trees, upgrades, next);
    MergeKeeps(UpgradeAll(committed.trees, upgrades, NewTree(next)).value, log, c, after);
    KnownChange(working.trees, c);
  }

  /** The entry describes the trees after a change if and only if the store is known. */
  lemma DescribesAdded(committed: Multi, upgrades: seq<Upgrade>, log: seq<Changes>, working: Multi, c: Changes,
                       after: seq<Changes>)
    requires Describes(committed, upgrades, log, working) && MergedIn(log, c, after) && c.pairs != []
    ensures Healthy(working.trees)
    ensures var r := ApplyChange(working.trees, c);
      if r.Some? then Describes(committed, upgrades, after, Multi(working.initial, working.version, r.value))
      else !Describes(committed, upgrades, after, working)
  {
    hide Healthy, ApplyChange, MergedIn;
    KnownChange(working.trees, c);
    if c.name in working.trees {
      DescribesMerged(committed, upgrades, log, working, c, after);
    } else {
      UnknownChangeStays(committed, upgrades, log, working, c, after);
    }
  }

  /** A change to an unknown store stays in the log; the entry can then not be replayed. */
  lemma UnknownChangeStays(committed: Multi, upgrades: seq<Upgrade>, log: seq<Changes>, working: Multi, c: Changes,
                           after: seq<Changes>)
    requires Describes(committed, upgrades, log, working) && MergedIn(log, c, after)
    requires c.name !in working.trees && c.pairs != []
    ensures ApplyEntry(committed, WalEntry(upgrades, after)) == None
  {
    hide Healthy, UpgradeAll, ApplyChanges, NextVersion;
    var next := NextVersion(committed.version, committed.initial);
    UpgradeAllIsHealthy(committed.trees, upgrades, next);
    var trees := UpgradeAll(committed.trees, upgrades, NewTree(next)).value;
    ChangesByStore(trees, log);
    ChangesByStore(trees, after);
    assert PairsOf(after, c.name) == PairsOf(log, c.name) + c.pairs;
    if NotNamed(after, c.name) { PairsOfNone(after, c.name); }
  }

  lemma KnownChange(trees: map<Name, State>, c: Changes)
    requires Healthy(trees)
    ensures ApplyChange(trees, c).Some? <==> c.name in trees
  {
  }

  class WorkingDb {
    const multi: MultiTree
    const pending: Pending
    var upgrades: seq<Upgrade>
    ghost var committed: Multi

    ghost predicate Valid()
      reads this, multi, pending
    {
      && multi.Valid() && pending.Valid()
      && committed.version == multi.version && committed.initial == multi.initialVersion
    }

    /** Replaying the pending entry on the committed state leads to the working trees. */
    ghost predicate Described()
      reads this, multi, pending, pending.list
    {
      Describes(committed, upgrades, LogOf(pending.list), multi.Value())
    }

    constructor (multi: MultiTree)
      requires multi.Valid()
      ensures Valid() && this.multi == multi && committed == multi.Value() && Described()
      ensures fresh(pending) && pending.list == [] && upgrades == []
    {
      this.multi := multi;
      pending := new Pending();
      upgrades, committed := [], multi.Value();
      new;
      multi.ValidIsHealthy();
      hide Healthy, Leads, LastOf, Shows, InOrder, Indexes;
      DescribesNothing(multi.Value(), LogOf(pending.list));
    }

    /** A database without a version gets its initial stores when it is loaded. They are pending
        then, and the entry describes them. Fails for a name that is known or comes twice. */
    method AddInitialStores(names: seq<Name>) returns (ok: bool)
      requires Valid() && upgrades == [] && pending.list == [] && committed == multi.Value()
      modifies this, multi
      ensures var add := multi.version == 0 && names != [];
        && (ok <==> !add || AllNew(names, old(multi.contents).Keys))
        && (ok ==> Valid() && Described() && committed == old(committed) && pending.list == [])
        && (ok ==> upgrades == if add then Additions(names) else [])
        && (ok ==> multi.contents == if !add then old(multi.contents)
             else WithBlanks(old(multi.contents), names, NewTree(NextVersion(0, multi.initialVersion))))
    {
      hide Healthy, Leads, LastOf, Shows, InOrder, Indexes, UpgradeAll, AllNew, WithBlanks, Additions, NewTree;
      multi.ValidIsHealthy();
      DescribesNothing(multi.Value(), LogOf(pending.list));
      if multi.version != 0 || names == [] {
        return true;
      }
      var us := Additions(names);
      AdditionsAdd(multi.contents, names, NewTree(NextVersion(0, multi.initialVersion)));
      AdditionsAdd(Own(multi.contents.Keys), names, New);
      assert Own(multi.contents.Keys).Keys == multi.contents.Keys;
      if AllNew(names, multi.contents.Keys) {
        SingleList(multi.contents.Keys, us);
      }
      hide Describes, CanMoveUp, NextVersion;
      assert [] + us == us && ChangedNames(LogOf(pending.list)) == {};
      ok := ApplyUpgrades(us);
    }

    /** The entry still describes the trees if the upgrades can be moved up to those before
        them; `MovedUpgrades.StuckUpgradesFail` says that they must. */
    method ApplyUpgrades(us: seq<Upgrade>) returns (ok: bool)
      requires Valid()
      modifies this, multi
      ensures multi.version == old(multi.version)
      ensures ok ==> Valid() && committed == old(committed) && upgrades == old(upgrades) + us
      ensures var r := UpgradeAll(old(multi.contents), us, NewTree(NextVersion(multi.version, multi.initialVersion)));
        (ok <==> r.Some?) && (ok ==> multi.contents == r.value)
      ensures ok && old(Described()) &&
        CanMoveUp(committed.trees.Keys, old(upgrades), us, ChangedNames(LogOf(pending.list)))
        ==> Described()
    {
      hide Healthy, Describes, Leads, LastOf, Shows, InOrder, Indexes, UpgradeAll, NextVersion, NewTree, CanMoveUp;
      ghost var working := multi.Value();
      ok := multi.ApplyUpgrades(us);
      if ok {
        ghost var log := LogOf(pending.list);
        if Describes(committed, upgrades, log, working)
          && CanMoveUp(committed.trees.Keys, upgrades, us, ChangedNames(log)) {
          DescribesUpgraded(committed, upgrades, log, working, us, multi.contents);
        }
        upgrades := upgrades + us;
      }
    }

    /** The entry describes the trees afterwards if and only if the store is known, unless
        the change set that the pairs are added to is pending twice. */
    method ApplyChangeSet(name: Name, pairs: seq<Op>) returns (ok: bool)
      requires Valid()
      modifies multi, pending, Objects(pending.list)
      ensures Valid()
      ensures forall x :: x in Objects(pending.list) ==> x in old(Objects(pending.list)) || fresh(x)
      ensures Healthy(old(multi.contents))
      ensures ok <==> ApplyChanges(old(multi.contents), NonEmpty([Changes(name, pairs)])).Some?
      ensures ok ==> multi.contents == ApplyChanges(old(multi.contents), NonEmpty([Changes(name, pairs)])).value
      ensures !ok ==> multi.contents == old(multi.contents)
      ensures old(Described()) && Once(old(pending.list), name) ==> (Described() <==> ok)
      ensures AllOnce(old(pending.list)) ==> AllOnce(pending.list) && Once(old(pending.list), name)
    {
      hide Healthy, Describes, Leads, LastOf, LogOf, Shows, InOrder, Indexes, ApplyChange, MergedIn, NamesAscend,
           ApplyChanges, NonEmpty, Once;
      multi.ValidIsHealthy();
      NonEmptyOne(multi.contents, Changes(name, pairs));
      AllOnceEach(pending.list, name);
      if |pairs| == 0 {
        return true;
      }
      ghost var was, before, working, c := pending.list, LogOf(pending.list), multi.Value(), Changes(name, pairs);
      pending.Add(name, pairs);
      ghost var after := LogOf(pending.list);
      if Describes(committed, upgrades, before, working) && Once(was, name) {
        DescribesAdded(committed, upgrades, before, working, c, after);
      }
      ok := multi.ApplyChangeSet(Changes(name, pairs));
    }

    /** The first changes of a commit are taken over as they are; later ones are merged.
        `applied` are the changes as they were when each was applied; those that are pending
        already may have grown by then. */
    method ApplyChangeSets(changes: seq<NamedChangeSet>) returns (ok: bool, ghost applied: seq<Changes>)
      requires Valid()
      modifies multi, pending, Objects(pending.list)
      ensures Valid() && Healthy(old(multi.contents))
      ensures Objects(changes) !! old(Objects(pending.list)) && ok ==> applied == old(LogOf(changes))
      ensures ok <==> ApplyChanges(old(multi.contents), if old(pending.list) == [] then applied
        else NonEmpty(applied)).Some?
      ensures ok ==> Some(multi.contents) == ApplyChanges(old(multi.contents), NonEmpty(applied))
      ensures ok && old(Described()) && AllOnce(old(pending.list)) ==> Described()
    {
      hide Healthy, Describes, Leads, LastOf, LogOf, AllOnce, Shows, InOrder, Indexes, ApplyChanges, NonEmpty;
      multi.ValidIsHealthy();
      applied := LogOf(changes);
      if |changes| == 0 {
        NothingChanges(multi.contents, applied);
        NoChanges(multi.contents, applied);
        return true, applied;
      }
      if |pending.list| == 0 {
        ghost var before := LogOf(pending.list);
        pending.SetAll(changes);
        if Describes(committed, upgrades, before, multi.Value()) {
          DescribesTaken(committed, upgrades, before, multi.Value(), applied);
        }
        EmptyOnesDropped(multi.contents, applied);
        ok := multi.ApplyChangeSets(LogOf(changes));
        return ok, applied;
      }
      ok, applied := ApplyOneByOne(changes);
    }

    method ApplyOneByOne(changes: seq<NamedChangeSet>) returns (ok: bool, ghost applied: seq<Changes>)
      requires Valid()
      modifies multi, pending, Objects(pending.list)
      ensures Valid() && Healthy(old(multi.contents))
      ensures Objects(changes) !! old(Objects(pending.list)) && ok ==> applied == old(LogOf(changes))
      ensures ok <==> ApplyChanges(old(multi.contents), NonEmpty(applied)).Some?
      ensures ok ==> Some(multi.contents) == ApplyChanges(old(multi.contents), NonEmpty(applied))
      ensures ok && old(Described()) && AllOnce(old(pending.list)) ==> Described()
    {
      hide Healthy, Describes, Leads, LastOf, AllOnce, Shows, InOrder, Indexes, ApplyChanges, NonEmpty, Once;
      multi.ValidIsHealthy();
      applied := [];
      NothingChanges(multi.contents, applied);
      for i := 0 to |changes|
        invariant Valid() && |applied| == i
        invariant forall x :: x in Objects(pending.list) ==> x in old(Objects(pending.list)) || fresh(x)
        invariant Objects(changes) !! old(Objects(pending.list)) ==> applied == old(LogOf(changes))[..i]
        invariant Some(multi.contents) == ApplyChanges(old(multi.contents), NonEmpty(applied))
        invariant old(Described()) && AllOnce(old(pending.list)) ==> Described() && AllOnce(pending.list)
      {
        ghost var before, c := multi.contents, Changes(changes[i].name, changes[i].pairs);
        ok := ApplyChangeSet(changes[i].name, changes[i].pairs);
        NonEmptyStep(old(multi.contents), applied, c, before);
        applied := applied + [c];
        if !ok {
          return false, applied;
        }
      }
      assert old(LogOf(changes))[..|changes|] == old(LogOf(changes));
      return true, applied;
    }

    /** Bumps the version; the entry is what goes to the write-ahead log. */
    method Commit(h: Hasher) returns (ok: bool, entry: WalEntry)
      requires Valid()
      modifies this, multi, pending
      ensures Healthy(old(multi.contents)) && Valid()
      ensures ok <==> SaveAll(old(multi.Value())).Some?
      ensures multi.Value() == if ok then SaveAll(old(multi.Value())).value else old(multi.Value())
      ensures entry == WalEntry(old(upgrades), old(LogOf(pending.list)))
      ensures ok ==> upgrades == [] && pending.list == [] && committed == multi.Value() && Described()
      ensures ok ==> multi.stores == Listed(Ids(multi.contents, h))
      ensures ok && old(Described()) ==>
        Healthy(old(committed).trees) && Replay(old(committed), entry) == Some(multi.Value())
    {
      hide Healthy, Leads, LastOf, Shows, InOrder, Indexes, ApplyEntry, SaveAll, Listed;
      multi.ValidIsHealthy();
      entry := WalEntry(upgrades, LogOf(pending.list));
      ok := multi.SaveVersion(true, h);
      if !ok {
        return;
      }
      multi.ValidIsHealthy();
      upgrades, committed := [], multi.Value();
      pending.SetAll([]);
      DescribesNothing(multi.Value(), LogOf(pending.list));
    }
  }

  /** Empty changes are dropped when changes are merged. */
  function NonEmpty(cs: seq<Changes>): seq<Changes> {
    if cs == [] then []
    else NonEmpty(cs[..|cs| - 1]) + (if cs[|cs| - 1].pairs == [] then [] else [cs[|cs| - 1]])
  }

  lemma NonEmptyOne(trees: map<Name, State>, c: Changes)
    requires Healthy(trees)
    ensures ApplyChanges(trees, NonEmpty([c])) == if c.pairs == [] then Some(trees) else ApplyChange(trees, c)
  {
    hide ApplyChange, Healthy;
    assert [c][..0] == [] && NonEmpty([c]) == if c.pairs == [] then [] else [c];
    OneChange(trees, c);
  }

  lemma NothingChanges(trees: map<Name, State>, cs: seq<Changes>)
    requires Healthy(trees) && cs == []
    ensures ApplyChanges(trees, NonEmpty(cs)) == Some(trees)
  {
  }

  lemma NoChanges(trees: map<Name, State>, cs: seq<Changes>)
    requires Healthy(trees) && cs == []
    ensures ApplyChanges(trees, cs) == Some(trees)
  {
  }

  lemma NonEmptyStep(trees: map<Name, State>, cs: seq<Changes>, c: Changes, mid: map<Name, State>)
    requires Healthy(trees) && ApplyChanges(trees, NonEmpty(cs)) == Some(mid)
    ensures ApplyChanges(trees, NonEmpty(cs + [c])) == ApplyChanges(mid, NonEmpty([c]))
  {
    hide ApplyChanges, Healthy;
    assert (cs + [c])[..|cs|] == cs && [c][..0] == [];
    ApplyChangesAppend(trees, NonEmpty(cs), NonEmpty([c]));
    assert NonEmpty(cs + [c]) == NonEmpty(cs) + NonEmpty([c]);
  }

  lemma {:induction false} EmptyOnesDropped(trees: map<Name, State>, cs: seq<Changes>)
    requires Healthy(trees)
    ensures ApplyChanges(trees, cs).Some? ==> ApplyChanges(trees, NonEmpty(cs)) == ApplyChanges(trees, cs)
    decreases |cs|
  {
    hide Healthy, ApplyChange;
    if cs != [] {
      var k := |cs| - 1;
      assert cs == cs[..k] + [cs[k]];
      ApplyChangesAppend(trees, cs[..k], [cs[k]]);
      EmptyOnesDropped(trees, cs[..k]);
      var mid := ApplyChanges(trees, cs[..k]);
      if mid.Some? {
        OneChange(mid.value, cs[k]);
        EmptyChange(mid.value, cs[k]);
        ApplyChangesAppend(trees, NonEmpty(cs[..k]), [cs[k]]);
        assert NonEmpty(cs[..k]) + [] == NonEmpty(cs[..k]);
      }
    }
  }

  lemma EmptyChange(trees: map<Name, State>, c: Changes)
    requires Healthy(trees)
    ensures c.pairs == [] && ApplyChange(trees, c).Some? ==> ApplyChange(trees, c).value == trees
  {
    if c.name in trees { SoundIsExact(trees[c.name]); }
  }

  lemma DescribesTaken(committed: Multi, upgrades: seq<Upgrade>, log: seq<Changes>, working: Multi, taken: seq<Changes>)
    requires Describes(committed, upgrades, log, working) && log == []
    ensures Healthy(working.trees)
    ensures ApplyChanges(working.trees, taken).Some? ==>
      Describes(committed, upgrades, taken, Multi(working.initial, working.version,
        ApplyChanges(working.trees, taken).value))
  {
    hide Healthy, UpgradeAll, NextVersion, ApplyChange;
  }

  lemma DescribesNothing(m: Multi, log: seq<Changes>)
    requires Healthy(m.trees) && log == []
    ensures Describes(m, [], log, m)
  {
    hide UpgradeAll, Healthy;
    NoUpgrades(m.trees, NewTree(NextVersion(m.version, m.initial)));
  }

  lemma DescribesUpgraded(committed: Multi, upgrades: seq<Upgrade>, log: seq<Changes>, working: Multi,
                          us: seq<Upgrade>, last: map<Name, State>)
    requires Describes(committed, upgrades, log, working)
    requires UpgradeAll(working.trees, us, NewTree(NextVersion(committed.version, committed.initial))) == Some(last)
    requires CanMoveUp(committed.trees.Keys, upgrades, us, ChangedNames(log))
    ensures Describes(committed, upgrades + us, log, Multi(working.initial, working.version, last))
  {
    hide Healthy, UpgradeAll, NextVersion, NewTree, ApplyChanges, CanMoveUp;
    var next := NextVersion(committed.version, committed.initial);
    UpgradeAllIsHealthy(committed.trees, upgrades, next);
    var first := UpgradeAll(committed.trees, upgrades, NewTree(next)).value;
    MovedUpReplays(committed, upgrades, log, us, first, working.trees, last);
  }
}
