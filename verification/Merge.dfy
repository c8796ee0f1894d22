/** The k-way merge of sorted streams with a binary heap. */
module Merges {
  import opened Bytes

  type Lesser = (Bytes, Bytes) -> bool

  /** Not after: what a comparison function for sorting has to make a total preorder. */
  predicate Le(less: Lesser, a: Bytes, b: Bytes) { !less(b, a) }

  ghost predicate WeakOrder(less: Lesser) {
    && (forall a: Bytes, b: Bytes :: less(a, b) ==> !less(b, a))
    && (forall a: Bytes, b: Bytes, c: Bytes {:trigger less(b, a), less(c, b)} :: !less(b, a) && !less(c, b) ==>
        !less(c, a))
  }

  lemma LeTrans(less: Lesser, a: Bytes, b: Bytes, c: Bytes)
    requires WeakOrder(less) && Le(less, a, b) && Le(less, b, c)
    ensures Le(less, a, c)
  {
  }

  lemma LessIsLe(less: Lesser, a: Bytes, b: Bytes)
    requires WeakOrder(less)
    ensures (less(a, b) ==> Le(less, a, b)) && (!less(a, b) ==> Le(less, b, a)) && Le(less, a, a)
  {
  }

  /** A stream with its next item taken out; none is left when there is no value. */
  datatype HeapEntry = HeapEntry(value: Option<Bytes>, stream: seq<Bytes>)

  // ------------------------------------------------------------- the items

  function ItemsOf(e: HeapEntry): multiset<Bytes> {
    (if e.value.Some? then multiset{e.value.value} else multiset{}) + multiset(e.stream)
  }

  function AllItems(s: seq<HeapEntry>): multiset<Bytes> {
    if s == [] then multiset{} else AllItems(s[..|s| - 1]) + ItemsOf(s[|s| - 1])
  }

  lemma {:induction false} UpdateItems(s: seq<HeapEntry>, i: nat, e: HeapEntry)
    requires i < |s|
    ensures AllItems(s[i := e]) + ItemsOf(s[i]) == AllItems(s) + ItemsOf(e)
    decreases |s|
  {
    hide ItemsOf;
    var k := |s| - 1;
    if i < k {
      UpdateItems(s[..k], i, e);
      assert s[i := e][..k] == s[..k][i := e];
      var a, b, l := AllItems(s[..k][i := e]), AllItems(s[..k]), ItemsOf(s[k]);
      assert (a + l) + ItemsOf(s[i]) == (a + ItemsOf(s[i])) + l && (b + l) + ItemsOf(e) == (b + ItemsOf(e)) + l;
    } else {
      assert s[i := e][..k] == s[..k];
    }
  }

  function Swapped(s: seq<HeapEntry>, i: nat, j: nat): seq<HeapEntry>
    requires i < |s| && j < |s|
  {
    s[i := s[j]][j := s[i]]
  }

  lemma SwapItems(s: seq<HeapEntry>, i: nat, j: nat)
    requires i < |s| && j < |s|
    ensures AllItems(Swapped(s, i, j)) == AllItems(s)
  {
    hide ItemsOf, AllItems;
    UpdateItems(s, i, s[j]);
    UpdateItems(s[i := s[j]], j, s[i]);
    Cancel(AllItems(Swapped(s, i, j)), AllItems(s), ItemsOf(s[j]));
  }

  lemma Cancel(a: multiset<Bytes>, b: multiset<Bytes>, c: multiset<Bytes>)
    requires a + c == b + c
    ensures a == b
  {
    forall x ensures a[x] == b[x] {
      assert (a + c)[x] == (b + c)[x];
    }
  }

  // -------------------------------------------------------------- the heap

  function Parent(j: int): int { (j - 1) / 2 }

  /** The first `n` entries have values to compare. */
  ghost predicate Loaded(s: seq<HeapEntry>, n: nat) {
    n <= |s| && forall i :: 0 <= i < n ==> s[i].value.Some?
  }

  /** No entry comes before its parent, as far as parents from `lo` on are concerned, and
      not the one at `hole`. */
  ghost predicate Heap(less: Lesser, s: seq<HeapEntry>, n: nat, lo: nat, hole: int)
    requires Loaded(s, n)
  {
    forall j :: 0 < j < n && Parent(j) >= lo && Parent(j) != hole ==>
      Le(less, s[Parent(j)].value.value, s[j].value.value)
  }

  /** The children of the hole are not before its parent either. */
  ghost predicate Bridged(less: Lesser, s: seq<HeapEntry>, n: nat, lo: nat, hole: nat)
    requires Loaded(s, n) && hole < n
  {
    hole > 0 && Parent(hole) >= lo ==>
      forall j :: 0 < j < n && Parent(j) == hole ==> Le(less, s[Parent(hole)].value.value, s[j].value.value)
  }

  lemma {:induction false} RootIsLeast(less: Lesser, s: seq<HeapEntry>, n: nat, j: nat)
    requires WeakOrder(less) && Loaded(s, n) && Heap(less, s, n, 0, -1) && j < n
    ensures Le(less, s[0].value.value, s[j].value.value)
    decreases j
  {
    hide WeakOrder, Le;
    LessIsLe(less, s[0].value.value, s[0].value.value);
    if j > 0 {
      RootIsLeast(less, s, n, Parent(j));
      LeTrans(less, s[0].value.value, s[Parent(j)].value.value, s[j].value.value);
    }
  }

  /** Exchanging the hole with the lesser of its children moves the hole down. */
  lemma SwapDown(less: Lesser, s: seq<HeapEntry>, n: nat, lo: nat, i: nat, j: nat)
    requires Loaded(s, n) && Heap(less, s, n, lo, i) && lo <= i < j < n && Parent(j) == i && Bridged(less, s, n, lo, i)
    requires Le(less, s[j].value.value, s[i].value.value)
    requires forall c :: 0 < c < n && Parent(c) == i ==> Le(less, s[j].value.value, s[c].value.value)
    ensures var t := Swapped(s, i, j);
      Loaded(t, n) && Heap(less, t, n, lo, j) && Bridged(less, t, n, lo, j)
  {
    hide Le;
    var t := Swapped(s, i, j);
    forall c | 0 < c < n && Parent(c) >= lo && Parent(c) != j
      ensures Le(less, t[Parent(c)].value.value, t[c].value.value)
    {
    }
  }

  ghost predicate Ascending(less: Lesser, s: seq<Bytes>) {
    forall i, j :: 0 <= i < j < |s| ==> Le(less, s[i], s[j])
  }

  ghost predicate SortedEntry(less: Lesser, e: HeapEntry) {
    if e.value.Some? then Ascending(less, [e.value.value] + e.stream) else e.stream == []
  }

  ghost predicate EntriesSorted(less: Lesser, s: seq<HeapEntry>) {
    forall i :: 0 <= i < |s| ==> SortedEntry(less, s[i])
  }

  method Down(less: Lesser, s: seq<HeapEntry>, i0: nat, n: nat) returns (t: seq<HeapEntry>)
    requires WeakOrder(less) && Loaded(s, n) && i0 < n && Heap(less, s, n, i0, i0)
    ensures |t| == |s| && Loaded(t, n) && Heap(less, t, n, i0, -1)
    ensures AllItems(t) == AllItems(s) && (forall k :: n <= k < |s| ==> t[k] == s[k])
    ensures EntriesSorted(less, s) ==> EntriesSorted(less, t)
  {
    hide WeakOrder, Le, AllItems, SortedEntry;
    t := s;
    var i := i0;
    while 2 * i + 1 < n
      invariant i0 <= i < n && |t| == |s| && Loaded(t, n)
      invariant Heap(less, t, n, i0, i) && Bridged(less, t, n, i0, i)
      invariant AllItems(t) == AllItems(s) && (forall k :: n <= k < |s| ==> t[k] == s[k])
      invariant EntriesSorted(less, s) ==> EntriesSorted(less, t)
      decreases n - i
    {
      var j := LesserChild(less, t, i, n);
      if !less(t[j].value.value, t[i].value.value) {
        Settled(less, t, n, i0, i, j);
        return;
      }
      LessIsLe(less, t[j].value.value, t[i].value.value);
      SwapDown(less, t, n, i0, i, j);
      SwapItems(t, i, j);
      t := Swapped(t, i, j);
      i := j;
    }
    Leafless(less, t, n, i0, i);
  }

  method LesserChild(less: Lesser, s: seq<HeapEntry>, i: nat, n: nat) returns (j: nat)
    requires WeakOrder(less) && Loaded(s, n) && 2 * i + 1 < n
    ensures i < j < n && Parent(j) == i
    ensures forall c :: 0 < c < n && Parent(c) == i ==> Le(less, s[j].value.value, s[c].value.value)
  {
    hide WeakOrder, Le;
    var j1 := 2 * i + 1;
    var j2 := j1 + 1;
    LessIsLe(less, s[j1].value.value, s[j1].value.value);
    if j2 < n {
      LessIsLe(less, s[j2].value.value, s[j1].value.value);
      LessIsLe(less, s[j2].value.value, s[j2].value.value);
    }
    j := if j2 < n && less(s[j2].value.value, s[j1].value.value) then j2 else j1;
    assert forall c :: 0 < c < n && Parent(c) == i ==> c == j1 || c == j2;
  }

  lemma Settled(less: Lesser, s: seq<HeapEntry>, n: nat, lo: nat, i: nat, j: nat)
    requires WeakOrder(less) && Loaded(s, n) && Heap(less, s, n, lo, i) && i < n && j < n
    requires !less(s[j].value.value, s[i].value.value)
    requires forall c :: 0 < c < n && Parent(c) == i ==> Le(less, s[j].value.value, s[c].value.value)
    ensures Heap(less, s, n, lo, -1)
  {
    hide WeakOrder;
    forall c | 0 < c < n && Parent(c) == i ensures Le(less, s[i].value.value, s[c].value.value) {
      LessIsLe(less, s[j].value.value, s[i].value.value);
      LeTrans(less, s[i].value.value, s[j].value.value, s[c].value.value);
    }
  }

  lemma Leafless(less: Lesser, s: seq<HeapEntry>, n: nat, lo: nat, i: nat)
    requires Loaded(s, n) && Heap(less, s, n, lo, i) && 2 * i + 1 >= n
    ensures Heap(less, s, n, lo, -1)
  {
    hide Le;
    assert forall c :: 0 < c < n ==> Parent(c) != i;
  }

  // ------------------------------------------------------------- the merge

  /** The next item of a stream becomes the value of its entry. */
  function Pulled(stream: seq<Bytes>): HeapEntry {
    if stream == [] then HeapEntry(None, []) else HeapEntry(Some(stream[0]), stream[1..])
  }

  lemma PulledKeeps(less: Lesser, stream: seq<Bytes>)
    requires Ascending(less, stream)
    ensures SortedEntry(less, Pulled(stream)) && ItemsOf(Pulled(stream)) == multiset(stream)
  {
    hide Le;
    if stream != [] { assert [stream[0]] + stream[1..] == stream; }
  }

  lemma TailAscends(less: Lesser, e: HeapEntry)
    requires SortedEntry(less, e) && e.value.Some?
    ensures Ascending(less, e.stream)
    ensures forall x :: x in e.stream ==> Le(less, e.value.value, x)
  {
    hide Le;
    var s := [e.value.value] + e.stream;
    assert forall i :: 0 <= i < |e.stream| ==> s[i + 1] == e.stream[i];
    forall i, j | 0 <= i < j < |e.stream| ensures Le(less, e.stream[i], e.stream[j]) {
      assert Le(less, s[i + 1], s[j + 1]);
    }
    forall x | x in e.stream ensures Le(less, e.value.value, x) {
      var i :| 0 <= i < |e.stream| && e.stream[i] == x;
      assert Le(less, s[0], s[i + 1]);
    }
  }

  lemma {:induction false} LeastOfAll(less: Lesser, s: seq<HeapEntry>, x: Bytes, y: Bytes)
    requires WeakOrder(less) && EntriesSorted(less, s) && y in AllItems(s)
    requires forall i :: 0 <= i < |s| ==> s[i].value.Some? && Le(less, x, s[i].value.value)
    ensures Le(less, x, y)
    decreases |s|
  {
    hide WeakOrder, Le, SortedEntry;
    var k := |s| - 1;
    if y in AllItems(s[..k]) {
      LeastOfAll(less, s[..k], x, y);
    } else {
      var e := s[k];
      TailAscends(less, e);
      if y != e.value.value { LeTrans(less, x, e.value.value, y); }
    }
  }

  class MultiWayMerge {
    const less: Lesser
    var entries: seq<HeapEntry>

    ghost predicate Valid()
      reads this
    {
      && WeakOrder(less) && EntriesSorted(less, entries)
      && Loaded(entries, |entries|) && Heap(less, entries, |entries|, 0, -1)
    }

    /** Empty streams are left out from the start. */
    constructor (streams: seq<seq<Bytes>>, less: Lesser)
      requires WeakOrder(less) && forall i :: 0 <= i < |streams| ==> Ascending(less, streams[i])
      ensures Valid() && this.less == less && AllItems(entries) == Total(streams)
    {
      var es := Collect(streams, less);
      es := Heapify(es, less);
      this.less, this.entries := less, es;
    }

    /** The least item, unless all streams are exhausted. Only streams that are not are
        compared. */
    method Next() returns (r: Option<Bytes>)
      requires Valid()
      modifies this
      ensures Valid()
      ensures r.None? <==> old(entries) == []
      ensures r.None? ==> entries == []
      ensures r.Some? ==> AllItems(old(entries)) == AllItems(entries) + multiset{r.value}
      ensures r.Some? ==> forall y :: y in AllItems(old(entries)) ==> Le(less, r.value, y)
    {
      hide WeakOrder, Le, AllItems, SortedEntry;
      if |entries| == 0 {
        return None;
      }
      var result := entries[0].value.value;
      FirstIsLeast(less, entries);
      var next := Pulled(entries[0].stream);
      PulledFirst(less, entries);
      if next.value.None? {
        RemoveRoot(next);
      } else {
        entries := entries[0 := next];
        HoleAtRoot(less, entries);
        entries := Down(less, entries, 0, |entries|);
      }
      return Some(result);
    }

    /** Takes the exhausted stream at the root out of the heap. */
    method RemoveRoot(exhausted: HeapEntry)
      requires Valid() && entries != [] && ItemsOf(exhausted) == multiset{} && SortedEntry(less, exhausted)
      modifies this
      ensures Valid() && AllItems(entries) + ItemsOf(old(entries)[0]) == AllItems(old(entries))
    {
      hide WeakOrder, Le, AllItems, SortedEntry, ItemsOf;
      var n := |entries| - 1;
      ghost var before := entries;
      UpdateItems(entries, 0, exhausted);
      entries := entries[0 := exhausted];
      SwapItems(entries, 0, n);
      entries := Swapped(entries, 0, n);
      DropLast(entries, exhausted);
      if n > 0 {
        HoleAfterSwap(less, before, entries);
        entries := Down(less, entries, 0, n);
        DropLast(entries, exhausted);
        HeapPrefix(less, entries, n);
      }
      entries := entries[..n];
    }
  }

  function Total(streams: seq<seq<Bytes>>): multiset<Bytes> {
    if streams == [] then multiset{} else Total(streams[..|streams| - 1]) + multiset(streams[|streams| - 1])
  }

  method Collect(streams: seq<seq<Bytes>>, ghost less: Lesser) returns (es: seq<HeapEntry>)
    requires forall i :: 0 <= i < |streams| ==> Ascending(less, streams[i])
    ensures Loaded(es, |es|) && EntriesSorted(less, es) && AllItems(es) == Total(streams)
  {
    hide Ascending, SortedEntry, ItemsOf;
    es := [];
    for i := 0 to |streams|
      invariant Loaded(es, |es|) && EntriesSorted(less, es) && AllItems(es) == Total(streams[..i])
    {
      var e := Pulled(streams[i]);
      PulledKeeps(less, streams[i]);
      assert streams[..i + 1][..i] == streams[..i];
      if e.value.Some? {
        assert (es + [e])[..|es|] == es;
        es := es + [e];
      } else {
        assert multiset(streams[i]) == multiset{};
      }
    }
    assert streams[..|streams|] == streams;
  }

  method Heapify(es: seq<HeapEntry>, less: Lesser) returns (t: seq<HeapEntry>)
    requires WeakOrder(less) && Loaded(es, |es|) && EntriesSorted(less, es)
    ensures |t| == |es| && Loaded(t, |t|) && EntriesSorted(less, t) && Heap(less, t, |t|, 0, -1)
    ensures AllItems(t) == AllItems(es)
  {
    hide WeakOrder, Le, AllItems, SortedEntry;
    t := es;
    var n := |es|;
    var i := n / 2 - 1;
    assert Heap(less, t, n, n / 2, -1);
    while i >= 0
      invariant -1 <= i < n && |t| == n && Loaded(t, n) && EntriesSorted(less, t) && AllItems(t) == AllItems(es)
      invariant Heap(less, t, n, i + 1, -1)
    {
      t := Down(less, t, i, n);
      i := i - 1;
    }
  }

  /** Taking items until none is left gives all of them, in order. */
  method Drain(m: MultiWayMerge) returns (out: seq<Bytes>)
    requires m.Valid()
    modifies m
    ensures Ascending(m.less, out) && multiset(out) == AllItems(old(m.entries))
  {
    hide WeakOrder, Le, AllItems, EntriesSorted, Heap, Loaded;
    out := [];
    ghost var all := AllItems(m.entries);
    while true
      invariant m.Valid() && multiset(out) + AllItems(m.entries) == all && Ascending(m.less, out)
      invariant forall i, y :: 0 <= i < |out| && y in AllItems(m.entries) ==> Le(m.less, out[i], y)
      decreases |AllItems(m.entries)|
    {
      ghost var before := AllItems(m.entries);
      var r := m.Next();
      if r.None? {
        NoItems();
        return;
      }
      OneLess(before, AllItems(m.entries), r.value);
      out := out + [r.value];
    }
  }

  lemma NoItems()
    ensures AllItems([]) == multiset{}
  {
  }

  lemma OneLess(before: multiset<Bytes>, after: multiset<Bytes>, x: Bytes)
    requires before == after + multiset{x}
    ensures |after| < |before| && x in before && forall y :: y in after ==> y in before
  {
  }

  lemma FirstIsLeast(less: Lesser, s: seq<HeapEntry>)
    requires WeakOrder(less) && EntriesSorted(less, s) && s != [] && Loaded(s, |s|) && Heap(less, s, |s|, 0, -1)
    ensures forall y :: y in AllItems(s) ==> Le(less, s[0].value.value, y)
  {
    hide WeakOrder, Le, AllItems, SortedEntry, Heap;
    forall i | 0 <= i < |s| ensures Le(less, s[0].value.value, s[i].value.value) { RootIsLeast(less, s, |s|, i); }
    forall y | y in AllItems(s) ensures Le(less, s[0].value.value, y) { LeastOfAll(less, s, s[0].value.value, y); }
  }

  lemma PulledFirst(less: Lesser, s: seq<HeapEntry>)
    requires EntriesSorted(less, s) && s != [] && s[0].value.Some?
    ensures var e := Pulled(s[0].stream);
      && SortedEntry(less, e) && ItemsOf(s[0]) == ItemsOf(e) + multiset{s[0].value.value}
      && AllItems(s) == AllItems(s[0 := e]) + multiset{s[0].value.value}
      && EntriesSorted(less, s[0 := e]) && (e.value.None? ==> ItemsOf(e) == multiset{})
  {
    hide Le, AllItems;
    TailAscends(less, s[0]);
    PulledKeeps(less, s[0].stream);
    var e := Pulled(s[0].stream);
    UpdateItems(s, 0, e);
    var x := multiset{s[0].value.value};
    assert (AllItems(s[0 := e]) + x) + ItemsOf(e) == AllItems(s) + ItemsOf(e);
    Cancel(AllItems(s), AllItems(s[0 := e]) + x, ItemsOf(e));
  }

  lemma HoleAtRoot(less: Lesser, s: seq<HeapEntry>)
    requires Loaded(s, |s|)
    requires forall j :: 0 < j < |s| && Parent(j) > 0 ==> Le(less, s[Parent(j)].value.value, s[j].value.value)
    ensures Heap(less, s, |s|, 0, 0)
  {
    hide Le;
  }

  lemma HoleAfterSwap(less: Lesser, before: seq<HeapEntry>, s: seq<HeapEntry>)
    requires |s| == |before| > 1 && Loaded(before, |before|) && Heap(less, before, |before|, 0, -1)
    requires s[0] == before[|s| - 1] && forall i :: 0 < i < |s| - 1 ==> s[i] == before[i]
    ensures Loaded(s, |s| - 1) && Heap(less, s, |s| - 1, 0, 0)
  {
    hide Le;
  }

  lemma HeapPrefix(less: Lesser, s: seq<HeapEntry>, n: nat)
    requires Loaded(s, n) && Heap(less, s, n, 0, -1)
    ensures Loaded(s[..n], n) && Heap(less, s[..n], n, 0, -1)
  {
    hide Le;
  }

  lemma DropLast(s: seq<HeapEntry>, e: HeapEntry)
    requires s != [] && s[|s| - 1] == e && ItemsOf(e) == multiset{}
    ensures AllItems(s[..|s| - 1]) == AllItems(s)
  {
    hide ItemsOf;
  }
}
