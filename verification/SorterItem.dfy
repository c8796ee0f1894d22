/** Items of the external sorter: the pair of one version, with key and version in front,
    and the orders on them. */
module SorterItems {
  import opened Bytes
  import opened ChangeSets
  import opened Merges

  const SIZE_KEY_LENGTH := 4
  const TIMESTAMP_SIZE := 8

  function EncodeSorterItem(version: nat, p: Pair): (b: Bytes)
    ensures |b| == |p.key| + TIMESTAMP_SIZE + 1 + SIZE_KEY_LENGTH + (if p.delete then 0 else |p.value|)
  {
    p.key + PutLE(version, 8) + (if p.delete then [1] else [0] + p.value) + PutLE(|p.key|, 4)
  }

  /** The key and the version of an item; nothing if the item is too short for them. */
  function SortKey(item: Bytes): Option<(Bytes, nat)> {
    if |item| < SIZE_KEY_LENGTH then None
    else
      var n := GetLE(item[|item| - SIZE_KEY_LENGTH..]);
      if n + TIMESTAMP_SIZE > |item| then None
      else Some((item[..n], GetLE(item[n..n + TIMESTAMP_SIZE])))
  }

  function DecodeSorterItem(item: Bytes): Option<(Bytes, Pair)> {
    if |item| < SIZE_KEY_LENGTH then None
    else
      var end := |item| - SIZE_KEY_LENGTH;
      var n := GetLE(item[end..]);
      var at := n + TIMESTAMP_SIZE;
      if at >= |item| then None
      else if item[at] == 1 then Some((item[n..at], Pair(true, item[..n], [])))
      else if at + 1 > end then None
      else Some((item[n..at], Pair(false, item[..n], item[at + 1..end])))
  }

  /** Smaller keys first, and of one key the newer versions first. */
  predicate Before(a: (Bytes, nat), b: (Bytes, nat)) {
    Less(a.0, b.0) || (a.0 == b.0 && a.1 > b.1)
  }

  /** The order of the sorter. An item that cannot be decoded comes first. */
  predicate LessItem(a: Bytes, b: Bytes) {
    var x, y := SortKey(a), SortKey(b);
    if x.None? || y.None? then x.None? && y.Some? else Before(x.value, y.value)
  }

  lemma ItemParts(version: nat, p: Pair)
    requires version < TWO_64 && |p.key| < TWO_32
    ensures var item := EncodeSorterItem(version, p); var n, end := |p.key|, |item| - SIZE_KEY_LENGTH;
      && GetLE(item[end..]) == n && item[..n] == p.key
      && item[n..n + TIMESTAMP_SIZE] == PutLE(version, 8) && GetLE(item[n..n + TIMESTAMP_SIZE]) == version
      && item[n + TIMESTAMP_SIZE] == (if p.delete then 1 else 0)
      && (!p.delete ==> item[n + TIMESTAMP_SIZE + 1..end] == p.value)
  {
    hide PutLE, GetLE;
    Pow256Widths();
    GetPutLE(version, 8);
    GetPutLE(|p.key|, 4);
    var mid := if p.delete then [1] else [0] + p.value;
    FourParts(p.key, PutLE(version, 8), mid, PutLE(|p.key|, 4));
    var item, at := EncodeSorterItem(version, p), |p.key| + TIMESTAMP_SIZE;
    assert item[at] == item[at..at + |mid|][0];
    assert !p.delete ==> item[at..at + |mid|][1..] == p.value;
    assert item[at..at + |mid|][1..] == item[at + 1..at + |mid|];
  }

  lemma FourParts(a: Bytes, b: Bytes, c: Bytes, d: Bytes)
    ensures var s := a + b + c + d; var i, j := |a| + |b|, |a| + |b| + |c|;
      s[..|a|] == a && s[|a|..i] == b && s[i..j] == c && s[j..] == d
  {
  }

  /** An item is read back. */
  lemma DecodeSorterItemBack(version: nat, p: Pair)
    requires version < TWO_64 && |p.key| < TWO_32
    ensures DecodeSorterItem(EncodeSorterItem(version, p)) == Some((PutLE(version, 8), Plain(p)))
    ensures SortKey(EncodeSorterItem(version, p)) == Some((p.key, version))
  {
    hide PutLE, GetLE;
    ItemParts(version, p);
  }

  lemma LessItemIsBefore(v: nat, p: Pair, w: nat, q: Pair)
    requires v < TWO_64 && w < TWO_64 && |p.key| < TWO_32 && |q.key| < TWO_32
    ensures LessItem(EncodeSorterItem(v, p), EncodeSorterItem(w, q)) <==> Before((p.key, v), (q.key, w))
  {
    hide SortKey, Before, EncodeSorterItem;
    DecodeSorterItemBack(v, p);
    DecodeSorterItemBack(w, q);
  }

  // ------------------------------------- the comparator of the database

  /** Timestamps as little-endian numbers; an unset one is smaller than any other. */
  function CompareTS(a: Option<Bytes>, b: Option<Bytes>): int {
    if a.None? && b.None? then 0
    else if b.None? then 1
    else if a.None? then -1
    else
      var x, y := GetLE(a.value), GetLE(b.value);
      if x < y then -1 else if x > y then 1 else 0
  }

  function CompareWithoutTS(a: Bytes, aHasTS: bool, b: Bytes, bHasTS: bool): int
    requires (aHasTS ==> |a| >= TIMESTAMP_SIZE) && (bHasTS ==> |b| >= TIMESTAMP_SIZE)
  {
    Compare(if aHasTS then a[..|a| - TIMESTAMP_SIZE] else a, if bHasTS then b[..|b| - TIMESTAMP_SIZE] else b)
  }

  function CompareKeys(a: Bytes, b: Bytes): int
    requires |a| >= TIMESTAMP_SIZE && |b| >= TIMESTAMP_SIZE
  {
    var r := CompareWithoutTS(a, true, b, true);
    if r != 0 then r
    else -CompareTS(Some(a[|a| - TIMESTAMP_SIZE..]), Some(b[|b| - TIMESTAMP_SIZE..]))
  }

  /** A key as the database stores it. */
  function Stored(key: Bytes, version: nat): (b: Bytes)
    ensures |b| == |key| + TIMESTAMP_SIZE
  {
    key + PutLE(version, 8)
  }

  /** The comparator orders by key, then by version with the newest first, and tells all
      different keys and versions apart. */
  lemma CompareKeysIsBefore(k: Bytes, v: nat, l: Bytes, w: nat)
    requires v < TWO_64 && w < TWO_64
    ensures CompareKeys(Stored(k, v), Stored(l, w)) < 0 <==> Before((k, v), (l, w))
    ensures CompareKeys(Stored(k, v), Stored(l, w)) == 0 <==> k == l && v == w
    ensures CompareKeys(Stored(k, v), Stored(l, w)) == -CompareKeys(Stored(l, w), Stored(k, v))
  {
    StoredParts(k, v);
    StoredParts(l, w);
    CompareFlips(k, l);
    CompareFlips(l, k);
    hide PutLE, GetLE, Stored;
  }

  lemma StoredParts(k: Bytes, v: nat)
    requires v < TWO_64
    ensures var b := Stored(k, v);
      b[..|b| - TIMESTAMP_SIZE] == k && GetLE(b[|b| - TIMESTAMP_SIZE..]) == v
  {
    Pow256Widths();
    GetPutLE(v, 8);
    hide PutLE, GetLE;
    var b := Stored(k, v);
    assert b[|b| - TIMESTAMP_SIZE..] == PutLE(v, 8);
  }

  /** The sorter delivers items in the order that the database demands. */
  lemma SorterOrderIsDatabaseOrder(v: nat, p: Pair, w: nat, q: Pair)
    requires v < TWO_64 && w < TWO_64 && |p.key| < TWO_32 && |q.key| < TWO_32
    ensures LessItem(EncodeSorterItem(v, p), EncodeSorterItem(w, q))
      <==> CompareKeys(Stored(p.key, v), Stored(q.key, w)) < 0
  {
    hide LessItem, CompareKeys, Before, EncodeSorterItem, Stored;
    LessItemIsBefore(v, p, w, q);
    CompareKeysIsBefore(p.key, v, q.key, w);
  }

  /** The order of the sorter is one that can be sorted by. */
  lemma LessItemIsWeakOrder()
    ensures WeakOrder(LessItem)
  {
    LessIsTotalOrder();
    hide Less, SortKey;
  }
}
