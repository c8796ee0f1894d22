/** Delta coding of a sequence of items: what an item shares with the one before is not
    written again. */
module Deltas {
  import opened Bytes
  import opened Varint
  import opened ChangeSets

  /** The length of the longest common prefix. */
  function Shared(a: Bytes, b: Bytes): (n: nat)
    ensures n <= |a| && n <= |b| && a[..n] == b[..n]
    ensures n < |a| && n < |b| ==> a[n] != b[n]
  {
    if a == [] || b == [] || a[0] != b[0] then 0
    else
      var n := 1 + Shared(a[1..], b[1..]);
      assert a[..n] == [a[0]] + a[1..][..n - 1] && b[..n] == [b[0]] + b[1..][..n - 1];
      n
  }

  lemma SharedIs(a: Bytes, b: Bytes, n: nat)
    requires n <= |a| && n <= |b| && a[..n] == b[..n]
    requires n < |a| && n < |b| ==> a[n] != b[n]
    ensures Shared(a, b) == n
  {
    hide Shared;
    var m := Shared(a, b);
    assert forall i :: 0 <= i < n ==> a[..n][i] == b[..n][i];
    assert forall i :: 0 <= i < m ==> a[..m][i] == b[..m][i];
  }

  method DiffOffset(a: Bytes, b: Bytes) returns (off: nat)
    ensures off == Shared(a, b)
  {
    hide Shared;
    off := 0;
    var l := if |a| < |b| then |a| else |b|;
    while off < l
      invariant off <= l && a[..off] == b[..off]
    {
      if a[off] != b[off] {
        break;
      }
      off := off + 1;
    }
    SharedIs(a, b, off);
  }

  function EncodeItem(last: Bytes, key: Bytes): (b: Bytes)
    ensures |b| >= 2
  {
    var n := Shared(last, key);
    PutUvarint(n) + PutUvarint(|key| - n) + key[n..]
  }

  /** An item is taken apart by slices; one of them is out of range if more is shared than the
      last item has, or if the sum of the lengths does not fit in 64 bits. */
  predicate OutOfRange(last: Bytes, shared: nat, nonShared: nat) {
    shared > |last| || shared + nonShared >= TWO_64
  }

  /** Nothing at all stands for a slice out of range, which ends the process. */
  function DecodeItem(last: Bytes, b: Bytes): (r: Option<Outcome<Bytes>>)
    ensures r.Some? && r.value.Got? ==> |r.value.rest| < |b|
  {
    match ReadUvarint(b)
    case Eof => Some(Eof)
    case Bad => Some(Bad)
    case Got(n, rest) =>
      match ReadUvarint(rest)
      case Eof => Some(Eof)
      case Bad => Some(Bad)
      case Got(m, rest') =>
        if OutOfRange(last, n, m) then None
        else
          match ReadFull(rest', m)
          case Eof => Some(Eof)
          case Bad => Some(Bad)
          case Got(tail, rest'') => Some(Got(last[..n] + tail, rest''))
  }

  lemma DecodeItemBack(last: Bytes, key: Bytes, rest: Bytes)
    requires |key| < TWO_64
    ensures DecodeItem(last, EncodeItem(last, key) + rest) == Some(Got(key, rest))
  {
    hide PutUvarint, ReadUvarint, Shared;
    var n := Shared(last, key);
    var x, y, tail := PutUvarint(n), PutUvarint(|key| - n), key[n..];
    assert EncodeItem(last, key) + rest == x + (y + tail + rest);
    ReadUvarintBack(n, y + tail + rest);
    assert y + tail + rest == y + (tail + rest);
    ReadUvarintBack(|tail|, tail + rest);
    assert (tail + rest)[..|tail|] == tail && (tail + rest)[|tail|..] == rest;
    assert tail == [] ==> tail + rest == rest;
    assert last[..n] + tail == key;
  }

  lemma ReadUvarintBack(x: nat, rest: Bytes)
    requires x < TWO_64
    ensures ReadUvarint(PutUvarint(x) + rest) == Got(x, rest)
  {
    UvarintPut(x, rest);
    assert (PutUvarint(x) + rest)[|PutUvarint(x)|..] == rest;
  }

  class DeltaEncoder {
    var last: Bytes

    constructor ()
      ensures last == []
    {
      last := [];
    }

    method Write(out: Bytes, key: Bytes) returns (out': Bytes)
      modifies this
      ensures out' == out + EncodeItem(old(last), key) && last == key
    {
      hide PutUvarint, Shared;
      var shared := DiffOffset(last, key);
      var nonShared := |key| - shared;
      out' := out + (PutUvarint(shared) + PutUvarint(nonShared));
      out' := out' + key[shared..];
      assert out' == out + EncodeItem(last, key);
      last := key;
    }
  }

  class DeltaDecoder {
    var last: Bytes

    constructor ()
      ensures last == []
    {
      last := [];
    }

    method Read(input: Bytes) returns (r: Option<Outcome<Bytes>>)
      modifies this
      ensures r == DecodeItem(old(last), input)
      ensures last == if r.Some? && r.value.Got? then r.value.value else old(last)
    {
      hide Uvarint;
      var shared := ReadUvarint(input);
      if shared.Eof? {
        return Some(Eof);
      } else if shared.Bad? {
        return Some(Bad);
      }
      var nonShared := ReadUvarint(shared.rest);
      if nonShared.Eof? {
        return Some(Eof);
      } else if nonShared.Bad? {
        return Some(Bad);
      }
      if OutOfRange(last, shared.value, nonShared.value) {
        return None;
      }
      var tail := ReadFull(nonShared.rest, nonShared.value);
      if tail.Eof? {
        return Some(Eof);
      } else if tail.Bad? {
        return Some(Bad);
      }
      last := last[..shared.value] + tail.value;
      return Some(Got(last, tail.rest));
    }
  }

  // ----------------------------------------------------------------- files

  function EncodeItems(last: Bytes, items: seq<Bytes>): Bytes
    decreases |items|
  {
    if items == [] then [] else EncodeItem(last, items[0]) + EncodeItems(items[0], items[1..])
  }

  /** All items of a file, if it is read without an error. */
  function DecodeItems(last: Bytes, b: Bytes): Option<seq<Bytes>>
    decreases |b|
  {
    match DecodeItem(last, b)
    case None => None
    case Some(Eof) => Some([])
    case Some(Bad) => None
    case Some(Got(item, rest)) =>
      var r := DecodeItems(item, rest);
      if r.None? then None else Some([item] + r.value)
  }

  /** What is written with delta coding is read back, item by item. */
  lemma {:induction false} DecodeItemsBack(last: Bytes, items: seq<Bytes>)
    requires forall i :: 0 <= i < |items| ==> |items[i]| < TWO_64
    ensures DecodeItems(last, EncodeItems(last, items)) == Some(items)
    decreases |items|
  {
    hide EncodeItem, DecodeItem;
    if items == [] {
      NothingCoded(last);
      return;
    }
    DecodeItemBack(last, items[0], EncodeItems(items[0], items[1..]));
    DecodeItemsBack(items[0], items[1..]);
    assert [items[0]] + items[1..] == items;
  }

  lemma NothingCoded(last: Bytes)
    ensures DecodeItem(last, []) == Some(Eof)
  {
  }
}
