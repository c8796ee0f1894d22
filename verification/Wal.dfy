/** Variable-length unsigned integers: seven bits a byte, low bits first. */
module Varint {
  import opened Bytes

  /** The values that still fit in 64 bits after `i` bytes. */
  function Limit(i: nat): (n: nat)
    requires i <= 9
    ensures n >= 2
    decreases 9 - i
  {
    if i == 9 then 2 else 0x80 * Limit(i + 1)
  }

  lemma LimitIs64Bits()
    ensures Limit(0) == TWO_64
  {
    assert Limit(6) == 0x80 * 0x80 * 0x80 * 2;
    assert Limit(3) == 0x80 * 0x80 * 0x80 * Limit(6);
    assert Limit(0) == 0x80 * 0x80 * 0x80 * Limit(3);
  }

  /** A value and the number of bytes it took. No bytes: the buffer was too short. A
      negative number: the value does not fit in 64 bits. */
  function UvarintFrom(b: Bytes, i: nat): (r: (nat, int))
    ensures r.1 <= i + |b|
    decreases |b|
  {
    if b == [] then (0, 0)
    else if i == 10 then (0, -11)
    else if b[0] < 0x80 then if i == 9 && b[0] > 1 then (0, -10) else (b[0], i + 1)
    else
      var (v, n) := UvarintFrom(b[1..], i + 1);
      if n <= 0 then (0, n) else (b[0] - 0x80 + 0x80 * v, n)
  }

  function Uvarint(b: Bytes): (r: (nat, int))
    ensures r.1 <= |b|
  {
    UvarintFrom(b, 0)
  }

  lemma {:induction false} UvarintFromPut(x: nat, i: nat, rest: Bytes)
    requires i <= 9 && x < Limit(i)
    ensures UvarintFrom(PutUvarint(x) + rest, i) == (x, i + |PutUvarint(x)|)
    decreases x
  {
    if x >= 0x80 {
      var tail := PutUvarint(x / 0x80);
      UvarintFromPut(x / 0x80, i + 1, rest);
      assert (PutUvarint(x) + rest)[1..] == tail + rest;
    }
  }

  /** What was put is read back, whatever follows it. */
  lemma UvarintPut(x: nat, rest: Bytes)
    requires x < TWO_64
    ensures Uvarint(PutUvarint(x) + rest) == (x, |PutUvarint(x)|)
  {
    LimitIs64Bits();
    UvarintFromPut(x, 0, rest);
  }

  lemma {:induction false} UvarintFromCut(x: nat, i: nat, n: nat)
    requires i <= 9 && x < Limit(i) && n < |PutUvarint(x)|
    ensures UvarintFrom(PutUvarint(x)[..n], i) == (0, 0)
    decreases x
  {
    if n > 0 {
      UvarintFromCut(x / 0x80, i + 1, n - 1);
      assert PutUvarint(x)[..n][1..] == PutUvarint(x / 0x80)[..n - 1];
    }
  }

  /** Of a part of it nothing is read. */
  lemma UvarintCut(x: nat, n: nat)
    requires x < TWO_64 && n < |PutUvarint(x)|
    ensures Uvarint(PutUvarint(x)[..n]) == (0, 0)
  {
    LimitIs64Bits();
    UvarintFromCut(x, 0, n);
  }
}

/** The binary write-ahead log: entries preceded by their lengths, in segments of which
    the last may end in the middle of an entry. */
module Wal {
  import opened Bytes
  import opened Varint

  function Encode(e: Bytes): (b: Bytes)
    ensures |b| >= 1
  {
    PutUvarint(|e|) + e
  }

  function Log(es: seq<Bytes>): Bytes {
    if es == [] then [] else Encode(es[0]) + Log(es[1..])
  }

  /** The length of the first entry and of its length prefix, or nothing if the data does
      not hold it whole. */
  function LoadNext(data: Bytes): (r: Option<(nat, nat)>)
    ensures r.Some? ==> 1 <= r.value.1 <= r.value.0 <= |data|
  {
    var (size, header) := Uvarint(data);
    if header <= 0 then None
    else if |data| - header < size then None
    else Some((header + size, header))
  }

  /** The entries that can be read, and the number of bytes they take. */
  function Entries(data: Bytes): (r: (seq<Bytes>, nat))
    ensures r.1 <= |data|
    decreases |data|
  {
    if data == [] then ([], 0)
    else
      var next := LoadNext(data);
      if next.None? then ([], 0)
      else
        var (n, header) := next.value;
        var rest := Entries(data[n..]);
        ([data[header..n]] + rest.0, n + rest.1)
  }

  method ReadEntries(file: Bytes) returns (entries: seq<Bytes>, torn: bool)
    ensures entries == Entries(file).0
    ensures torn <==> Entries(file).1 < |file|
  {
    hide LoadNext;
    entries := [];
    var data := file;
    while |data| > 0
      invariant |data| <= |file|
      invariant entries + Entries(data).0 == Entries(file).0
      invariant |file| - |data| + Entries(data).1 == Entries(file).1
    {
      var next := LoadNext(data);
      if next.None? {
        assert entries + [] == entries;
        return entries, true;
      }
      var (n, header) := next.value;
      entries := entries + [data[header..n]];
      data := data[n..];
    }
    torn := false;
  }

  /** The length to which a damaged file is cut. */
  method TruncateCorruptedTail(file: Bytes) returns (repaired: Bytes)
    ensures repaired == file[..Entries(file).1]
  {
    hide LoadNext;
    var data, pos := file, 0;
    while |data| > 0
      invariant |data| <= |file| && pos == |file| - |data|
      invariant pos + Entries(data).1 == Entries(file).1
      decreases |data|
    {
      var next := LoadNext(data);
      if next.None? {
        break;
      }
      data := data[next.value.0..];
      pos := pos + next.value.0;
    }
    if pos < |file| {
      return file[..pos];
    }
    return file;
  }

  /** How many entries lie whole before a cut. */
  function Complete(es: seq<Bytes>, cut: nat): (n: nat)
    ensures n <= |es|
  {
    if es == [] || |Encode(es[0])| > cut then 0 else 1 + Complete(es[1..], cut - |Encode(es[0])|)
  }

  lemma LoadWhole(e: Bytes, rest: Bytes)
    requires |e| < TWO_64
    ensures LoadNext(Encode(e) + rest) == Some((|Encode(e)|, |PutUvarint(|e|)|))
    ensures (Encode(e) + rest)[|PutUvarint(|e|)|..|Encode(e)|] == e && (Encode(e) + rest)[|Encode(e)|..] == rest
  {
    assert Encode(e) + rest == PutUvarint(|e|) + (e + rest);
    UvarintPut(|e|, e + rest);
  }

  lemma LoadCut(e: Bytes, cut: nat)
    requires |e| < TWO_64 && cut < |Encode(e)|
    ensures LoadNext(Encode(e)[..cut]) == None
  {
    var p := PutUvarint(|e|);
    if cut < |p| {
      assert Encode(e)[..cut] == p[..cut];
      UvarintCut(|e|, cut);
    } else {
      assert Encode(e)[..cut] == p + e[..cut - |p|];
      UvarintPut(|e|, e[..cut - |p|]);
    }
  }

  lemma EntriesWhole(e: Bytes, rest: Bytes)
    requires |e| < TWO_64
    ensures Entries(Encode(e) + rest) == ([e] + Entries(rest).0, |Encode(e)| + Entries(rest).1)
  {
    hide LoadNext, Encode;
    LoadWhole(e, rest);
  }

  lemma EntriesCut(e: Bytes, cut: nat)
    requires |e| < TWO_64 && cut < |Encode(e)|
    ensures Entries(Encode(e)[..cut]) == ([], 0)
  {
    hide LoadNext, Encode;
    LoadCut(e, cut);
  }

  lemma LogCut(es: seq<Bytes>, cut: nat)
    requires es != [] && cut <= |Log(es)|
    ensures var e := Encode(es[0]);
      if cut < |e| then Log(es)[..cut] == e[..cut]
      else cut - |e| <= |Log(es[1..])| && Log(es)[..cut] == e + Log(es[1..])[..cut - |e|]
  {
    hide Encode;
  }

  lemma LogFirst(es: seq<Bytes>, k: nat)
    requires es != [] && k < |es|
    ensures es[..k + 1] == [es[0]] + es[1..][..k] && Log(es[..k + 1]) == Encode(es[0]) + Log(es[1..][..k])
  {
    hide Encode;
    assert es[..k + 1][1..] == es[1..][..k];
  }

  /** Wherever a log is cut, the entries read are those that are whole before the cut, and
      the bytes they take end at the last entry boundary before it. */
  lemma {:induction false} CutLog(es: seq<Bytes>, cut: nat)
    requires cut <= |Log(es)| && forall i :: 0 <= i < |es| ==> |es[i]| < TWO_64
    ensures var k := Complete(es, cut);
      Entries(Log(es)[..cut]) == (es[..k], |Log(es[..k])|)
    decreases |es|
  {
    hide Encode, Log, Entries;
    if es == [] {
      NothingLogged(es);
      return;
    }
    LogCut(es, cut);
    var e := |Encode(es[0])|;
    if cut < e {
      EntriesCut(es[0], cut);
      NothingLogged(es[..0]);
      return;
    }
    var rest := es[1..];
    var tail, k := Log(rest)[..cut - e], Complete(rest, cut - e);
    CutLog(rest, cut - e);
    EntriesWhole(es[0], tail);
    LogFirst(es, k);
  }

  lemma NothingLogged(es: seq<Bytes>)
    requires es == []
    ensures Log(es) == [] && Entries(Log(es)[..0]) == ([], 0)
  {
  }

  /** Repairing a cut log leaves the log of the whole entries. */
  lemma {:induction false} RepairedLog(es: seq<Bytes>, cut: nat)
    requires cut <= |Log(es)|
    ensures var k := Complete(es, cut);
      |Log(es[..k])| <= cut && Log(es)[..cut][..|Log(es[..k])|] == Log(es[..k])
    decreases |es|
  {
    if es != [] && |Encode(es[0])| <= cut {
      hide Encode, Log;
      var e := |Encode(es[0])|;
      LogCut(es, cut);
      RepairedLog(es[1..], cut - e);
      LogFirst(es, Complete(es[1..], cut - e));
    }
  }

  lemma {:induction false} CompleteAll(es: seq<Bytes>)
    ensures Complete(es, |Log(es)|) == |es|
    decreases |es|
  {
    if es != [] { CompleteAll(es[1..]); }
  }

  /** A whole log reads as its entries. */
  lemma WholeLog(es: seq<Bytes>)
    requires forall i :: 0 <= i < |es| ==> |es[i]| < TWO_64
    ensures Entries(Log(es)) == (es, |Log(es)|)
  {
    hide Log, Entries, Complete;
    CompleteAll(es);
    CutLog(es, |Log(es)|);
    assert es[..|es|] == es && Log(es)[..|Log(es)|] == Log(es);
  }
}

/** Reading a log that another process may be writing: the tail segment is read when the
    log is opened, of the others the one read last is kept. */
module ReadOnlyLog {
  import opened Bytes
  import opened Wal

  datatype Segment = Segment(index: nat, file: Bytes)
  datatype ReadResult = Closed | NotFound | Corrupt | Found(data: Bytes)

  /** The number of segments up to the last that starts at or before an index. */
  function SegmentFor(segments: seq<Segment>, index: nat): (n: nat)
    ensures n <= |segments|
    ensures n > 0 ==> segments[n - 1].index <= index
    ensures n < |segments| ==> segments[n].index > index
  {
    if segments == [] || segments[|segments| - 1].index <= index then |segments|
    else SegmentFor(segments[..|segments| - 1], index)
  }

  function LastIndex(segments: seq<Segment>): int
    requires segments != []
  {
    var tail := segments[|segments| - 1];
    tail.index + |Entries(tail.file).0| - 1
  }

  /** What a read finds in the files. Only the tail may end in a torn entry. */
  function ReadFiles(segments: seq<Segment>, index: nat): ReadResult {
    if segments == [] || index == 0 || index < segments[0].index || index > LastIndex(segments) then NotFound
    else
      var k := SegmentFor(segments, index) - 1;
      if k < 0 then NotFound
      else
        var es := Entries(segments[k].file);
        if k < |segments| - 1 && es.1 < |segments[k].file| then Corrupt
        else if index - segments[k].index >= |es.0| then Corrupt
        else Found(es.0[index - segments[k].index])
  }

  class ReadOnlyWal {
    const segments: seq<Segment>
    const firstIndex: nat
    const lastIndex: int
    // the entries of a segment; none if they are not loaded
    var loaded: seq<seq<Bytes>>
    var cached: Option<nat>
    var closed: bool

    ghost predicate Valid()
      reads this
    {
      var n := |segments|;
      && |loaded| == n
      && (n == 0 ==> firstIndex == lastIndex == 0)
      && (n > 0 ==> firstIndex == segments[0].index && lastIndex == LastIndex(segments))
      && (n > 0 ==> loaded[n - 1] == Entries(segments[n - 1].file).0)
      && (cached.Some? ==> cached.value < n - 1)
      && forall k :: 0 <= k < n - 1 && loaded[k] != [] ==>
           && cached == Some(k)
           && Entries(segments[k].file) == (loaded[k], |segments[k].file|)
    }

    constructor (segments: seq<Segment>)
      ensures Valid() && this.segments == segments && !closed
    {
      this.segments, this.closed, this.cached := segments, false, None;
      if segments == [] {
        this.firstIndex, this.lastIndex, this.loaded := 0, 0, [];
      } else {
        var tail := segments[|segments| - 1];
        var entries, _ := ReadEntries(tail.file);
        this.firstIndex, this.lastIndex := segments[0].index, tail.index + |entries| - 1;
        this.loaded := seq(|segments| - 1, _ => []) + [entries];
      }
    }

    /** A read finds what is in the files, whatever was read before. */
    method Read(index: nat) returns (r: ReadResult)
      requires Valid()
      modifies this
      ensures Valid() && closed == old(closed)
      ensures r == if closed then Closed else ReadFiles(segments, index)
    {
      hide Entries;
      if closed {
        return Closed;
      }
      if index == 0 || index < firstIndex || index > lastIndex {
        return NotFound;
      }
      FirstIsAtOrBefore(segments, index);
      var k := SegmentFor(segments, index) - 1;
      if loaded[k] == [] {
        var entries, torn := ReadEntries(segments[k].file);
        if torn {
          return Corrupt;
        }
        Keep(k, entries);
      }
      var offset := index - segments[k].index;
      if offset >= |loaded[k]| {
        return Corrupt;
      }
      return Found(loaded[k][offset]);
    }

    /** Lets go of the segment kept so far. */
    method Keep(k: nat, entries: seq<Bytes>)
      requires Valid() && k < |segments| - 1 && loaded[k] == []
      requires Entries(segments[k].file) == (entries, |segments[k].file|)
      modifies this
      ensures Valid() && closed == old(closed) && loaded[k] == entries
    {
      hide Entries;
      if cached.Some? {
        loaded := loaded[cached.value := []];
      }
      loaded, cached := loaded[k := entries], Some(k);
    }
  }

  lemma FirstIsAtOrBefore(segments: seq<Segment>, index: nat)
    requires segments != [] && segments[0].index <= index
    ensures SegmentFor(segments, index) > 0
  {
    if segments[|segments| - 1].index > index {
      FirstIsAtOrBefore(segments[..|segments| - 1], index);
    }
  }

  // ----------------------------------------------------- segments of one log

  function Concat(parts: seq<seq<Bytes>>): seq<Bytes> {
    if parts == [] then [] else Concat(parts[..|parts| - 1]) + parts[|parts| - 1]
  }

  /** The segments hold the parts of one log, which starts at index `first`; all parts but
      the last are whole. */
  ghost predicate Holds(segments: seq<Segment>, parts: seq<seq<Bytes>>, first: nat) {
    && |segments| == |parts|
    && (forall k :: 0 <= k < |parts| ==> segments[k].index == first + |Concat(parts[..k])|)
    && (forall k :: 0 <= k < |parts| ==> Entries(segments[k].file).0 == parts[k])
    && (forall k :: 0 <= k < |parts| - 1 ==> Entries(segments[k].file).1 == |segments[k].file|)
  }

  lemma ConcatStep(parts: seq<seq<Bytes>>, k: nat)
    requires k < |parts|
    ensures Concat(parts[..k + 1]) == Concat(parts[..k]) + parts[k]
  {
    assert parts[..k + 1][..k] == parts[..k];
  }

  lemma {:induction false} ConcatPrefix(parts: seq<seq<Bytes>>, k: nat)
    requires k <= |parts|
    ensures |Concat(parts[..k])| <= |Concat(parts)| && Concat(parts)[..|Concat(parts[..k])|] == Concat(parts[..k])
    decreases |parts|
  {
    if k == |parts| {
      assert parts[..k] == parts;
    } else {
      ConcatPrefix(parts[..|parts| - 1], k);
      assert parts[..|parts| - 1][..k] == parts[..k];
    }
  }

  lemma ConcatAt(parts: seq<seq<Bytes>>, k: nat, offset: nat)
    requires k < |parts| && offset < |parts[k]|
    ensures |Concat(parts[..k])| + offset < |Concat(parts)|
    ensures Concat(parts)[|Concat(parts[..k])| + offset] == parts[k][offset]
  {
    hide Concat;
    ConcatStep(parts, k);
    ConcatPrefix(parts, k + 1);
    var n := |Concat(parts[..k + 1])|;
    assert Concat(parts)[|Concat(parts[..k])| + offset] == Concat(parts)[..n][|Concat(parts[..k])| + offset];
  }

  /** Reading by index from segments is indexing the log. */
  lemma ReadIndexesLog(segments: seq<Segment>, parts: seq<seq<Bytes>>, first: nat, index: nat)
    requires Holds(segments, parts, first) && first >= 1 && parts != []
    ensures ReadFiles(segments, index)
         == if first <= index < first + |Concat(parts)| then Found(Concat(parts)[index - first]) else NotFound
  {
    hide Concat, Entries;
    var n := |parts|;
    assert parts[..n] == parts;
    ConcatStep(parts, n - 1);
    ConcatOfNothing(parts);
    assert LastIndex(segments) == first + |Concat(parts)| - 1;
    if first <= index < first + |Concat(parts)| {
      FirstIsAtOrBefore(segments, index);
      var k := SegmentFor(segments, index) - 1;
      ConcatStep(parts, k);
      ConcatAt(parts, k, index - segments[k].index);
    }
  }

  lemma ConcatOfNothing(parts: seq<seq<Bytes>>)
    ensures Concat(parts[..0]) == []
  {
  }

  /** Segments that a writer leaves behind: logs, of which the last may be cut anywhere.
      What is read is the log up to the last whole entry. */
  lemma WrittenSegments(segments: seq<Segment>, written: seq<seq<Bytes>>, cut: nat, first: nat)
    requires |segments| == |written| > 0
    requires forall k, i :: 0 <= k < |written| && 0 <= i < |written[k]| ==> |written[k][i]| < TWO_64
    requires forall k :: 0 <= k < |written| ==> segments[k].index == first + |Concat(written[..k])|
    requires forall k :: 0 <= k < |written| - 1 ==> segments[k].file == Log(written[k])
    requires var t := |written| - 1; cut <= |Log(written[t])| && segments[t].file == Log(written[t])[..cut]
    ensures var t := |written| - 1;
      Holds(segments, written[t := written[t][..Complete(written[t], cut)]], first)
  {
    hide Concat, Entries, Log, Complete;
    var t := |written| - 1;
    var parts := written[t := written[t][..Complete(written[t], cut)]];
    CutLog(written[t], cut);
    forall k | 0 <= k < |parts| - 1 ensures Entries(segments[k].file) == (parts[k], |segments[k].file|) {
      WholeLog(written[k]);
    }
    forall k | 0 <= k < |parts| ensures segments[k].index == first + |Concat(parts[..k])| {
      assert parts[..k] == written[..k];
    }
  }
}
