/** Change set files: for each version a header with the size of its payload, and the pairs. */
module ChangeSets {
  import opened Bytes
  import opened Varint

  datatype Pair = Pair(delete: bool, key: Bytes, value: Bytes)

  /** A deletion carries no value. */
  function Plain(p: Pair): Pair {
    if p.delete then Pair(true, p.key, []) else p
  }

  // ------------------------------------------------------------------ sizes

  /** The number of bits of a number. */
  function BitLength(x: nat): nat {
    if x == 0 then 0 else 1 + BitLength(x / 2)
  }

  function UvarintSize(x: nat): nat {
    var b := BitLength(x);
    var q, r := b / 7, b % 7;
    if r > 0 || q == 0 then q + 1 else q
  }

  lemma SevenBits(x: nat)
    requires x >= 0x80
    ensures BitLength(x) == 7 + BitLength(x / 0x80)
  {
    var a := x / 2;
    var b := a / 2;
    var c := b / 2;
    var d := c / 2;
    var e := d / 2;
    var f := e / 2;
    assert f / 2 == x / 0x80;
    assert BitLength(x) == 1 + BitLength(a) && BitLength(a) == 1 + BitLength(b) && BitLength(b) == 1 + BitLength(c);
    assert BitLength(c) == 1 + BitLength(d) && BitLength(d) == 1 + BitLength(e) && BitLength(e) == 1 + BitLength(f);
  }

  lemma ShortBits(x: nat)
    requires 0 < x < 0x80
    ensures 1 <= BitLength(x) <= 7
  {
    BitsBelow(x, 7, 0x80);
  }

  lemma {:induction false} BitsBelow(x: nat, n: nat, bound: nat)
    requires x < bound && bound == Power2(n)
    ensures BitLength(x) <= n
    decreases n
  {
    if n > 0 { BitsBelow(x / 2, n - 1, bound / 2); }
  }

  function Power2(n: nat): nat {
    if n == 0 then 1 else 2 * Power2(n - 1)
  }

  /** The size computed from the bit length is the number of bytes that are put. */
  lemma {:induction false} UvarintSizeIsLength(x: nat)
    ensures UvarintSize(x) == |PutUvarint(x)|
    decreases x
  {
    if x >= 0x80 {
      SevenBits(x);
      UvarintSizeIsLength(x / 0x80);
    } else if x > 0 {
      ShortBits(x);
    }
  }

  function EncodedSize(p: Pair): nat {
    var size := 1 + UvarintSize(|p.key|) + |p.key|;
    if p.delete then size else size + UvarintSize(|p.value|) + |p.value|
  }

  function EncodePair(p: Pair): Bytes {
    if p.delete then [1] + PutUvarint(|p.key|) + p.key
    else [0] + PutUvarint(|p.key|) + p.key + PutUvarint(|p.value|) + p.value
  }

  lemma SizeIsLength(p: Pair)
    ensures EncodedSize(p) == |EncodePair(p)| && EncodedSize(p) > 0
  {
    hide UvarintSize, PutUvarint;
    UvarintSizeIsLength(|p.key|);
    UvarintSizeIsLength(|p.value|);
  }

  // ---------------------------------------------------------------- reading

  /** What is read, and what remains; the end of the input; or another error, such as an
      input that ends in the middle. */
  datatype Outcome<T> = Got(value: T, rest: Bytes) | Eof | Bad

  function ReadUvarint(b: Bytes): (r: Outcome<nat>)
    ensures r.Got? ==> |r.rest| < |b|
  {
    if b == [] then Eof
    else var (v, n) := Uvarint(b); if n > 0 then Got(v, b[n..]) else Bad
  }

  function ReadFull(b: Bytes, n: nat): (r: Outcome<Bytes>)
    ensures r.Got? ==> |r.rest| <= |b|
  {
    if n == 0 then Got([], b) else if b == [] then Eof else if |b| < n then Bad else Got(b[..n], b[n..])
  }

  /** A byte string with its length in front. */
  function ReadSized(b: Bytes): (r: Outcome<Bytes>)
    ensures r.Got? ==> |r.rest| < |b|
  {
    match ReadUvarint(b)
    case Got(n, rest) => ReadFull(rest, n)
    case Eof => Eof
    case Bad => Bad
  }

  function ReadPair(b: Bytes): (r: Outcome<Pair>)
    ensures r.Got? ==> |r.rest| < |b|
  {
    if b == [] then Eof
    else
      match ReadSized(b[1..])
      case Eof => Eof
      case Bad => Bad
      case Got(key, rest) =>
        if b[0] == 1 then Got(Pair(true, key, []), rest)
        else
          match ReadSized(rest)
          case Got(value, rest') => Got(Pair(false, key, value), rest')
          case Eof => Eof
          case Bad => Bad
  }

  /** Pairs are read until their sizes add up to that of the payload. */
  function ReadPairs(b: Bytes, size: int, offset: int): Outcome<seq<Pair>>
    decreases |b|
  {
    if offset >= size then if offset == size then Got([], b) else Bad
    else
      match ReadPair(b)
      case Eof => Eof
      case Bad => Bad
      case Got(p, rest) =>
        match ReadPairs(rest, size, offset + EncodedSize(p))
        case Got(ps, rest') => Got([p] + ps, rest')
        case Eof => Eof
        case Bad => Bad
  }

  lemma ReadSizedBack(x: Bytes, rest: Bytes)
    requires |x| < TWO_64
    ensures ReadSized(PutUvarint(|x|) + x + rest) == Got(x, rest)
  {
    var b := PutUvarint(|x|) + x + rest;
    assert b == PutUvarint(|x|) + (x + rest);
    UvarintPut(|x|, x + rest);
    hide PutUvarint, Uvarint;
    assert b[|PutUvarint(|x|)|..] == x + rest;
    assert (x + rest)[..|x|] == x && (x + rest)[|x|..] == rest;
  }

  predicate Fits(p: Pair) { |p.key| < TWO_64 && |p.value| < TWO_64 }

  lemma ReadPairBack(p: Pair, rest: Bytes)
    requires Fits(p)
    ensures ReadPair(EncodePair(p) + rest) == Got(Plain(p), rest)
  {
    hide PutUvarint, ReadSized;
    var b, k, v := EncodePair(p) + rest, PutUvarint(|p.key|), PutUvarint(|p.value|);
    if p.delete {
      assert b[1..] == k + p.key + rest;
      ReadSizedBack(p.key, rest);
    } else {
      assert b[1..] == k + p.key + (v + p.value + rest);
      ReadSizedBack(p.key, v + p.value + rest);
      ReadSizedBack(p.value, rest);
    }
  }

  function EncodeAll(ps: seq<Pair>): Bytes {
    if ps == [] then [] else EncodePair(ps[0]) + EncodeAll(ps[1..])
  }

  function PlainAll(ps: seq<Pair>): seq<Pair> {
    if ps == [] then [] else [Plain(ps[0])] + PlainAll(ps[1..])
  }

  lemma {:induction false} ReadPairsBack(ps: seq<Pair>, rest: Bytes, size: int, offset: int)
    requires size == offset + |EncodeAll(ps)| && forall i :: 0 <= i < |ps| ==> Fits(ps[i])
    ensures ReadPairs(EncodeAll(ps) + rest, size, offset) == Got(PlainAll(ps), rest)
    decreases |ps|
  {
    hide EncodePair, EncodedSize, ReadPair;
    if ps == [] {
      assert EncodeAll(ps) + rest == rest;
      return;
    }
    var p := ps[0];
    var tail := EncodeAll(ps[1..]) + rest;
    assert EncodeAll(ps) + rest == EncodePair(p) + tail;
    SizeIsLength(p);
    SizeIsLength(Plain(p));
    PlainSize(p);
    ReadPairBack(p, tail);
    ReadPairsBack(ps[1..], rest, size, offset + EncodedSize(p));
  }

  lemma PlainSize(p: Pair)
    ensures EncodedSize(Plain(p)) == EncodedSize(p)
  {
  }

  // ----------------------------------------------------------- whole files

  datatype Version = Version(version: int, pairs: seq<Pair>)

  /** Signed 64-bit numbers as they are stored. */
  function ToU64(x: int): nat { x % TWO_64 }
  function ToI64(u: nat): int { if u < TWO_63 then u else u - TWO_64 }

  lemma SignedBack(x: int)
    requires -TWO_63 <= x < TWO_63
    ensures ToU64(x) < TWO_64 && ToI64(ToU64(x)) == x
  {
  }

  function EncodeVersion(v: Version): Bytes {
    var payload := EncodeAll(v.pairs);
    PutLE(ToU64(v.version), 8) + PutLE(ToU64(|payload|), 8) + payload
  }

  /** The version, the number of bytes read, and the pairs, which are left out when the
      payload is skipped. */
  function ReadVersion(b: Bytes, parse: bool): (r: Outcome<(Version, int)>)
    ensures r.Got? ==> |r.rest| < |b|
  {
    match ReadFull(b, 16)
    case Eof => Eof
    case Bad => Bad
    case Got(header, rest) =>
      var version, size := ToI64(GetLE(header[..8])), ToI64(GetLE(header[8..]));
      if size == 0 then Got((Version(version, []), 16), rest)
      else if parse then
        ReadPairsShrinks(rest, size, 0);
        match ReadPairs(rest, size, 0)
        case Got(ps, rest') => Got((Version(version, ps), size + 16), rest')
        case Eof => Eof
        case Bad => Bad
      else if size < 0 then Got((Version(version, []), size + 16), rest)
      else if |rest| < size then Eof
      else Got((Version(version, []), size + 16), rest[size..])
  }

  lemma {:induction false} ReadPairsShrinks(b: Bytes, size: int, offset: int)
    ensures ReadPairs(b, size, offset).Got? ==> |ReadPairs(b, size, offset).rest| <= |b|
    decreases |b|
  {
    hide EncodedSize, ReadPair;
    if offset < size && ReadPair(b).Got? {
      ReadPairsShrinks(ReadPair(b).rest, size, offset + EncodedSize(ReadPair(b).value));
    }
  }

  ghost predicate VersionFits(v: Version) {
    && -TWO_63 <= v.version < TWO_63 && |EncodeAll(v.pairs)| < TWO_63
    && forall i :: 0 <= i < |v.pairs| ==> Fits(v.pairs[i])
  }

  lemma HeaderBack(v: Version, rest: Bytes)
    requires -TWO_63 <= v.version < TWO_63 && |EncodeAll(v.pairs)| < TWO_63
    ensures var payload := EncodeAll(v.pairs); var header := PutLE(ToU64(v.version), 8) + PutLE(ToU64(|payload|), 8);
      && EncodeVersion(v) + rest == header + (payload + rest)
      && ReadFull(EncodeVersion(v) + rest, 16) == Got(header, payload + rest)
      && ToI64(GetLE(header[..8])) == v.version && ToI64(GetLE(header[8..])) == |payload|
  {
    var payload := EncodeAll(v.pairs);
    var x, y := PutLE(ToU64(v.version), 8), PutLE(ToU64(|payload|), 8);
    hide PutLE, GetLE, EncodeAll;
    assert EncodeVersion(v) + rest == (x + y) + (payload + rest);
    assert (x + y)[..8] == x && (x + y)[8..] == y;
    SignedBack(v.version);
    SignedBack(|payload|);
    Pow256Widths();
    GetPutLE(ToU64(v.version), 8);
    GetPutLE(ToU64(|payload|), 8);
  }

  /** A version that was written is read back, with the exact number of bytes, and skipped
      in the same way. */
  lemma ReadVersionBack(v: Version, rest: Bytes)
    requires VersionFits(v)
    ensures ReadVersion(EncodeVersion(v) + rest, true)
      == Got((Version(v.version, PlainAll(v.pairs)), |EncodeVersion(v)|), rest)
    ensures ReadVersion(EncodeVersion(v) + rest, false) == Got((Version(v.version, []), |EncodeVersion(v)|), rest)
  {
    var payload := EncodeAll(v.pairs);
    EmptyPayload(v.pairs);
    hide PutLE, GetLE, EncodeAll, ReadPairs, ToI64, ToU64, ReadFull, PlainAll;
    HeaderBack(v, rest);
    ReadPairsBack(v.pairs, rest, |payload|, 0);
    assert (payload + rest)[|payload|..] == rest;
    assert payload == [] ==> payload + rest == rest;
  }

  lemma EmptyPayload(ps: seq<Pair>)
    ensures EncodeAll(ps) == [] <==> ps == []
    ensures ps == [] ==> PlainAll(ps) == []
  {
    if ps != [] { SizeIsLength(ps[0]); }
  }

  function EncodeStream(vs: seq<Version>): Bytes {
    if vs == [] then [] else EncodeVersion(vs[0]) + EncodeStream(vs[1..])
  }

  /** What an iteration visits, the offset of the last complete version, and whether it
      ended without an error. The callback asks to stop after `limit` versions, and fails after
      `failAt` calls that did not. */
  function Visits(b: Bytes, parse: bool, limit: nat, failAt: nat): (seq<Version>, int, bool)
    decreases |b|
  {
    if limit == 0 then ([], 0, true)
    else
      match ReadVersion(b, parse)
      case Eof => ([], 0, true)
      case Bad => ([], 0, false)
      case Got((v, n), rest) =>
        if failAt == 0 then ([v], 0, false)
        else
          var r := Visits(rest, parse, limit - 1, failAt - 1);
          ([v] + r.0, n + r.1, r.2)
  }

  function Shown(vs: seq<Version>, parse: bool): seq<Version> {
    if vs == [] then []
    else [ShownOne(vs[0], parse)] + Shown(vs[1..], parse)
  }

  function ShownOne(v: Version, parse: bool): Version {
    Version(v.version, if parse then PlainAll(v.pairs) else [])
  }

  lemma VisitsStep(vs: seq<Version>, parse: bool, limit: nat, failAt: nat)
    requires vs != [] && limit > 0 && VersionFits(vs[0])
    ensures Visits(EncodeStream(vs), parse, limit, failAt)
         == if failAt == 0 then ([ShownOne(vs[0], parse)], 0, false)
            else
              var r := Visits(EncodeStream(vs[1..]), parse, limit - 1, failAt - 1);
              ([ShownOne(vs[0], parse)] + r.0, |EncodeVersion(vs[0])| + r.1, r.2)
  {
    hide EncodeVersion, ReadVersion, VersionFits;
    ReadVersionBack(vs[0], EncodeStream(vs[1..]));
  }

  /** Iterating over a written file visits the versions in order, with all pairs or with none, up
      to the end of the file, a stop or an error of the callback; the offset is that of the
      versions that were dealt with. */
  lemma {:induction false} StreamBack(vs: seq<Version>, parse: bool, limit: nat, failAt: nat)
    requires forall i :: 0 <= i < |vs| ==> VersionFits(vs[i])
    ensures var stop := if limit < |vs| then limit else |vs|;
      Visits(EncodeStream(vs), parse, limit, failAt)
        == if failAt < stop then (Shown(vs[..failAt + 1], parse), |EncodeStream(vs[..failAt])|, false)
           else (Shown(vs[..stop], parse), |EncodeStream(vs[..stop])|, true)
    decreases |vs|
  {
    hide EncodeVersion, ReadVersion, VersionFits, EncodeStream, Shown, Visits, ShownOne;
    NoStream(vs, parse, limit, failAt);
    if limit == 0 || vs == [] {
      return;
    }
    VisitsStep(vs, parse, limit, failAt);
    if failAt > 0 {
      StreamBack(vs[1..], parse, limit - 1, failAt - 1);
      var stop := if limit < |vs| then limit else |vs|;
      StreamParts(vs, stop - 1, parse);
      StreamParts(vs, failAt, parse);
      StreamParts(vs, failAt - 1, parse);
    } else {
      StreamParts(vs, 0, parse);
      assert vs[..failAt] == vs[..0] && vs[..failAt + 1] == vs[..0 + 1];
      assert [ShownOne(vs[0], parse)] + [] == [ShownOne(vs[0], parse)];
    }
  }

  lemma StreamParts(vs: seq<Version>, n: nat, parse: bool)
    ensures n < |vs| ==>
      && EncodeStream(vs[..n + 1]) == EncodeVersion(vs[0]) + EncodeStream(vs[1..][..n])
      && Shown(vs[..n + 1], parse) == [ShownOne(vs[0], parse)] + Shown(vs[1..][..n], parse)
  {
    hide EncodeVersion;
    if n < |vs| { assert vs[..n + 1][1..] == vs[1..][..n]; }
  }

  lemma NoStream(vs: seq<Version>, parse: bool, limit: nat, failAt: nat)
    ensures EncodeStream(vs[..0]) == [] && Shown(vs[..0], parse) == []
    ensures vs != [] ==> Shown(vs[1..][..0], parse) == []
    ensures limit == 0 || vs == [] ==> Visits(EncodeStream(vs), parse, limit, failAt) == ([], 0, true)
  {
    NothingToRead(parse);
  }

  lemma NothingToRead(parse: bool)
    ensures ReadVersion([], parse) == Eof
  {
  }

  // -------------------------------------------------------- the operations

  /** Copies bytes into a buffer. */
  method Put(buf: array<byte>, offset: nat, s: Bytes)
    requires offset + |s| <= buf.Length
    modifies buf
    ensures buf[..] == old(buf[..offset]) + s + old(buf[offset + |s|..])
  {
    for i := 0 to |s|
      invariant buf[..offset] == old(buf[..offset]) && buf[offset..offset + i] == s[..i]
      invariant buf[offset + i..] == old(buf[offset + i..])
    {
      buf[offset + i] := s[i];
    }
    assert buf[..] == buf[..offset] + buf[offset..offset + |s|] + buf[offset + |s|..];
  }

  /** Fills a buffer of the computed size. */
  method EncodeKVPair(p: Pair) returns (buf: array<byte>)
    ensures fresh(buf) && buf[..] == EncodePair(p)
  {
    hide PutUvarint;
    SizeIsLength(p);
    buf := new byte[EncodedSize(p)](_ => 0);
    var k := PutUvarint(|p.key|);
    var offset := 1;
    ghost var zeros := buf[..];
    Put(buf, offset, k);
    offset := offset + |k|;
    Put(buf, offset, p.key);
    assert buf[..offset + |p.key|] == [0] + k + p.key;
    if p.delete {
      buf[0] := 1;
      assert buf[..] == [1] + k + p.key;
      return;
    }
    offset := offset + |p.key|;
    PutValue(buf, offset, p);
  }

  method PutValue(buf: array<byte>, offset: nat, p: Pair)
    requires buf.Length == |EncodePair(p)| && !p.delete
    requires offset <= buf.Length && buf[..offset] == [0] + PutUvarint(|p.key|) + p.key
    modifies buf
    ensures buf[..] == EncodePair(p)
  {
    hide PutUvarint;
    var head, v := [0] + PutUvarint(|p.key|) + p.key, PutUvarint(|p.value|);
    Put(buf, offset, v);
    assert buf[..offset + |v|] == head + v;
    Put(buf, offset + |v|, p.value);
    assert buf[..] == head + v + p.value;
  }

  lemma EncodeAllAppend(ps: seq<Pair>, i: nat)
    requires i < |ps|
    ensures EncodeAll(ps[..i + 1]) == EncodeAll(ps[..i]) + EncodePair(ps[i])
  {
    hide EncodePair;
    if i == 0 {
      assert ps[..1][1..] == [] && ps[..0] == [];
    } else {
      EncodeAllAppend(ps[1..], i - 1);
      assert ps[..i + 1][1..] == ps[1..][..i] && ps[..i][1..] == ps[1..][..i - 1];
    }
  }

  method WriteChangeSet(v: Version) returns (out: Bytes)
    ensures out == EncodeVersion(v)
  {
    hide EncodePair, PutLE, EncodeAll;
    var size := 0;
    var payload: Bytes := [];
    NoPairs(v.pairs);
    for i := 0 to |v.pairs|
      invariant payload == EncodeAll(v.pairs[..i]) && size == |payload|
    {
      var buf := EncodeKVPair(v.pairs[i]);
      EncodeAllAppend(v.pairs, i);
      size := size + buf.Length;
      payload := payload + buf[..];
    }
    assert v.pairs[..|v.pairs|] == v.pairs;
    out := PutLE(ToU64(v.version), 8) + PutLE(ToU64(size), 8) + payload;
  }

  lemma NoPairs(ps: seq<Pair>)
    ensures EncodeAll(ps[..0]) == []
  {
  }

  method ReadChangeSet(input: Bytes, parse: bool) returns (r: Outcome<(Version, int)>)
    ensures r == ReadVersion(input, parse)
  {
    hide GetLE, ReadPairs;
    var h := ReadFull(input, 16);
    if h.Eof? {
      return Eof;
    } else if h.Bad? {
      return Bad;
    }
    var version, size := ToI64(GetLE(h.value[..8])), ToI64(GetLE(h.value[8..]));
    if size == 0 {
      return Got((Version(version, []), 16), h.rest);
    }
    if parse {
      var ps := ReadPayload(h.rest, size);
      match ps {
        case Got(pairs, rest) => return Got((Version(version, pairs), size + 16), rest);
        case Eof => return Eof;
        case Bad => return Bad;
      }
    } else if size < 0 {
      return Got((Version(version, []), size + 16), h.rest);
    } else if |h.rest| < size {
      return Eof;
    }
    return Got((Version(version, []), size + 16), h.rest[size..]);
  }

  method ReadPayload(input: Bytes, size: int) returns (r: Outcome<seq<Pair>>)
    ensures r == ReadPairs(input, size, 0)
  {
    hide ReadPair, EncodedSize;
    var offset, pairs: seq<Pair>, rest := 0, [], input;
    ghost var all := ReadPairs(input, size, 0);
    assert all.Got? ==> [] + all.value == all.value;
    while offset < size
      invariant ReadPairs(input, size, 0) == Prepend(pairs, ReadPairs(rest, size, offset))
      decreases |rest|
    {
      var p := ReadPair(rest);
      if p.Eof? {
        return Eof;
      } else if p.Bad? {
        return Bad;
      }
      ReadStep(pairs, rest, size, offset);
      offset := offset + EncodedSize(p.value);
      pairs, rest := pairs + [p.value], p.rest;
    }
    if offset != size {
      return Bad;
    }
    assert pairs + [] == pairs;
    return Got(pairs, rest);
  }

  function Prepend(ps: seq<Pair>, r: Outcome<seq<Pair>>): Outcome<seq<Pair>> {
    if r.Got? then Got(ps + r.value, r.rest) else r
  }

  lemma ReadStep(ps: seq<Pair>, b: Bytes, size: int, offset: int)
    requires offset < size && ReadPair(b).Got?
    ensures var p := ReadPair(b);
      Prepend(ps, ReadPairs(b, size, offset))
        == Prepend(ps + [p.value], ReadPairs(p.rest, size, offset + EncodedSize(p.value)))
  {
    hide ReadPair, EncodedSize;
    var p := ReadPair(b);
    var r := ReadPairs(p.rest, size, offset + EncodedSize(p.value));
    if r.Got? { assert ps + ([p.value] + r.value) == (ps + [p.value]) + r.value; }
  }

  /** Both iterations: over change sets, and over versions alone. */
  method Iterate(input: Bytes, parse: bool, limit: nat, failAt: nat)
    returns (visited: seq<Version>, offset: int, ok: bool)
    requires limit > 0
    ensures (visited, offset, ok) == Visits(input, parse, limit, failAt)
  {
    hide ReadVersion;
    visited, offset, ok := [], 0, true;
    var rest := input;
    ghost var all := Visits(input, parse, limit, failAt);
    assert [] + all.0 == all.0;
    while |visited| < limit
      invariant |visited| <= limit && |visited| <= failAt
      invariant Visits(input, parse, limit, failAt)
        == var r := Visits(rest, parse, limit - |visited|, failAt - |visited|); (visited + r.0, offset + r.1, r.2)
      decreases |rest|
    {
      var r := ReadChangeSet(rest, parse);
      if !r.Got? {
        ok := r.Eof?;
        assert visited + [] == visited;
        return;
      }
      if |visited| == failAt {
        visited, ok := visited + [r.value.0], false;
        return;
      }
      ghost var after := Visits(r.rest, parse, limit - |visited| - 1, failAt - |visited| - 1);
      assert visited + ([r.value.0] + after.0) == (visited + [r.value.0]) + after.0;
      visited, offset, rest := visited + [r.value.0], offset + r.value.1, r.rest;
    }
    assert visited + [] == visited;
    ok := true;
  }
}
