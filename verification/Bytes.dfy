/** Byte strings, their lexicographic order, and the fixed- and variable-width
    integer encodings that the file formats and the hash preimages use. */
module Bytes {

  type byte = b: int | 0 <= b < 0x100
  type Bytes = seq<byte>

  datatype Option<+T> = None | Some(value: T)

  const TWO_32 := 0x1_0000_0000
  const TWO_63 := 0x8000_0000_0000_0000
  const TWO_64 := 0x1_0000_0000_0000_0000

  /** Arithmetic of an unsigned 32-bit word. */
  function U32(x: int): (r: nat)
    ensures 0 <= r < TWO_32
    ensures 0 <= x < TWO_32 ==> r == x
  {
    if 0 <= x < TWO_32 then x else x % TWO_32
  }

  function U8(x: int): (r: nat)
    ensures 0 <= r < 0x100
    ensures 0 <= x < 0x100 ==> r == x
  {
    if 0 <= x < 0x100 then x else x % 0x100
  }

  // ---------------------------------------------------------------- order

  /** Three-way lexicographic comparison. */
  function Compare(a: Bytes, b: Bytes): (r: int)
    ensures -1 <= r <= 1
  {
    if |a| == 0 then (if |b| == 0 then 0 else -1)
    else if |b| == 0 then 1
    else if a[0] < b[0] then -1
    else if a[0] > b[0] then 1
    else Compare(a[1..], b[1..])
  }

  predicate Less(a: Bytes, b: Bytes) {
    Compare(a, b) < 0
  }

  lemma {:induction false} CompareFlips(a: Bytes, b: Bytes)
    ensures Compare(a, b) == -Compare(b, a)
    ensures Compare(a, b) == 0 <==> a == b
  {
    if |a| > 0 && |b| > 0 && a[0] == b[0] {
      CompareFlips(a[1..], b[1..]);
      assert a == [a[0]] + a[1..] && b == [b[0]] + b[1..];
    }
  }

  lemma {:induction false} LessTransitive(a: Bytes, b: Bytes, c: Bytes)
    requires Less(a, b) && Less(b, c)
    ensures Less(a, c)
  {
    if |a| > 0 && a[0] == b[0] && b[0] == c[0] {
      LessTransitive(a[1..], b[1..], c[1..]);
    }
  }

  /** The comparison is a strict total order whose least element is the empty string. */
  lemma LessIsTotalOrder()
    ensures forall a: Bytes :: !Less(a, a)
    ensures forall a: Bytes, b: Bytes {:trigger Less(a, b)} :: Less(a, b) || Less(b, a) || a == b
    ensures forall a: Bytes, b: Bytes {:trigger Less(a, b)} :: Less(a, b) ==> !Less(b, a)
    ensures forall a: Bytes, b: Bytes, c: Bytes {:trigger Less(a, b), Less(b, c)} :: Less(a, b) && Less(b, c) ==>
      Less(a, c)
    ensures forall a: Bytes :: !Less(a, [])
  {
    forall a: Bytes, b: Bytes
      ensures (Less(a, b) || Less(b, a) || a == b) && (Less(a, b) ==> !Less(b, a)) && !Less(a, a)
    {
      CompareFlips(a, b);
      CompareFlips(a, a);
    }
    forall a: Bytes, b: Bytes, c: Bytes | Less(a, b) && Less(b, c)
      ensures Less(a, c)
    {
      LessTransitive(a, b, c);
    }
  }

  // ------------------------------------------------- fixed-width integers

  /** The `n` low-order bytes of `x`, least significant first. */
  function PutLE(x: nat, n: nat): (r: Bytes)
    ensures |r| == n
    decreases n
  {
    if n == 0 then [] else [x % 0x100] + PutLE(x / 0x100, n - 1)
  }

  function GetLE(b: Bytes): (x: nat) {
    if |b| == 0 then 0 else b[0] + 0x100 * GetLE(b[1..])
  }

  function Pow256(n: nat): (r: nat)
    ensures r > 0
  {
    if n == 0 then 1 else 0x100 * Pow256(n - 1)
  }

  /** A number that fits a fixed-width field reads back. */
  lemma {:induction false} GetPutLE(x: nat, n: nat)
    requires x < Pow256(n)
    ensures GetLE(PutLE(x, n)) == x
    decreases n
  {
    if n > 0 {
      assert x / 0x100 < Pow256(n - 1);
      GetPutLE(x / 0x100, n - 1);
      assert PutLE(x, n)[1..] == PutLE(x / 0x100, n - 1);
    }
  }

  lemma Pow256Widths()
    ensures Pow256(1) == 0x100
    ensures Pow256(4) == TWO_32
    ensures Pow256(8) == TWO_64
  {
    assert Pow256(2) == 0x1_0000;
    assert Pow256(3) == 0x100_0000;
    assert Pow256(5) == 0x100_0000_0000;
    assert Pow256(6) == 0x1_0000_0000_0000;
    assert Pow256(7) == 0x100_0000_0000_0000;
  }

  // ---------------------------------------------- variable-width integers

  /** Base-128 encoding, low groups first, high bit set on all bytes but the last. */
  function PutUvarint(x: nat): (r: Bytes)
    ensures |r| >= 1
  {
    if x < 0x80 then [x] else [x % 0x80 + 0x80] + PutUvarint(x / 0x80)
  }

  /** Signed integers are folded onto the naturals before encoding. */
  function PutVarint(x: int): Bytes {
    PutUvarint(if x < 0 then -2 * x - 1 else 2 * x)
  }
}
