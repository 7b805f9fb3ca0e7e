/** Machine words as their bits, least significant first, the way FIPS 202 writes them.
    A `uint64_t` is a Lane, a `uint8_t` a Byte; the C++ operators are the functions below. */
module Bits {
  import opened Arith
  import opened Numerals

  type Lane = a: seq<bool> | |a| == 64 witness Zeros(64)

  type Byte = b: seq<bool> | |b| == 8 witness Zeros(8)

  function Zeros(n: nat): (r: seq<bool>)
    ensures |r| == n && forall i :: 0 <= i < n ==> !r[i]
  {
    seq(n, i => false)
  }

  function Xor(a: seq<bool>, b: seq<bool>): (r: seq<bool>)
    requires |a| == |b|
    ensures |r| == |a| && forall i :: 0 <= i < |a| ==> r[i] == (a[i] != b[i])
  {
    seq(|a|, i requires 0 <= i < |a| => a[i] != b[i])
  }

  lemma XorAssoc(a: Lane, b: Lane, c: Lane)
    ensures Xor(Xor(a, b), c) == Xor(a, Xor(b, c))
  {
  }

  function And(a: seq<bool>, b: seq<bool>): (r: seq<bool>)
    requires |a| == |b|
    ensures |r| == |a| && forall i :: 0 <= i < |a| ==> r[i] == (a[i] && b[i])
  {
    seq(|a|, i requires 0 <= i < |a| => a[i] && b[i])
  }

  function Or(a: seq<bool>, b: seq<bool>): (r: seq<bool>)
    requires |a| == |b|
    ensures |r| == |a| && forall i :: 0 <= i < |a| ==> r[i] == (a[i] || b[i])
  {
    seq(|a|, i requires 0 <= i < |a| => a[i] || b[i])
  }

  function Not(a: seq<bool>): (r: seq<bool>)
    ensures |r| == |a| && forall i :: 0 <= i < |a| ==> r[i] == !a[i]
  {
    seq(|a|, i requires 0 <= i < |a| => !a[i])
  }

  /** `a << n` at the width of `a`. */
  function Shl(a: seq<bool>, n: nat): (r: seq<bool>)
    requires n <= |a|
    ensures |r| == |a|
  {
    Zeros(n) + a[..|a| - n]
  }

  /** `a >> n` for an unsigned `a`. */
  function Shr(a: seq<bool>, n: nat): (r: seq<bool>)
    requires n <= |a|
    ensures |r| == |a|
  {
    a[n..] + Zeros(n)
  }

  /** Where the bit at position z comes from in a rotation by n. */
  ghost function Source(z: nat, n: nat): (i: nat)
    requires z < 64 && n <= 64
    ensures i == (z + 64 - n) % 64
  {
    if z < n then z + 64 - n else z - n
  }

  /** Rotation to the left: the bit at position z moves to (z + n) mod 64. */
  function Rot(a: Lane, n: nat): (r: Lane)
    requires n <= 64
    ensures forall z :: 0 <= z < 64 ==> r[z] == a[(z + 64 - n) % 64]
  {
    assert forall z :: 0 <= z < 64 ==> (a[64 - n..] + a[..64 - n])[z] == a[Source(z, n)];
    a[64 - n..] + a[..64 - n]
  }

  lemma ShiftsRotate(a: Lane, n: nat)
    requires n <= 64
    ensures Or(Shl(a, n), Shr(a, 64 - n)) == Rot(a, n)
  {
  }

  /** The low `width` bits of a number. */
  function BitsOf(value: nat, width: nat): (r: seq<bool>)
    ensures |r| == width
  {
    if width == 0 then [] else [value % 2 == 1] + BitsOf(value / 2, width - 1)
  }

  /** The byte with value `v`. */
  function ByteOf(v: nat): Byte
    requires v < 256
  {
    [v % 2 == 1, v / 2 % 2 == 1, v / 4 % 2 == 1, v / 8 % 2 == 1,
     v / 16 % 2 == 1, v / 32 % 2 == 1, v / 64 % 2 == 1, v / 128 % 2 == 1]
  }

  // ----- bits and numbers

  /** Bit i of a number is its remainder by 2 after i halvings. */
  lemma {:induction false} BitsOfAt(value: nat, width: nat, i: nat)
    requires i < width
    ensures Pow(2, i) > 0 && (BitsOf(value, width)[i] <==> value / Pow(2, i) % 2 == 1)
    decreases width
  {
    PowPositive(2, i);
    if i > 0 {
      BitsOfAt(value / 2, width - 1, i - 1);
      DivDiv(value, 2, Pow(2, i - 1));
    }
  }

  /** The number with the given bits, lowest first. */
  ghost function Number(bits: seq<bool>): nat {
    if bits == [] then 0 else (if bits[0] then 1 else 0) + 2 * Number(bits[1..])
  }

  lemma {:induction false} NumberOfBits(value: nat, width: nat)
    ensures Pow(2, width) > 0 && Number(BitsOf(value, width)) == value % Pow(2, width)
    decreases width
  {
    PowPositive(2, width);
    if width > 0 {
      PowPositive(2, width - 1);
      assert BitsOf(value, width)[1..] == BitsOf(value / 2, width - 1);
      NumberOfBits(value / 2, width - 1);
      ModTimes(value, 2, Pow(2, width - 1));
    }
  }

  lemma {:induction false} NumberConcat(a: seq<bool>, b: seq<bool>)
    ensures Number(a + b) == Number(a) + Pow(2, |a|) * Number(b)
    decreases |a|
  {
    if a == [] {
      assert a + b == b;
    } else {
      assert (a + b)[1..] == a[1..] + b;
      NumberConcat(a[1..], b);
      Assoc(2, Pow(2, |a| - 1), Number(b));
    }
  }

  /** A byte constant has the bits of its number. */
  lemma ByteOfBits(v: nat)
    requires v < 256
    ensures ByteOf(v) == BitsOf(v, 8)
  {
    hide Pow;
    forall i | 0 <= i < 8 ensures ByteOf(v)[i] == BitsOf(v, 8)[i] {
      BitsOfAt(v, 8, i);
      SmallPowers();
    }
  }

  lemma SmallPowers()
    ensures Pow(2, 0) == 1 && Pow(2, 1) == 2 && Pow(2, 2) == 4 && Pow(2, 3) == 8
    ensures Pow(2, 4) == 16 && Pow(2, 5) == 32 && Pow(2, 6) == 64 && Pow(2, 7) == 128
  {
  }

  lemma BitsOfNext(low: nat, rest: nat, width: nat)
    requires low < 2 && width > 0
    ensures BitsOf(low + 2 * rest, width) == [low == 1] + BitsOf(rest, width - 1)
  {
  }

  lemma {:induction false} BitsOfShifted(value: nat, k: nat, width: nat)
    requires k <= width
    ensures BitsOf(Pow(2, k) * value, width) == Zeros(k) + BitsOf(value, width - k)
    decreases k
  {
    if k > 0 {
      BitsOfShifted(value, k - 1, width - 1);
      Assoc(2, Pow(2, k - 1), value);
      BitsOfNext(0, Pow(2, k - 1) * value, width);
      assert [false] + Zeros(k - 1) == Zeros(k);
      assert [false] + (Zeros(k - 1) + BitsOf(value, width - k)) == [false] + Zeros(k - 1) + BitsOf(value, width - k);
    } else {
      assert Zeros(0) + BitsOf(value, width) == BitsOf(value, width);
    }
  }
}
