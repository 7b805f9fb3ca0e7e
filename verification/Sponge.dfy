/** The sponge construction of FIPS 202 on byte strings, and what it does to the bytes of the state. */
module Sponge {
  import opened Arith
  import opened Bits
  import opened Keccak

  const STATE_BYTES: nat := 200

  // ----- bytes of a state, section 3.1.2: byte k lies in lane (x, y) with 5 y + x = k / 8

  function ByteAt(s: State, k: nat): Byte
    requires k < STATE_BYTES
  {
    s[k / 8 % 5][k / 40][8 * (k % 8)..8 * (k % 8) + 8]
  }

  function StateBytes(s: State, n: nat): (r: seq<Byte>)
    requires n <= STATE_BYTES
    ensures |r| == n
  {
    seq(n, k requires 0 <= k < n => ByteAt(s, k))
  }

  // ----- absorbing a block: the state is exclusive-ored with the block followed by zeros

  /** Bit z of the `i`-th lane of a block that is followed by zeros. */
  function BlockBit(block: seq<Byte>, i: nat, z: nat): bool {
    8 * i + z / 8 < |block| && block[8 * i + z / 8][z % 8]
  }

  function BlockLane(block: seq<Byte>, i: nat): (r: Lane)
    ensures forall z :: 0 <= z < 64 ==> r[z] == BlockBit(block, i, z)
  {
    seq(64, z requires 0 <= z => BlockBit(block, i, z))
  }

  function AbsorbLane(s: State, block: seq<Byte>, x: nat, y: nat): Lane {
    Xor(At(s, x, y), BlockLane(block, 5 * y + x))
  }

  function Absorb(s: State, block: seq<Byte>): State {
    seq(5, x requires 0 <= x => seq(5, y requires 0 <= y => AbsorbLane(s, block, x, y)))
  }

  /** Byte by byte: absorbing exclusive-ors the block into the first |block| bytes of the state. */
  lemma AbsorbByteAt(s: State, block: seq<Byte>, k: nat)
    requires k < STATE_BYTES
    ensures ByteAt(Absorb(s, block), k) == if k < |block| then Xor(ByteAt(s, k), block[k]) else ByteAt(s, k)
  {
    var x, y, o := k / 8 % 5, k / 40, 8 * (k % 8);
    LaneOfByte(k);
    var l, b := Absorb(s, block)[x][y], BlockLane(block, 5 * y + x);
    assert l == Xor(s[x][y], b);
    var was, now := s[x][y][o..o + 8], l[o..o + 8];
    assert ByteAt(s, k) == was && ByteAt(Absorb(s, block), k) == now;
    hide *;
    forall i | 0 <= i < 8 ensures now[i] == (was[i] != (k < |block| && block[k][i])) {
      BlockBitAt(block, k, i);
    }
    if k < |block| {
      XorIs(was, block[k], now);
    } else {
      assert now == was;
    }
  }

  lemma BlockBitAt(block: seq<Byte>, k: nat, i: nat)
    requires k < STATE_BYTES && i < 8
    ensures BlockBit(block, 5 * (k / 40) + k / 8 % 5, 8 * (k % 8) + i) == (k < |block| && block[k][i])
  {
    LaneOfByte(k);
    ModUnique(8 * (k % 8) + i, 8, k % 8, i);
  }

  lemma XorIs(a: Byte, b: Byte, c: Byte)
    requires forall i :: 0 <= i < 8 ==> c[i] == (a[i] != b[i])
    ensures c == Xor(a, b)
  {
  }

  lemma LaneOfByte(k: nat)
    requires k < STATE_BYTES
    ensures 5 * (k / 40) + k / 8 % 5 == k / 8 && k / 40 < 5
  {
  }

  /** Two blocks that absorb to the same state agree on every byte both of them have. */
  lemma AbsorbInjective(s: State, b: seq<Byte>, c: seq<Byte>, k: nat)
    requires Absorb(s, b) == Absorb(s, c)
    requires k < |b| && k < |c| && k < STATE_BYTES
    ensures b[k] == c[k]
  {
    hide Absorb, ByteAt;
    AbsorbByteAt(s, b, k);
    AbsorbByteAt(s, c, k);
    var a := ByteAt(s, k);
    assert Xor(a, b[k]) == Xor(a, c[k]);
    forall i | 0 <= i < 8
      ensures b[k][i] == c[k][i]
    {
      assert Xor(a, b[k])[i] == Xor(a, c[k])[i];
    }
  }

  // ----- the construction, section 4 (Algorithm 8), with rate and output length in bytes

  /** The state after absorbing every whole block of `p`. */
  function AbsorbAll(s: State, p: seq<Byte>, rate: nat): State
    requires 0 < rate
    decreases |p|
  {
    if |p| < rate then s else AbsorbAll(KeccakP(Absorb(s, p[..rate])), p[rate..], rate)
  }

  /** What is left of `p` after its whole blocks. */
  function Tail(p: seq<Byte>, rate: nat): (t: seq<Byte>)
    requires 0 < rate
    ensures |t| < rate
    decreases |p|
  {
    if |p| < rate then p else Tail(p[rate..], rate)
  }

  function SqueezeOut(s: State, rate: nat, n: nat): (z: seq<Byte>)
    requires 0 < rate <= STATE_BYTES
    ensures |z| == n
    decreases n
  {
    if n <= rate then StateBytes(s, n) else StateBytes(s, rate) + SqueezeOut(KeccakP(s), rate, n - rate)
  }

  // ----- padding, section 5.1, with the domain suffixes of sections 6.1 and 6.2

  datatype Padding = SHA | SHAKE

  function Suffix(padding: Padding): seq<bool> {
    match padding
    case SHA => [false, true]
    case SHAKE => [true, true, true, true]
  }

  /** pad10*1(x, m), Algorithm 9. */
  function Pad101(x: nat, m: nat): seq<bool>
    requires 0 < x
  {
    [true] + Zeros((0 - m - 2) % x) + [true]
  }

  /** The bits of a byte string, section B.1. */
  function BitString(p: seq<Byte>): (r: seq<bool>)
    ensures |r| == 8 * |p|
  {
    if p == [] then [] else p[0] + BitString(p[1..])
  }

  /** The byte that closes the message and opens the padding: the suffix and the first 1. */
  function FirstPadByte(padding: Padding): Byte {
    match padding
    case SHA => [false, true, true, false, false, false, false, false]
    case SHAKE => [true, true, true, true, true, false, false, false]
  }

  const LAST_PAD_BYTE: Byte := [false, false, false, false, false, false, false, true]

  /** The bytes appended to a message whose last partial block has `t` bytes. */
  function PadBytes(t: nat, rate: nat, padding: Padding): (r: seq<Byte>)
    requires t < rate
    ensures |r| == rate - t
  {
    if t == rate - 1 then [Xor(FirstPadByte(padding), LAST_PAD_BYTE)]
    else [FirstPadByte(padding)] + seq(rate - t - 2, i => Zeros(8)) + [LAST_PAD_BYTE]
  }

  /** The state from which FIPS 202 squeezes the digest of `m`. */
  function FinalState(m: seq<Byte>, rate: nat, padding: Padding): State
    requires 0 < rate
  {
    AbsorbAll(ZeroState(), m + PadBytes(|Tail(m, rate)|, rate, padding), rate)
  }

  function Digest(m: seq<Byte>, rate: nat, padding: Padding, n: nat): (z: seq<Byte>)
    requires 0 < rate <= STATE_BYTES
    ensures |z| == n
  {
    SqueezeOut(FinalState(m, rate, padding), rate, n)
  }

  lemma {:induction false} BitStringConcat(p: seq<Byte>, q: seq<Byte>)
    ensures BitString(p + q) == BitString(p) + BitString(q)
  {
    if p == [] {
      assert p + q == q;
    } else {
      assert (p + q)[0] == p[0] && (p + q)[1..] == p[1..] + q;
      BitStringConcat(p[1..], q);
    }
  }

  lemma {:induction false} BitStringZeros(n: nat)
    ensures BitString(seq(n, i => Zeros(8))) == Zeros(8 * n)
  {
    if n > 0 {
      var z := seq(n, i => Zeros(8));
      assert z[1..] == seq(n - 1, i => Zeros(8));
      BitStringZeros(n - 1);
    }
  }

  lemma {:induction false} TailLength(p: seq<Byte>, rate: nat)
    requires 0 < rate
    ensures |Tail(p, rate)| == |p| % rate
    decreases |p|
  {
    if |p| >= rate {
      TailLength(p[rate..], rate);
      ModSubtract(|p|, rate);
    }
  }

  /** The padding bytes are the suffix and pad10*1 of the bit string, as FIPS 202 defines them. */
  lemma PaddingIsPad101(m: seq<Byte>, rate: nat, padding: Padding)
    requires 0 < rate
    ensures BitString(m + PadBytes(|Tail(m, rate)|, rate, padding))
         == BitString(m) + Suffix(padding) + Pad101(8 * rate, 8 * |m| + |Suffix(padding)|)
  {
    var t, q, n := |Tail(m, rate)|, |m| / rate, |Suffix(padding)|;
    BitStringConcat(m, PadBytes(t, rate, padding));
    TailLength(m, rate);
    ZeroCount(|m|, rate, t, n);
    PadBytesBits(t, rate, padding);
    hide BitString, PadBytes, Tail;
    assert BitString(m) + (Suffix(padding) + Pad101(8 * rate, 8 * |m| + n))
        == BitString(m) + Suffix(padding) + Pad101(8 * rate, 8 * |m| + n);
  }

  /** The number of zeros pad10*1 needs after m bytes and n bits. */
  lemma ZeroCount(m: nat, rate: nat, t: nat, n: nat)
    requires 0 < rate && t == m % rate && n <= 6
    ensures (0 - (8 * m + n) - 2) % (8 * rate) == 8 * (rate - t) - n - 2
  {
    var q := m / rate;
    assert m == rate * q + t;
    assert 8 * rate * (-q - 1) == -8 * (rate * q) - 8 * rate;
    ModUnique(0 - (8 * m + n) - 2, 8 * rate, -q - 1, 8 * (rate - t) - n - 2);
  }

  lemma PadBytesBits(t: nat, rate: nat, padding: Padding)
    requires t < rate
    ensures BitString(PadBytes(t, rate, padding))
         == Suffix(padding) + ([true] + Zeros(8 * (rate - t) - |Suffix(padding)| - 2) + [true])
  {
    var f := FirstPadByte(padding);
    if t == rate - 1 {
      hide BitString;
      BitStringOne(Xor(f, LAST_PAD_BYTE));
      PadByteBits(padding, 0);
      assert Zeros(8 * (rate - t) - |Suffix(padding)| - 2) == Zeros(8 - |Suffix(padding)| - 2);
    } else {
      hide BitString;
      var z := seq(rate - t - 2, i => Zeros(8));
      BitStringConcat([f] + z, [LAST_PAD_BYTE]);
      BitStringConcat([f], z);
      BitStringZeros(rate - t - 2);
      BitStringOne(f);
      BitStringOne(LAST_PAD_BYTE);
      PadByteBits(padding, 8 * (rate - t - 2));
    }
  }

  /** The first byte of the padding, n zeros and the last byte; and both bytes in one. */
  lemma PadByteBits(padding: Padding, n: nat)
    ensures FirstPadByte(padding) + Zeros(n) + LAST_PAD_BYTE
         == Suffix(padding) + ([true] + Zeros(n + 16 - |Suffix(padding)| - 2) + [true])
    ensures Xor(FirstPadByte(padding), LAST_PAD_BYTE)
         == Suffix(padding) + ([true] + Zeros(8 - |Suffix(padding)| - 2) + [true])
  {
  }

  lemma BitStringOne(b: Byte)
    ensures BitString([b]) == b
  {
    assert [b][1..] == [];
  }

  // ----- the last block

  /** The final state is reached from the whole blocks of `m` by absorbing its tail and the padding. */
  lemma {:induction false} AbsorbLast(s: State, m: seq<Byte>, pad: seq<Byte>, rate: nat)
    requires 0 < rate && |Tail(m, rate)| + |pad| == rate
    ensures AbsorbAll(s, m + pad, rate) == KeccakP(Absorb(AbsorbAll(s, m, rate), Tail(m, rate) + pad))
    decreases |m|
  {
    hide KeccakP, Absorb;
    var p := m + pad;
    if |m| < rate {
      assert p[..rate] == p && p[rate..] == [];
    } else {
      assert p[..rate] == m[..rate] && p[rate..] == m[rate..] + pad;
      AbsorbLast(KeccakP(Absorb(s, m[..rate])), m[rate..], pad, rate);
    }
  }

  // ----- the construction, block by block

  /** The state after the first k blocks of `p`. */
  ghost function AfterBlocks(s: State, p: seq<Byte>, rate: nat, k: nat): State
    requires k * rate <= |p|
  {
    if k == 0 then s
    else
      assert (k - 1) * rate + rate == k * rate;
      KeccakP(Absorb(AfterBlocks(s, p, rate, k - 1), p[(k - 1) * rate..k * rate]))
  }

  lemma {:induction false} DropFirst(s: State, p: seq<Byte>, rate: nat, k: nat)
    requires rate <= |p| && k * rate <= |p| - rate
    ensures (k + 1) * rate <= |p|
    ensures AfterBlocks(KeccakP(Absorb(s, p[..rate])), p[rate..], rate, k) == AfterBlocks(s, p, rate, k + 1)
  {
    hide KeccakP, Absorb;
    assert (k + 1) * rate == k * rate + rate;
    if k > 0 {
      assert (k - 1) * rate + rate == k * rate;
      DropFirst(s, p, rate, k - 1);
      assert p[rate..][(k - 1) * rate..k * rate] == p[k * rate..(k + 1) * rate];
    } else {
      assert p[0 * rate..1 * rate] == p[..rate];
    }
  }

  /** Absorbing takes the whole blocks in order and permutes after each; the tail is what is left. */
  lemma {:induction false} AbsorbsBlockByBlock(s: State, p: seq<Byte>, rate: nat, k: nat)
    requires 0 < rate && k * rate <= |p| < k * rate + rate
    ensures AbsorbAll(s, p, rate) == AfterBlocks(s, p, rate, k)
    ensures Tail(p, rate) == p[k * rate..]
    decreases k
  {
    hide KeccakP, Absorb;
    if k > 0 {
      assert (k - 1) * rate + rate == k * rate;
      assert (k - 1) * rate >= 0;
      var rest := p[rate..];
      AbsorbsBlockByBlock(KeccakP(Absorb(s, p[..rate])), rest, rate, k - 1);
      DropFirst(s, p, rate, k - 1);
      assert rest[(k - 1) * rate..] == p[k * rate..];
    }
  }

  ghost function Permuted(s: State, k: nat): State
    decreases k
  {
    if k == 0 then s else Permuted(KeccakP(s), k - 1)
  }

  /** Byte i of the output is byte i modulo the rate of the state permuted once for each whole block before it. */
  lemma {:induction false} SqueezesBlockByBlock(s: State, rate: nat, n: nat, i: nat)
    requires 0 < rate <= STATE_BYTES && i < n
    ensures SqueezeOut(s, rate, n)[i] == ByteAt(Permuted(s, i / rate), i % rate)
    decreases n
  {
    hide KeccakP, ByteAt;
    if i < rate {
      ModUnique(i, rate, 0, i);
    } else {
      SqueezesBlockByBlock(KeccakP(s), rate, n - rate, i - rate);
      ModSubtract(i, rate);
    }
  }
}
