/** The byte loops of libethash-cpu/picosha3.h that move blocks into and out of the state. */
module BlockIO {
  import opened Bits
  import opened Keccak
  import opened KeccakSteps
  import opened Sponge

  function Min(a: nat, b: nat): nat {
    if a < b then a else b
  }

  /** Advances the odometer byte-in-lane, then x, then y. */
  method Next(x: nat, y: nat, i: nat) returns (x': nat, y': nat, i': nat)
    requires x < 5 && y < 5 && i < 8
    ensures x' < 5 && y' <= 5 && i' < 8 && (y' == 5 ==> x' == 0 && i' == 0)
    ensures 40 * y' + 8 * x' + i' == 40 * y + 8 * x + i + 1
  {
    x', y', i' := x, y, i + 1;
    if i' != 8 {
      return;
    }
    i', x' := 0, x' + 1;
    if x' != 5 {
      return;
    }
    x', y' := 0, y' + 1;
  }

  /** One more byte of a block, byte i of its lane j, adds that byte to that lane. */
  lemma OneMoreByte(block: seq<Byte>, k: nat, j: nat, i: nat, l: nat)
    requires i < 8 && k == 8 * j + i < |block|
    ensures BlockLane(block[..k + 1], l)
         == if l == j then Xor(BlockLane(block[..k], l), Shl(block[k] + Zeros(56), i * 8))
            else BlockLane(block[..k], l)
  {
    var w := Shl(block[k] + Zeros(56), i * 8);
    forall z | 0 <= z < 64
      ensures BlockBit(block[..k + 1], l, z) == (BlockBit(block[..k], l, z) != (l == j && w[z]))
    {
    }
  }

  lemma AbsorbAt(s: State, block: seq<Byte>, x: nat, y: nat)
    requires x < 5 && y < 5
    ensures Absorb(s, block)[x][y] == Xor(s[x][y], BlockLane(block, 5 * y + x))
  {
  }

  lemma AbsorbOneMore(s: State, block: seq<Byte>, k: nat, x: nat, y: nat, i: nat, l: nat, m: nat)
    requires k < |block| && x < 5 && y < 5 && i < 8 && 40 * y + 8 * x + i == k
    requires l < 5 && m < 5
    ensures Absorb(s, block[..k + 1])[l][m]
         == if l == x && m == y then Xor(Absorb(s, block[..k])[l][m], Shl(block[k] + Zeros(56), i * 8))
            else Absorb(s, block[..k])[l][m]
  {
    hide *;
    AbsorbAt(s, block[..k], l, m);
    AbsorbAt(s, block[..k + 1], l, m);
    OneMoreByte(block, k, 5 * y + x, i, 5 * m + l);
    XorAssoc(s[l][m], BlockLane(block[..k], 5 * m + l), Shl(block[k] + Zeros(56), i * 8));
  }

  lemma Odometer(k: nat, x: nat, y: nat, i: nat)
    requires x < 5 && y < 5 && i < 8 && 40 * y + 8 * x + i == k
    ensures k / 8 == 5 * y + x && k % 8 == i && k / 8 % 5 == x && k / 40 == y
  {
  }

  method XorByteInto(a: array2<Lane>, x: nat, y: nat, i: nat, b: Byte)
    requires IsState(a) && x < 5 && y < 5 && i < 8
    modifies a
    ensures a[x, y] == Xor(old(a[x, y]), Shl(b + Zeros(56), i * 8))
    ensures forall l, m :: 0 <= l < 5 && 0 <= m < 5 && (l, m) != (x, y) ==> a[l, m] == old(a[l, m])
  {
    var tmp := b + Zeros(56);
    a[x, y] := Xor(a[x, y], Shl(tmp, i * 8));
  }

  /** Exclusive-ors the first 200 bytes of `src` into the state. */
  method AbsorbInto(src: array<Byte>, a: array2<Lane>)
    requires IsState(a)
    modifies a
    ensures Lanes(a) == Absorb(old(Lanes(a)), src[..Min(src.Length, STATE_BYTES)])
  {
    hide Absorb;
    ghost var s, block := Lanes(a), src[..];
    AbsorbNothing(s);
    var x: nat, y: nat, i: nat, k: nat := 0, 0, 0, 0;
    assert block[..0] == [];
    while k < src.Length && y < 5
      invariant x < 5 && y <= 5 && i < 8 && (y == 5 ==> x == 0 && i == 0)
      invariant 40 * y + 8 * x + i == k <= src.Length
      invariant src[..] == block
      invariant forall l, m :: 0 <= l < 5 && 0 <= m < 5 ==> a[l, m] == Absorb(s, block[..k])[l][m]
    {
      XorByteInto(a, x, y, i, src[k]);
      forall l, m | 0 <= l < 5 && 0 <= m < 5
        ensures a[l, m] == Absorb(s, block[..k + 1])[l][m]
      {
        AbsorbOneMore(s, block, k, x, y, i, l, m);
      }
      x, y, i := Next(x, y, i);
      k := k + 1;
    }
    LanesAre(a, Absorb(s, block[..k]));
    assert block[..k] == src[..Min(src.Length, STATE_BYTES)];
  }

  lemma AbsorbNothing(s: State)
    ensures Absorb(s, []) == s
  {
    forall x, y | 0 <= x < 5 && 0 <= y < 5
      ensures Absorb(s, [])[x][y] == s[x][y]
    {
      AbsorbAt(s, [], x, y);
    }
    SameLanes(Absorb(s, []), s);
  }

  /** Copies at most `rate` bytes of the state to `dest` from position `first` on. */
  method SqueezeInto(a: array2<Lane>, dest: array<Byte>, first: nat, rate: nat) returns (next: nat)
    requires IsState(a) && first <= dest.Length
    modifies dest
    ensures next == first + Min(dest.Length - first, Min(rate, STATE_BYTES))
    ensures dest[..first] == old(dest[..first])
    ensures dest[first..next] == StateBytes(Lanes(a), next - first)
    ensures forall k :: next <= k < dest.Length ==> dest[k] == old(dest[k])
  {
    hide StateBytes, ByteAt;
    var x: nat, y: nat, i: nat, read: nat := 0, 0, 0, 0;
    next := first;
    while next != dest.Length && y < 5 && read < rate
      invariant x < 5 && y <= 5 && i < 8 && (y == 5 ==> x == 0 && i == 0)
      invariant 40 * y + 8 * x + i == read <= rate
      invariant next == first + read <= dest.Length
      invariant dest[..first] == old(dest[..first])
      invariant forall k :: 0 <= k < read ==> dest[first + k] == ByteAt(Lanes(a), k)
      invariant forall k :: next <= k < dest.Length ==> dest[k] == old(dest[k])
      decreases dest.Length - next
    {
      var tmp := a[x, y];
      ByteOfLane(Lanes(a), x, y, i);
      dest[next] := tmp[8 * i..8 * i + 8];
      x, y, i := Next(x, y, i);
      read, next := read + 1, next + 1;
    }
    StateBytesAre(Lanes(a), dest[first..next]);
  }

  lemma ByteOfLane(s: State, x: nat, y: nat, i: nat)
    requires x < 5 && y < 5 && i < 8
    ensures ByteAt(s, 40 * y + 8 * x + i) == s[x][y][8 * i..8 * i + 8]
  {
    Odometer(40 * y + 8 * x + i, x, y, i);
  }

  lemma StateBytesAre(s: State, z: seq<Byte>)
    requires |z| <= STATE_BYTES && forall k :: 0 <= k < |z| ==> z[k] == ByteAt(s, k)
    ensures z == StateBytes(s, |z|)
  {
    hide ByteAt;
  }
}
