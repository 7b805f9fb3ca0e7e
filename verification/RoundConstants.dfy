/** The round constants of libethash-cpu/picosha3.h are the ones FIPS 202 generates. */
module RoundConstants {
  import opened Bits
  import opened Numerals
  import opened Keccak

  /** One step of the linear feedback shift register of Algorithm 5 in section 3.2.5 of FIPS 202. */
  function Feedback(r: Byte): Byte {
    [r[7], r[0], r[1], r[2], r[3] != r[7], r[4] != r[7], r[5] != r[7], r[6]]
  }

  /** The register after t steps. */
  function Register(t: nat): Byte {
    if t == 0 then [true, false, false, false, false, false, false, false] else Feedback(Register(t - 1))
  }

  function RcBit(t: nat): bool {
    Register(t)[0]
  }

  // ----- the constants of Algorithm 6

  /** A gap of k zeros, a bit, and the rest. */
  function Gap(k: nat, b: bool, rest: seq<bool>): (r: seq<bool>)
    ensures |r| == k + 1 + |rest|
  {
    Zeros(k) + ([b] + rest)
  }

  lemma GapAt(k: nat, b: bool, rest: seq<bool>, z: nat)
    requires z < k + 1 + |rest|
    ensures Gap(k, b, rest)[z] == if z < k then false else if z == k then b else rest[z - k - 1]
  {
  }

  /** The zeros below each of the seven bits of Algorithm 6, which are at positions 0, 1, 3, 7, 15, 31 and 63. */
  const GAPS: seq<nat> := [0, 0, 1, 3, 7, 15, 31]

  function Width(gaps: seq<nat>): nat {
    if gaps == [] then 0 else gaps[0] + 1 + Width(gaps[1..])
  }

  /** The given bits, each above its gap. */
  function Placed(b: seq<bool>, gaps: seq<nat>): (r: seq<bool>)
    requires |b| == |gaps|
    ensures |r| == Width(gaps)
    decreases |b|
  {
    if b == [] then [] else Gap(gaps[0], b[0], Placed(b[1..], gaps[1..]))
  }

  /** The number with k zeros below a bit and the bits of `rest` above it. */
  function Up(k: nat, b: bool, rest: nat): nat {
    Pow(2, k) * (Bit(b) + 2 * rest)
  }

  function Bit(b: bool): nat {
    if b then 1 else 0
  }

  lemma UpBits(k: nat, b: bool, rest: nat, width: nat)
    requires k + 1 <= width
    ensures BitsOf(Up(k, b, rest), width) == Gap(k, b, BitsOf(rest, width - k - 1))
  {
    BitsOfShifted(Bit(b) + 2 * rest, k, width);
    BitsOfNext(Bit(b), rest, width - k);
  }

  /** The number that has the bits of `Placed`. */
  function Stacked(b: seq<bool>, gaps: seq<nat>): nat
    requires |b| == |gaps|
    decreases |b|
  {
    if b == [] then 0 else Up(gaps[0], b[0], Stacked(b[1..], gaps[1..]))
  }

  /** The bits of Algorithm 5 that make up the constant of a round. */
  function RoundBits(round: nat): (b: seq<bool>)
    ensures |b| == 7 && forall j :: 0 <= j < 7 ==> b[j] == RcBit(7 * round + j)
  {
    seq(7, j requires 0 <= j => RcBit(7 * round + j))
  }

  /** The constant of Algorithm 6: bit 2^j - 1 is rc(j + 7 round), every other bit is 0. */
  function Generated(round: nat): nat {
    Stacked(RoundBits(round), GAPS)
  }

  lemma GapPowers()
    ensures Pow(2, 0) == 1 && Pow(2, 1) == 2 && Pow(2, 3) == 8 && Pow(2, 7) == 0x80
    ensures Pow(2, 15) == 0x8000 && Pow(2, 31) == 0x80000000
  {
    SmallPowers();
    PowAdd(2, 7, 7);
    PowAdd(2, 14, 1);
    PowAdd(2, 15, 15);
    PowAdd(2, 30, 1);
  }

  /** `Up` with the power of two worked out. */
  function Lift(p: nat, b: bool, rest: nat): nat {
    p * (Bit(b) + 2 * rest)
  }

  function Quick(b: seq<bool>): nat
    requires |b| == 7
  {
    Lift(1, b[0], Lift(1, b[1], Lift(2, b[2], Lift(8, b[3], Lift(0x80, b[4], Lift(0x8000, b[5],
      Lift(0x80000000, b[6], 0)))))))
  }

  lemma LiftIs(b: seq<bool>, i: nat, p: nat, rest: nat)
    requires |b| == 7 && i < 7 && Pow(2, GAPS[i]) == p && Stacked(b[i + 1..], GAPS[i + 1..]) == rest
    ensures Stacked(b[i..], GAPS[i..]) == Lift(p, b[i], rest)
  {
    assert b[i..][1..] == b[i + 1..] && GAPS[i..][1..] == GAPS[i + 1..];
    hide Pow, Bit;
  }

  lemma QuickIsStacked(b: seq<bool>)
    requires |b| == 7
    ensures Stacked(b, GAPS) == Quick(b)
  {
    GapPowers();
    assert Stacked(b[7..], GAPS[7..]) == 0;
    assert b[0..] == b && GAPS[0..] == GAPS;
    hide Pow, Lift, Stacked;
    var r6 := Lift(0x80000000, b[6], 0);
    var r5 := Lift(0x8000, b[5], r6);
    var r4 := Lift(0x80, b[4], r5);
    var r3 := Lift(8, b[3], r4);
    var r2 := Lift(2, b[2], r3);
    var r1 := Lift(1, b[1], r2);
    LiftIs(b, 6, 0x80000000, 0);
    LiftIs(b, 5, 0x8000, r6);
    LiftIs(b, 4, 0x80, r5);
    LiftIs(b, 3, 8, r4);
    LiftIs(b, 2, 2, r3);
    LiftIs(b, 1, 1, r2);
    LiftIs(b, 0, 1, r1);
  }

  /** Seven steps of the register. */
  function Seven(r: Byte): Byte {
    Feedback(Feedback(Feedback(Feedback(Feedback(Feedback(Feedback(r)))))))
  }

  /** The bits that a register yields in seven steps. */
  function Yield(r: Byte): seq<bool> {
    var r1 := Feedback(r);
    var r2 := Feedback(r1);
    var r3 := Feedback(r2);
    var r4 := Feedback(r3);
    var r5 := Feedback(r4);
    var r6 := Feedback(r5);
    [r[0], r1[0], r2[0], r3[0], r4[0], r5[0], r6[0]]
  }

  lemma NextRegister(t: nat)
    ensures Register(t + 1) == Feedback(Register(t))
  {
  }

  lemma FromRegister(round: nat)
    ensures Generated(round) == Quick(Yield(Register(7 * round)))
    ensures Register(7 * (round + 1)) == Seven(Register(7 * round))
  {
    hide Register, Feedback, Quick, Stacked;
    var t, b := 7 * round, RoundBits(round);
    NextRegister(t);
    NextRegister(t + 1);
    NextRegister(t + 2);
    NextRegister(t + 3);
    NextRegister(t + 4);
    NextRegister(t + 5);
    NextRegister(t + 6);
    assert b[0] == RcBit(7 * round + 0);
    assert b == Yield(Register(t));
    QuickIsStacked(b);
  }

  lemma OneRound(round: nat, r: Byte, b: seq<bool>, next: Byte)
    requires Register(7 * round) == r && b == Yield(r) && next == Seven(r)
    ensures |b| == 7 && Generated(round) == Quick(b)
    ensures Register(7 * (round + 1)) == next
  {
    hide Register, Generated, Feedback, Quick;
    FromRegister(round);
  }

  lemma FirstRegister()
    ensures Register(0) == [true, false, false, false, false, false, false, false]
  {
  }

  lemma Rounds0And1()
    ensures Generated(0) == 0x0000000000000001
    ensures Generated(1) == 0x0000000000008082
    ensures Register(14) == [false, false, false, true, true, false, true, true]
  {
    hide Register, Generated;
    FirstRegister();
    OneRound(0, [true, false, false, false, false, false, false, false],
             [true, false, false, false, false, false, false],
             [false, false, false, false, false, false, false, true]);
    OneRound(1, [false, false, false, false, false, false, false, true],
             [false, true, false, true, true, false, false],
             [false, false, false, true, true, false, true, true]);
  }

  lemma Rounds2And3()
    ensures Generated(2) == 0x800000000000808A
    ensures Generated(3) == 0x8000000080008000
    ensures Register(28) == [true, true, true, true, true, false, true, true]
  {
    hide Register, Generated;
    Rounds0And1();
    OneRound(2, [false, false, false, true, true, false, true, true],
             [false, true, true, true, true, false, true],
             [false, true, false, true, true, false, false, false]);
    OneRound(3, [false, true, false, true, true, false, false, false],
             [false, false, false, false, true, true, true],
             [true, true, true, true, true, false, true, true]);
  }

  lemma Rounds4And5()
    ensures Generated(4) == 0x000000000000808B
    ensures Generated(5) == 0x0000000080000001
    ensures Register(42) == [true, false, true, false, true, true, false, false]
  {
    hide Register, Generated;
    Rounds2And3();
    OneRound(4, [true, true, true, true, true, false, true, true],
             [true, true, true, true, true, false, false],
             [true, false, false, true, false, false, false, false]);
    OneRound(5, [true, false, false, true, false, false, false, false],
             [true, false, false, false, false, true, false],
             [true, false, true, false, true, true, false, false]);
  }

  lemma Rounds6And7()
    ensures Generated(6) == 0x8000000080008081
    ensures Generated(7) == 0x8000000000008009
    ensures Register(56) == [false, true, false, true, false, false, true, true]
  {
    hide Register, Generated;
    Rounds4And5();
    OneRound(6, [true, false, true, false, true, true, false, false],
             [true, false, false, true, true, true, true],
             [true, true, true, true, false, false, true, false]);
    OneRound(7, [true, true, true, true, false, false, true, false],
             [true, false, true, false, true, false, true],
             [false, true, false, true, false, false, true, true]);
  }

  lemma Rounds8And9()
    ensures Generated(8) == 0x000000000000008A
    ensures Generated(9) == 0x0000000000000088
    ensures Register(70) == [true, false, false, false, false, false, true, false]
  {
    hide Register, Generated;
    Rounds6And7();
    OneRound(8, [false, true, false, true, false, false, true, true],
             [false, true, true, true, false, false, false],
             [false, false, false, false, true, true, true, false]);
    OneRound(9, [false, false, false, false, true, true, true, false],
             [false, false, true, true, false, false, false],
             [true, false, false, false, false, false, true, false]);
  }

  lemma Rounds10And11()
    ensures Generated(10) == 0x0000000080008009
    ensures Generated(11) == 0x000000008000000A
    ensures Register(84) == [true, false, true, false, true, false, true, true]
  {
    hide Register, Generated;
    Rounds8And9();
    OneRound(10, [true, false, false, false, false, false, true, false],
             [true, false, true, false, true, true, false],
             [false, false, true, true, false, true, true, true]);
    OneRound(11, [false, false, true, true, false, true, true, true],
             [false, true, true, false, false, true, false],
             [true, false, true, false, true, false, true, true]);
  }

  lemma Rounds12And13()
    ensures Generated(12) == 0x000000008000808B
    ensures Generated(13) == 0x800000000000008B
    ensures Register(98) == [true, true, false, false, false, true, true, false]
  {
    hide Register, Generated;
    Rounds10And11();
    OneRound(12, [true, false, true, false, true, false, true, true],
             [true, true, true, true, true, true, false],
             [true, false, true, true, false, false, true, true]);
    OneRound(13, [true, false, true, true, false, false, true, true],
             [true, true, true, true, false, false, true],
             [true, true, false, false, false, true, true, false]);
  }

  lemma Rounds14And15()
    ensures Generated(14) == 0x8000000000008089
    ensures Generated(15) == 0x8000000000008003
    ensures Register(112) == [false, true, false, true, false, true, false, true]
  {
    hide Register, Generated;
    Rounds12And13();
    OneRound(14, [true, true, false, false, false, true, true, false],
             [true, false, true, true, true, false, true],
             [true, true, false, true, false, true, false, true]);
    OneRound(15, [true, true, false, true, false, true, false, true],
             [true, true, false, false, true, false, true],
             [false, true, false, true, false, true, false, true]);
  }

  lemma Rounds16And17()
    ensures Generated(16) == 0x8000000000008002
    ensures Generated(17) == 0x8000000000000080
    ensures Register(126) == [false, true, false, false, true, true, true, true]
  {
    hide Register, Generated;
    Rounds14And15();
    OneRound(16, [false, true, false, true, false, true, false, true],
             [false, true, false, false, true, false, true],
             [false, true, false, true, false, true, false, false]);
    OneRound(17, [false, true, false, true, false, true, false, false],
             [false, false, false, true, false, false, true],
             [false, true, false, false, true, true, true, true]);
  }

  lemma Rounds18And19()
    ensures Generated(18) == 0x000000000000800A
    ensures Generated(19) == 0x800000008000000A
    ensures Register(140) == [true, true, true, false, true, true, false, false]
  {
    hide Register, Generated;
    Rounds16And17();
    OneRound(18, [false, true, false, false, true, true, true, true],
             [false, true, true, false, true, false, false],
             [false, false, false, true, false, true, true, true]);
    OneRound(19, [false, false, false, true, false, true, true, true],
             [false, true, true, false, false, true, true],
             [true, true, true, false, true, true, false, false]);
  }

  lemma Rounds20And21()
    ensures Generated(20) == 0x8000000080008081
    ensures Generated(21) == 0x8000000000008080
    ensures Register(154) == [true, true, false, true, false, false, false, false]
  {
    hide Register, Generated;
    Rounds18And19();
    OneRound(20, [true, true, true, false, true, true, false, false],
             [true, false, false, true, true, true, true],
             [false, true, true, true, true, true, false, false]);
    OneRound(21, [false, true, true, true, true, true, false, false],
             [false, false, false, true, true, false, true],
             [true, true, false, true, false, false, false, false]);
  }

  lemma Rounds22And23()
    ensures Generated(22) == 0x0000000080000001
    ensures Generated(23) == 0x8000000080008008
  {
    hide Register, Generated;
    Rounds20And21();
    OneRound(22, [true, true, false, true, false, false, false, false],
             [true, false, false, false, false, true, false],
             [false, false, true, false, false, false, true, false]);
    OneRound(23, [false, false, true, false, false, false, true, false],
             [false, false, true, false, true, true, true],
             [false, true, true, true, false, false, false, true]);
  }

  /** The table in the source equals the constants FIPS 202 defines. */
  lemma ConstantsAreGenerated(round: nat)
    requires round < 24
    ensures RC[round] == Generated(round)
  {
    hide Generated, Register;
    Rounds0And1();
    Rounds2And3();
    Rounds4And5();
    Rounds6And7();
    Rounds8And9();
    Rounds10And11();
    Rounds12And13();
    Rounds14And15();
    Rounds16And17();
    Rounds18And19();
    Rounds20And21();
    Rounds22And23();
  }

  // ----- the bits that iota adds

  lemma {:induction false} StackedBits(b: seq<bool>, gaps: seq<nat>)
    requires |b| == |gaps|
    ensures BitsOf(Stacked(b, gaps), Width(gaps)) == Placed(b, gaps)
    decreases |b|
  {
    hide Up, Gap;
    if b != [] {
      hide BitsOf;
      StackedBits(b[1..], gaps[1..]);
      UpBits(gaps[0], b[0], Stacked(b[1..], gaps[1..]), Width(gaps));
    }
  }

  /** The position of the j-th bit. */
  ghost function Place(gaps: seq<nat>, j: nat): nat
    requires j < |gaps|
  {
    if j == 0 then gaps[0] else gaps[0] + 1 + Place(gaps[1..], j - 1)
  }

  lemma {:induction false} PlacedAt(b: seq<bool>, gaps: seq<nat>, z: nat)
    requires |b| == |gaps| && z < Width(gaps)
    ensures Placed(b, gaps)[z] <==> exists j :: 0 <= j < |gaps| && z == Place(gaps, j) && b[j]
    decreases |b|
  {
    hide Gap;
    var k, bs, gs := gaps[0], b[1..], gaps[1..];
    GapAt(k, b[0], Placed(bs, gs), z);
    if z <= k {
      assert Place(gaps, 0) == k;
    } else {
      PlacedAt(bs, gs, z - k - 1);
      forall j | 0 <= j < |gs| ensures Place(gaps, j + 1) == k + 1 + Place(gs, j) && b[j + 1] == bs[j] {
      }
      forall j | 0 < j < |gaps| ensures Place(gaps, j) == k + 1 + Place(gs, j - 1) && b[j] == bs[j - 1] {
      }
    }
  }

  /** z is the place of a bit that is set in the constant of the round. */
  ghost predicate IsSet(round: nat, z: nat) {
    exists j :: 0 <= j <= 6 && z == Pow(2, j) - 1 && RcBit(7 * round + j)
  }

  lemma PlaceStep(i: nat, j: nat)
    requires i + j < 7
    ensures Place(GAPS[i..], j) == if j == 0 then GAPS[i] else GAPS[i] + 1 + Place(GAPS[i + 1..], j - 1)
  {
    assert GAPS[i..][1..] == GAPS[i + 1..];
  }

  /** The j-th bit above the i-th is 2^(i + j) - 1 less the places below. */
  lemma {:induction false} PlaceFrom(i: nat, j: nat)
    requires i + j < 7
    ensures Place(GAPS[i..], j) + (if i == 0 then 0 else Pow(2, i - 1)) == Pow(2, i + j) - 1
    decreases j
  {
    SmallPowers();
    hide Pow, Place;
    PlaceStep(i, j);
    if j > 0 {
      PlaceFrom(i + 1, j - 1);
    }
  }

  /** The places are those of Algorithm 6. */
  lemma PlaceIs(j: nat)
    requires j < 7
    ensures Place(GAPS, j) == Pow(2, j) - 1
  {
    hide Pow, Place;
    PlaceFrom(0, j);
    assert GAPS[0..] == GAPS;
  }

  lemma SixtyFour()
    ensures Width(GAPS) == 64
  {
    assert GAPS[1..] == [0, 1, 3, 7, 15, 31] && GAPS[1..][1..] == [1, 3, 7, 15, 31];
    assert [1, 3, 7, 15, 31][1..] == [3, 7, 15, 31] && [3, 7, 15, 31][1..] == [7, 15, 31];
    assert [7, 15, 31][1..] == [15, 31] && [15, 31][1..] == [31] && [31][1..] == [];
  }

  lemma PlacedIsSet(round: nat, z: nat)
    requires z < 64
    ensures Width(GAPS) == 64
    ensures Placed(RoundBits(round), GAPS)[z] <==> IsSet(round, z)
  {
    SixtyFour();
    hide Placed, Pow, RcBit, RoundBits, Place, Width;
    var b := RoundBits(round);
    PlacedAt(b, GAPS, z);
    forall j: nat | j < 7 ensures Place(GAPS, j) == Pow(2, j) - 1 && b[j] == RcBit(7 * round + j) {
      PlaceIs(j);
    }
    if IsSet(round, z) {
      var j :| 0 <= j <= 6 && z == Pow(2, j) - 1 && RcBit(7 * round + j);
      assert z == Place(GAPS, j) && b[j];
    }
    if Placed(b, GAPS)[z] {
      var j :| 0 <= j < |GAPS| && z == Place(GAPS, j) && b[j];
      assert z == Pow(2, j) - 1 && RcBit(7 * round + j);
    }
  }

  /** Bit z of lane (0, 0) is flipped by iota if and only if z is 2^j - 1 for a j up to 6 with rc(7 round + j) set;
      no other lane changes. */
  lemma IotaFlips(s: State, round: nat, z: nat)
    requires round < 24 && z < 64
    ensures Iota(s, round)[0][0][z] != s[0][0][z] <==> IsSet(round, z)
    ensures forall x, y :: 0 <= x < 5 && 0 <= y < 5 && (x, y) != (0, 0) ==> Iota(s, round)[x][y] == s[x][y]
  {
    hide BitsOf, IsSet, Placed, RoundBits, Stacked, Iota;
    forall x, y | 0 <= x < 5 && 0 <= y < 5
      ensures Iota(s, round)[x][y] == if (x, y) == (0, 0) then Xor(s[x][y], BitsOf(RC[round], 64)) else s[x][y]
    {
      IotaAt(s, round, x, y);
    }
    ConstantsAreGenerated(round);
    StackedBits(RoundBits(round), GAPS);
    PlacedIsSet(round, z);
  }
}
