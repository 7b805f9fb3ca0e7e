/** Keccak-p[1600, 24] is a bijection on all states: each step mapping has an explicit inverse,
    proved from both sides. */
module KeccakBijection {
  import opened Bits
  import opened Keccak

  // ----- theta
  //
  // On the five column parities theta multiplies by P = 1 + X + X^4 Z, where X shifts the sheet and
  // Z the bit, so X^5 = 1 and Z^64 = 1.  Squaring six times gives P^64 = 1 + X^4 + X, whose inverse is
  // 1 + X^2 + X^3.

  type Plane = p: seq<Lane> | |p| == 5 witness seq(5, x => Zeros(64))

  function Parities(s: State): Plane {
    [Parity(s, 0), Parity(s, 1), Parity(s, 2), Parity(s, 3), Parity(s, 4)]
  }

  /** Multiplication by 1 + X^k + X^-k Z^r. */
  function MixLane(p: Plane, k: nat, r: nat, x: int): Lane
    requires k <= 5 && r <= 64
  {
    Xor(Xor(p[x % 5], p[(x - k) % 5]), Rot(p[(x + k) % 5], r))
  }

  function Mix(p: Plane, k: nat, r: nat): Plane
    requires k <= 5 && r <= 64
  {
    [MixLane(p, k, r, 0), MixLane(p, k, r, 1), MixLane(p, k, r, 2), MixLane(p, k, r, 3), MixLane(p, k, r, 4)]
  }

  /** Multiplication by 1 + X^2 + X^3. */
  function UnmixLane(p: Plane, x: int): Lane {
    Xor(Xor(p[x % 5], p[(x + 3) % 5]), p[(x + 2) % 5])
  }

  function Unmix(p: Plane): Plane {
    [UnmixLane(p, 0), UnmixLane(p, 1), UnmixLane(p, 2), UnmixLane(p, 3), UnmixLane(p, 4)]
  }

  lemma RotXor(a: Lane, b: Lane, r: nat)
    requires r <= 64
    ensures Rot(Xor(a, b), r) == Xor(Rot(a, r), Rot(b, r))
  {
  }

  lemma RotTwice(a: Lane, r: nat)
    requires r <= 32
    ensures Rot(Rot(a, r), r) == Rot(a, 2 * r)
  {
  }

  lemma XorCancel(a: Lane, b: Lane, c: Lane, d: Lane, e: Lane, f: Lane)
    ensures Xor(Xor(Xor(Xor(a, b), c), Xor(Xor(b, d), e)), Xor(Xor(c, e), f)) == Xor(Xor(a, d), f)
  {
  }

  lemma SquareLane(a: Lane, b: Lane, c: Lane, d: Lane, e: Lane, r: nat)
    requires r <= 32
    ensures Xor(Xor(Xor(Xor(a, b), Rot(c, r)), Xor(Xor(b, d), Rot(a, r))), Rot(Xor(Xor(c, a), Rot(e, r)), r))
         == Xor(Xor(a, d), Rot(e, 2 * r))
  {
    RotXor(Xor(c, a), Rot(e, r), r);
    RotXor(c, a, r);
    RotTwice(e, r);
    XorCancel(a, b, Rot(c, r), d, Rot(a, r), Rot(e, 2 * r));
  }

  lemma MixSquare1(p: Plane, r: nat)
    requires r <= 32
    ensures Mix(Mix(p, 1, r), 1, r) == Mix(p, 2, 2 * r)
  {
    var a, b, c, d, e := p[0], p[1], p[2], p[3], p[4];
    SquareLane(a, e, b, d, c, r);
    SquareLane(b, a, c, e, d, r);
    SquareLane(c, b, d, a, e, r);
    SquareLane(d, c, e, b, a, r);
    SquareLane(e, d, a, c, b, r);
  }

  lemma MixSquare2(p: Plane, r: nat)
    requires r <= 32
    ensures Mix(Mix(p, 2, r), 2, r) == Mix(p, 4, 2 * r)
  {
    var a, b, c, d, e := p[0], p[1], p[2], p[3], p[4];
    SquareLane(a, d, c, b, e, r);
    SquareLane(b, e, d, c, a, r);
    SquareLane(c, a, e, d, b, r);
    SquareLane(d, b, a, e, c, r);
    SquareLane(e, c, b, a, d, r);
  }

  lemma MixSquare3(p: Plane, r: nat)
    requires r <= 32
    ensures Mix(Mix(p, 3, r), 3, r) == Mix(p, 1, 2 * r)
  {
    var a, b, c, d, e := p[0], p[1], p[2], p[3], p[4];
    SquareLane(a, c, d, e, b, r);
    SquareLane(b, d, e, a, c, r);
    SquareLane(c, e, a, b, d, r);
    SquareLane(d, a, b, c, e, r);
    SquareLane(e, b, c, d, a, r);
  }

  lemma MixSquare4(p: Plane, r: nat)
    requires r <= 32
    ensures Mix(Mix(p, 4, r), 4, r) == Mix(p, 3, 2 * r)
  {
    var a, b, c, d, e := p[0], p[1], p[2], p[3], p[4];
    SquareLane(a, b, e, c, d, r);
    SquareLane(b, c, a, d, e, r);
    SquareLane(c, d, b, e, a, r);
    SquareLane(d, e, c, a, b, r);
    SquareLane(e, a, d, b, c, r);
  }

  /** Squaring in characteristic 2 doubles every exponent. */
  lemma MixSquare(p: Plane, k: nat, r: nat)
    requires 1 <= k < 5 && r <= 32
    ensures Mix(Mix(p, k, r), k, r) == Mix(p, 2 * k % 5, 2 * r)
  {
    hide Mix;
    MixSquare1(p, r);
    MixSquare2(p, r);
    MixSquare3(p, r);
    MixSquare4(p, r);
  }

  lemma UnmixInverse(p: Plane)
    ensures Unmix(Mix(p, 4, 64)) == p
    ensures Mix(Unmix(p), 4, 64) == p
  {
    var a, b, c, d, e := p[0], p[1], p[2], p[3], p[4];
    UnmixLanes(a, b, c, d, e);
    UnmixLanes(b, c, d, e, a);
    UnmixLanes(c, d, e, a, b);
    UnmixLanes(d, e, a, b, c);
    UnmixLanes(e, a, b, c, d);
  }

  lemma UnmixLanes(a: Lane, b: Lane, c: Lane, d: Lane, e: Lane)
    ensures Xor(Xor(Xor(Xor(a, b), Rot(e, 64)), Xor(Xor(d, e), Rot(c, 64))), Xor(Xor(c, d), Rot(b, 64))) == a
    ensures Xor(Xor(Xor(Xor(a, d), c), Xor(Xor(b, e), d)), Rot(Xor(Xor(e, c), b), 64)) == a
  {
  }

  /** Multiplication by P^63 and then by the inverse of P^64. */
  function Unparity(p: Plane): Plane {
    Unmix(Mix(Mix(Mix(Mix(Mix(Mix(p, 1, 1), 2, 2), 4, 4), 3, 8), 1, 16), 2, 32))
  }

  lemma UnparityLeft(p: Plane)
    ensures Unparity(Mix(p, 1, 1)) == p
  {
    MixSquare(p, 1, 1);
    MixSquare(p, 2, 2);
    MixSquare(p, 4, 4);
    MixSquare(p, 3, 8);
    MixSquare(p, 1, 16);
    MixSquare(p, 2, 32);
    UnmixInverse(p);
  }

  lemma UnparityRight(p: Plane)
    ensures Mix(Unparity(p), 1, 1) == p
  {
    // the same factors in the opposite order give a right inverse, which the left inverse equals
    var u := Unmix(p);
    var u5 := Mix(u, 2, 32);
    var u4 := Mix(u5, 1, 16);
    var u3 := Mix(u4, 3, 8);
    var u2 := Mix(u3, 4, 4);
    var u1 := Mix(u2, 2, 2);
    var r := Mix(u1, 1, 1);
    MixSquare(u1, 1, 1);
    MixSquare(u2, 2, 2);
    MixSquare(u3, 4, 4);
    MixSquare(u4, 3, 8);
    MixSquare(u5, 1, 16);
    MixSquare(u, 2, 32);
    UnmixInverse(p);
    assert Mix(r, 1, 1) == p;
    UnparityLeft(r);
  }

  /** What theta adds to sheet x, as a function of the column parities. */
  function Effect(p: Plane, x: int): Lane {
    Xor(p[(x - 1) % 5], Rot(p[(x + 1) % 5], 1))
  }

  function AddEffect(s: State, p: Plane): State {
    seq(5, x => seq(5, y => Xor(At(s, x, y), Effect(p, x))))
  }

  function ThetaInverse(t: State): State {
    hide *;
    AddEffect(t, Unparity(Parities(t)))
  }

  lemma ThetaIsAddEffect(s: State)
    ensures Theta(s) == AddEffect(s, Parities(s))
  {
    hide Parity;
    forall x, y | 0 <= x < 5 && 0 <= y < 5
      ensures Theta(s)[x][y] == AddEffect(s, Parities(s))[x][y]
    {
      assert Parity(s, x - 1) == Parities(s)[(x - 1) % 5] by {
        ParityWraps(s, x - 1);
      }
      assert Parity(s, x + 1) == Parities(s)[(x + 1) % 5] by {
        ParityWraps(s, x + 1);
      }
    }
    SameLanes(Theta(s), AddEffect(s, Parities(s)));
  }

  lemma ParityWraps(s: State, x: int)
    ensures Parity(s, x) == Parity(s, x % 5)
  {
  }

  /** Adding one lane to all five lanes of a sheet adds it to the sheet's parity. */
  lemma ParityOfSum(a: Lane, b: Lane, c: Lane, d: Lane, e: Lane, f: Lane)
    ensures Xor(Xor(Xor(Xor(Xor(a, f), Xor(b, f)), Xor(c, f)), Xor(d, f)), Xor(e, f))
         == Xor(Xor(Xor(Xor(Xor(a, b), c), d), e), f)
  {
  }

  lemma ParitiesOfSum(s: State, p: Plane, x: int)
    requires 0 <= x < 5
    ensures Parities(AddEffect(s, p))[x] == Xor(Parities(s)[x], Effect(p, x))
  {
    hide Effect;
    var t := AddEffect(s, p);
    assert Parities(t)[x] == Parity(t, x);
    ParityOfSum(s[x][0], s[x][1], s[x][2], s[x][3], s[x][4], Effect(p, x));
  }

  lemma XorTwice(a: Lane, b: Lane)
    ensures Xor(Xor(a, b), b) == a
  {
  }

  lemma MixIsEffect(p: Plane, x: int)
    requires 0 <= x < 5
    ensures Mix(p, 1, 1)[x] == Xor(p[x], Effect(p, x))
  {
    hide Xor, Rot;
    MixAt(p, x);
    hide Mix;
    XorAssoc(p[x], p[(x - 1) % 5], Rot(p[(x + 1) % 5], 1));
  }

  lemma MixAt(p: Plane, x: int)
    requires 0 <= x < 5
    ensures Mix(p, 1, 1)[x] == MixLane(p, 1, 1, x)
  {
    hide MixLane;
  }

  lemma AddEffectTwice(s: State, p: Plane)
    ensures AddEffect(AddEffect(s, p), p) == s
  {
    hide Effect;
    forall x, y | 0 <= x < 5 && 0 <= y < 5
      ensures AddEffect(AddEffect(s, p), p)[x][y] == s[x][y]
    {
      XorTwice(s[x][y], Effect(p, x));
    }
    SameLanes(AddEffect(AddEffect(s, p), p), s);
  }

  lemma ThetaLeft(s: State)
    ensures ThetaInverse(Theta(s)) == s
  {
    hide AddEffect, Unparity, Parities, Mix, Effect, Theta;
    var p := Parities(s);
    ThetaIsAddEffect(s);
    assert Parities(Theta(s)) == Mix(p, 1, 1) by {
      forall x | 0 <= x < 5
        ensures Parities(Theta(s))[x] == Mix(p, 1, 1)[x]
      {
        ParitiesOfSum(s, p, x);
        MixIsEffect(p, x);
      }
    }
    UnparityLeft(p);
    AddEffectTwice(s, p);
  }

  lemma ThetaRight(t: State)
    ensures Theta(ThetaInverse(t)) == t
  {
    hide AddEffect, Unparity, Parities, Mix, Effect, Theta;
    var p := Unparity(Parities(t));
    var s := ThetaInverse(t);
    UnparityRight(Parities(t));
    assert Parities(s) == p by {
      forall x | 0 <= x < 5
        ensures Parities(s)[x] == p[x]
      {
        ParitiesOfSum(t, p, x);
        MixIsEffect(p, x);
        XorTwice(p[x], Effect(p, x));
      }
    }
    ThetaIsAddEffect(s);
    AddEffectTwice(t, p);
  }

  // ----- rho

  function RhoInverse(t: State): State {
    seq(5, x => seq(5, y => Rot(At(t, x, y), 64 - Offset(x, y))))
  }

  lemma RotBack(a: Lane, n: nat)
    requires n <= 64
    ensures Rot(Rot(a, n), 64 - n) == a
  {
  }

  lemma RhoInverseAt(s: State, x: int, y: int)
    requires 0 <= x < 5 && 0 <= y < 5
    ensures RhoInverse(s)[x][y] == Rot(s[x][y], 64 - Offset(x, y))
  {
    hide Offset, Rot;
  }

  lemma RhoBothWays(s: State)
    ensures RhoInverse(Rho(s)) == s
    ensures Rho(RhoInverse(s)) == s
  {
    hide *;
    forall x, y | 0 <= x < 5 && 0 <= y < 5
      ensures RhoInverse(Rho(s))[x][y] == s[x][y] && Rho(RhoInverse(s))[x][y] == s[x][y]
    {
      RhoAt(s, x, y);
      RhoInverseAt(Rho(s), x, y);
      RhoInverseAt(s, x, y);
      RhoAt(RhoInverse(s), x, y);
      RotBack(s[x][y], Offset(x, y));
      RotBack(s[x][y], 64 - Offset(x, y));
    }
    SameLanes(RhoInverse(Rho(s)), s);
    SameLanes(Rho(RhoInverse(s)), s);
  }

  // ----- pi

  function PiInverse(t: State): State {
    seq(5, x => seq(5, y => At(t, y, 2 * x + 3 * y)))
  }

  lemma PiInverseAt(s: State, x: int, y: int)
    requires 0 <= x < 5 && 0 <= y < 5
    ensures PiInverse(s)[x][y] == s[y][(2 * x + 3 * y) % 5]
  {
  }

  lemma PiBothWays(s: State)
    ensures PiInverse(Pi(s)) == s
    ensures Pi(PiInverse(s)) == s
  {
    hide *;
    forall x, y | 0 <= x < 5 && 0 <= y < 5
      ensures PiInverse(Pi(s))[x][y] == s[x][y] && Pi(PiInverse(s))[x][y] == s[x][y]
    {
      PiIndices(x, y);
      PiInverseAt(Pi(s), x, y);
      PiAt(s, y, (2 * x + 3 * y) % 5);
      PiAt(PiInverse(s), x, y);
      PiInverseAt(s, (x + 3 * y) % 5, x);
    }
    SameLanes(PiInverse(Pi(s)), s);
    SameLanes(Pi(PiInverse(s)), s);
  }

  lemma PiIndices(x: int, y: int)
    requires 0 <= x < 5 && 0 <= y < 5
    ensures (y + 3 * ((2 * x + 3 * y) % 5)) % 5 == x
    ensures (2 * ((x + 3 * y) % 5) + 3 * x) % 5 == y
  {
    var q, r := (2 * x + 3 * y) / 5, (x + 3 * y) / 5;
    Remainder(y + 3 * ((2 * x + 3 * y) % 5), x, x + 2 * y - 3 * q);
    Remainder(2 * ((x + 3 * y) % 5) + 3 * x, y, x + y - 2 * r);
  }

  lemma Remainder(n: int, r: int, q: int)
    requires 0 <= r < 5 && n == r + 5 * q
    ensures n % 5 == r
  {
  }

  // ----- chi

  function ChiInverse5(a: Lane, b: Lane, c: Lane, d: Lane, e: Lane): Lane {
    Xor(a, And(Not(b), Xor(c, And(Not(d), e))))
  }

  function ChiInverseLane(t: State, x: int, y: int): Lane {
    ChiInverse5(At(t, x, y), At(t, x + 1, y), At(t, x + 2, y), At(t, x + 3, y), At(t, x + 4, y))
  }

  function ChiInverse(t: State): State {
    seq(5, x => seq(5, y => ChiInverseLane(t, x, y)))
  }

  lemma ChiRow(a: Lane, b: Lane, c: Lane, d: Lane, e: Lane)
    ensures ChiInverse5(Chi3(a, b, c), Chi3(b, c, d), Chi3(c, d, e), Chi3(d, e, a), Chi3(e, a, b)) == a
    ensures Chi3(ChiInverse5(a, b, c, d, e), ChiInverse5(b, c, d, e, a), ChiInverse5(c, d, e, a, b)) == a
  {
  }

  lemma ChiAnywhere(s: State, x: int, y: int)
    requires 0 <= y < 5
    ensures At(Chi(s), x, y) == ChiLane(s, x, y)
    ensures At(ChiInverse(s), x, y) == ChiInverseLane(s, x, y)
  {
    hide Chi3, ChiInverse5, Chi, ChiInverse;
    ChiIndex(s, x % 5, y);
    assert At(Chi(s), x, y) == Chi(s)[x % 5][y] && At(ChiInverse(s), x, y) == ChiInverse(s)[x % 5][y];
    AtWraps(s, x, y);
    hide At;
  }

  lemma ChiIndex(s: State, x: int, y: int)
    requires 0 <= x < 5 && 0 <= y < 5
    ensures Chi(s)[x][y] == ChiLane(s, x, y)
    ensures ChiInverse(s)[x][y] == ChiInverseLane(s, x, y)
  {
    hide ChiLane, ChiInverseLane;
  }

  lemma AtWraps(s: State, x: int, y: int)
    ensures At(s, x % 5, y) == At(s, x, y)
    ensures At(s, x % 5 + 1, y) == At(s, x + 1, y)
    ensures At(s, x % 5 + 2, y) == At(s, x + 2, y)
    ensures At(s, x % 5 + 3, y) == At(s, x + 3, y)
    ensures At(s, x % 5 + 4, y) == At(s, x + 4, y)
  {
  }

  lemma ChiBothWays(s: State)
    ensures ChiInverse(Chi(s)) == s
    ensures Chi(ChiInverse(s)) == s
  {
    hide *;
    forall x, y | 0 <= x < 5 && 0 <= y < 5
      ensures ChiInverse(Chi(s))[x][y] == s[x][y] && Chi(ChiInverse(s))[x][y] == s[x][y]
    {
      ChiBothWaysAt(s, x, y);
    }
    SameLanes(ChiInverse(Chi(s)), s);
    SameLanes(Chi(ChiInverse(s)), s);
  }

  lemma ChiBothWaysAt(s: State, x: int, y: int)
    requires 0 <= x < 5 && 0 <= y < 5
    ensures ChiInverse(Chi(s))[x][y] == s[x][y] && Chi(ChiInverse(s))[x][y] == s[x][y]
  {
    hide Chi, ChiInverse, Chi3, ChiInverse5;
    ChiAnywhere(Chi(s), x, y);
    ChiAnywhere(ChiInverse(s), x, y);
    ChiAnywhere(s, x, y);
    ChiAnywhere(s, x + 1, y);
    ChiAnywhere(s, x + 2, y);
    ChiAnywhere(s, x + 3, y);
    ChiAnywhere(s, x + 4, y);
    ChiRow(At(s, x, y), At(s, x + 1, y), At(s, x + 2, y), At(s, x + 3, y), At(s, x + 4, y));
  }

  // ----- iota

  lemma IotaTwice(s: State, round: nat)
    requires round < 24
    ensures Iota(Iota(s, round), round) == s
  {
    hide BitsOf;
    XorTwice(s[0][0], BitsOf(RC[round], 64));
    SameLanes(Iota(Iota(s, round), round), s);
  }

  // ----- the permutation

  function RoundInverse(t: State, round: nat): State
    requires round < 24
  {
    hide *;
    ThetaInverse(RhoInverse(PiInverse(ChiInverse(Iota(t, round)))))
  }

  lemma RoundBothWays(s: State, round: nat)
    requires round < 24
    ensures RoundInverse(Round(s, round), round) == s
    ensures Round(RoundInverse(s, round), round) == s
  {
    hide Theta, Rho, Pi, Chi, Iota, ThetaInverse, RhoInverse, PiInverse, ChiInverse;
    ThetaLeft(s);
    RhoBothWays(Theta(s));
    PiBothWays(Rho(Theta(s)));
    ChiBothWays(Pi(Rho(Theta(s))));
    IotaTwice(Chi(Pi(Rho(Theta(s)))), round);

    var i := Iota(s, round);
    IotaTwice(s, round);
    ChiBothWays(i);
    PiBothWays(ChiInverse(i));
    RhoBothWays(PiInverse(ChiInverse(i)));
    ThetaRight(RhoInverse(PiInverse(ChiInverse(i))));
  }

  /** Undoes the first `n` rounds, last round first. */
  function RoundsInverse(t: State, n: nat): State
    requires n <= 24
    decreases n
  {
    hide *;
    if n == 0 then t else RoundsInverse(RoundInverse(t, n - 1), n - 1)
  }

  function KeccakPInverse(t: State): State {
    RoundsInverse(t, 24)
  }

  lemma {:induction false} RoundsBothWays(s: State, n: nat)
    requires n <= 24
    ensures RoundsInverse(Rounds(s, n), n) == s
    ensures Rounds(RoundsInverse(s, n), n) == s
    decreases n
  {
    hide Round, RoundInverse;
    if n > 0 {
      RoundBothWays(Rounds(s, n - 1), n - 1);
      RoundsBothWays(s, n - 1);
      RoundsBothWays(RoundInverse(s, n - 1), n - 1);
      RoundBothWays(s, n - 1);
    }
  }

  /** Keccak-p[1600, 24] is a bijection on all 1600-bit states. */
  lemma KeccakPIsBijection()
    ensures forall s: State :: KeccakPInverse(KeccakP(s)) == s
    ensures forall t: State :: KeccakP(KeccakPInverse(t)) == t
  {
    hide Rounds, RoundsInverse;
    forall s: State
      ensures KeccakPInverse(KeccakP(s)) == s && KeccakP(KeccakPInverse(s)) == s
    {
      RoundsBothWays(s, 24);
    }
  }
}
