/** What a round of Keccak-p does to each lane, and how the rounds follow the table of constants. */
module KeccakRounds {
  import opened Bits
  import opened Keccak

  /** Lane (x, y) with the parities of its two neighbouring columns added, rotated by its offset. */
  ghost function Turned(s: State, x: int, y: int): Lane {
    Rot(Xor(At(s, x, y), Xor(Parity(s, x - 1), Rot(Parity(s, x + 1), 1))), Offset(x, y))
  }

  /** The lane that comes to (x, y) before the rows are combined. */
  ghost function Arrived(s: State, x: int, y: int): Lane {
    Turned(s, x + 3 * y, x)
  }

  /** Lane (x, y) after a round with the constant rc. */
  ghost function NewLane(s: State, rc: nat, x: int, y: int): Lane {
    var lane := Xor(Arrived(s, x, y), And(Not(Arrived(s, x + 1, y)), Arrived(s, x + 2, y)));
    if x == 0 && y == 0 then Xor(lane, BitsOf(rc, 64)) else lane
  }

  ghost function Step(s: State, rc: nat): (t: State)
    ensures forall x, y :: 0 <= x < 5 && 0 <= y < 5 ==> t[x][y] == NewLane(s, rc, x, y)
  {
    seq(5, x => seq(5, y => NewLane(s, rc, x, y)))
  }

  lemma RhoOfTheta(s: State, x: int, y: int)
    ensures At(Rho(Theta(s)), x, y) == Turned(s, x, y)
  {
    hide Xor, Rot, Parity, Offset;
    var u, v := x % 5, y % 5;
    assert At(Rho(Theta(s)), x, y) == Rot(At(Theta(s), u, v), Offset(u, v));
    assert At(Theta(s), u, v) == ThetaLane(s, u, v);
    WrapsAround(s, x, y);
  }

  lemma WrapsAround(s: State, x: int, y: int)
    ensures At(s, x % 5, y % 5) == At(s, x, y) && Offset(x % 5, y % 5) == Offset(x, y)
    ensures Parity(s, x % 5 - 1) == Parity(s, x - 1) && Parity(s, x % 5 + 1) == Parity(s, x + 1)
  {
    hide Xor;
    assert (x % 5 - 1) % 5 == (x - 1) % 5 && (x % 5 + 1) % 5 == (x + 1) % 5;
  }

  lemma PiOfRho(s: State, x: int, y: int)
    requires 0 <= y < 5
    ensures At(Pi(Rho(Theta(s))), x, y) == Turned(s, x % 5 + 3 * y, x % 5)
  {
    hide Turned, Rho, Theta;
    var u := x % 5;
    RhoOfTheta(s, u + 3 * y, u);
    PiAt(Rho(Theta(s)), u, y);
  }

  lemma TurnedMod(s: State, x: int, y: int)
    ensures Turned(s, x % 5, y % 5) == Turned(s, x, y)
  {
    hide Xor, Rot, Parity, Offset, At;
    WrapsAround(s, x, y);
  }

  lemma TurnedWraps(s: State, x: int, y: int)
    ensures Turned(s, x % 5 + 3 * y, x % 5) == Arrived(s, x, y)
  {
    hide Turned;
    TurnedMod(s, x % 5 + 3 * y, x % 5);
    TurnedMod(s, x + 3 * y, x);
    assert (x % 5 + 3 * y) % 5 == (x + 3 * y) % 5 && x % 5 % 5 == x % 5;
  }

  /** A round is exactly this: theta, rho, pi, chi and iota in this order. */
  lemma RoundIsStep(s: State, round: nat)
    requires round < 24
    ensures Round(s, round) == Step(s, RC[round])
  {
    forall x, y | 0 <= x < 5 && 0 <= y < 5 ensures Round(s, round)[x][y] == Step(s, RC[round])[x][y] {
      RoundAt(s, round, x, y);
    }
    hide *;
    SameLanes(Round(s, round), Step(s, RC[round]));
  }

  lemma RoundAt(s: State, round: nat, x: int, y: int)
    requires round < 24 && 0 <= x < 5 && 0 <= y < 5
    ensures Round(s, round)[x][y] == NewLane(s, RC[round], x, y)
  {
    hide Pi, Rho, Theta, Xor, And, Not, BitsOf, Arrived, Turned, Iota;
    var p := Pi(Rho(Theta(s)));
    IotaAt(Chi(p), round, x, y);
    PiOfRho(s, x, y);
    PiOfRho(s, x + 1, y);
    PiOfRho(s, x + 2, y);
    TurnedWraps(s, x, y);
    TurnedWraps(s, x + 1, y);
    TurnedWraps(s, x + 2, y);
    assert Chi(p)[x][y] == ChiLane(p, x, y);
  }

  /** One step for each constant of a table. */
  ghost function Follow(s: State, table: seq<nat>): State {
    if table == [] then s else Step(Follow(s, table[..|table| - 1]), table[|table| - 1])
  }

  lemma {:induction false} RoundsFollow(s: State, n: nat)
    requires n <= 24
    ensures Rounds(s, n) == Follow(s, RC[..n])
  {
    hide Round, Step;
    if n > 0 {
      RoundsFollow(s, n - 1);
      assert RC[..n][..n - 1] == RC[..n - 1];
      RoundIsStep(Rounds(s, n - 1), n - 1);
    }
  }

  /** The permutation runs one round for each of the 24 constants of the table, in order. */
  lemma KeccakPFollowsTable(s: State)
    ensures |RC| == 24 && KeccakP(s) == Follow(s, RC)
  {
    hide Rounds, Follow;
    RoundsFollow(s, 24);
    assert RC[..24] == RC;
  }

  // ----- the first two rounds of the zero state

  lemma ZeroRules()
    ensures Xor(Zeros(64), Zeros(64)) == Zeros(64)
    ensures forall n :: 0 <= n <= 64 ==> Rot(Zeros(64), n) == Zeros(64)
    ensures forall a: Lane :: And(a, Zeros(64)) == Zeros(64) && Xor(a, Zeros(64)) == a && Xor(Zeros(64), a) == a
  {
  }

  lemma NoParity(s: State, x: int)
    requires forall y :: 0 <= y < 5 ==> s[x % 5][y] == Zeros(64)
    ensures Parity(s, x) == Zeros(64)
  {
    ZeroRules();
    hide Xor, Rot, And;
  }

  /** A zero lane between two zero columns stays zero until the rows are combined. */
  lemma TurnedZero(s: State, x: int, y: int)
    requires At(s, x, y) == Parity(s, x - 1) == Parity(s, x + 1) == Zeros(64)
    ensures Turned(s, x, y) == Zeros(64)
  {
    ZeroRules();
    hide Xor, Rot, And, Parity, Offset;
  }

  ghost predicate AllZero(s: State) {
    forall x, y :: 0 <= x < 5 && 0 <= y < 5 ==> s[x][y] == Zeros(64)
  }

  lemma ArrivedZero(s: State, x: int, y: int)
    requires AllZero(s)
    ensures Arrived(s, x, y) == Zeros(64)
  {
    hide Xor, Rot, Parity, Turned;
    var u := x + 3 * y;
    NoParity(s, u - 1);
    NoParity(s, u + 1);
    TurnedZero(s, u, x);
  }

  lemma ZeroStateIsZero()
    ensures AllZero(ZeroState())
  {
  }

  lemma RowOfZeros(a: Lane)
    ensures Xor(Zeros(64), And(Not(Zeros(64)), Zeros(64))) == Zeros(64)
    ensures Xor(Zeros(64), a) == a
  {
  }

  lemma ZeroLane(s: State, rc: nat, x: int, y: int)
    requires AllZero(s)
    ensures NewLane(s, rc, x, y) == if x == 0 && y == 0 then BitsOf(rc, 64) else Zeros(64)
  {
    hide AllZero, Xor, And, Not, BitsOf, Arrived;
    ArrivedZero(s, x, y);
    ArrivedZero(s, x + 1, y);
    ArrivedZero(s, x + 2, y);
    RowOfZeros(BitsOf(rc, 64));
  }

  /** After one round of the zero state only bit 0 of lane (0, 0) is set. */
  lemma FirstRound(x: int, y: int)
    requires 0 <= x < 5 && 0 <= y < 5
    ensures Rounds(ZeroState(), 1)[x][y] == if x == 0 && y == 0 then BitsOf(1, 64) else Zeros(64)
  {
    hide ZeroState, BitsOf, Round, AllZero, NewLane;
    var s := ZeroState();
    assert Rounds(s, 1) == Round(s, 0);
    hide Rounds;
    RoundAt(s, 0, x, y);
    ZeroStateIsZero();
    ZeroLane(s, RC[0], x, y);
  }

  lemma OneBit()
    ensures Xor(BitsOf(1, 64), BitsOf(0x8082, 64)) == BitsOf(0x8083, 64)
  {
    hide BitsOf;
    BitsOfNext(1, 0, 64);
    BitsOfNext(0, 0x4041, 64);
    BitsOfNext(1, 0x4041, 64);
    NoBits(63);
    FirstBit(BitsOf(0x4041, 63));
  }

  lemma FirstBit(a: seq<bool>)
    requires |a| == 63
    ensures Xor([true] + Zeros(63), [false] + a) == [true] + a
  {
  }

  lemma {:induction false} NoBits(n: nat)
    ensures BitsOf(0, n) == Zeros(n)
  {
    if n > 0 {
      NoBits(n - 1);
    }
  }

  /** A state with nothing but lane (0, 0): a round leaves that lane as it is, up to the constant. */
  lemma LoneLane(t: State, rc: nat)
    requires forall x, y :: 0 <= x < 5 && 0 <= y < 5 && (x, y) != (0, 0) ==> t[x][y] == Zeros(64)
    ensures NewLane(t, rc, 0, 0) == Xor(t[0][0], BitsOf(rc, 64))
  {
    NoOffset();
    NoTurn(t[0][0]);
    hide Xor, Rot, And, Not, Parity, Offset, BitsOf;
    NoParity(t, -1);
    NoParity(t, 1);
    NoParity(t, 3);
    ZeroRules();
    assert Turned(t, 0, 0) == t[0][0];
    TurnedZero(t, 2, 2);
    hide Turned;
  }

  /** After two rounds lane (0, 0) is 0x8083. */
  lemma SecondRound()
    ensures Rounds(ZeroState(), 2)[0][0] == BitsOf(0x8083, 64)
  {
    hide BitsOf, Round, ZeroState, NewLane;
    var t := Rounds(ZeroState(), 1);
    assert Rounds(ZeroState(), 2) == Round(t, 1);
    hide Rounds;
    forall x, y | 0 <= x < 5 && 0 <= y < 5
      ensures t[x][y] == if x == 0 && y == 0 then BitsOf(1, 64) else Zeros(64)
    {
      FirstRound(x, y);
    }
    LoneLane(t, RC[1]);
    RoundAt(t, 1, 0, 0);
    OneBit();
  }

  lemma NoOffset()
    ensures Offset(0, 0) == 0
  {
  }

  lemma NoTurn(a: Lane)
    ensures Rot(a, 0) == a
  {
  }
}
