/** The in-place step functions of libethash-cpu/picosha3.h, each proved to leave in the array the
    step mapping of FIPS 202. */
module KeccakSteps {
  import opened Bits
  import opened Keccak

  ghost predicate IsState(a: array2<Lane>) {
    a.Length0 == 5 && a.Length1 == 5
  }

  ghost function Lanes(a: array2<Lane>): (s: State)
    requires IsState(a)
    reads a
  {
    seq(5, x requires 0 <= x < 5 reads a => seq(5, y requires 0 <= y < 5 reads a => a[x, y]))
  }

  lemma LanesAre(a: array2<Lane>, s: State)
    requires IsState(a)
    requires forall x, y :: 0 <= x < 5 && 0 <= y < 5 ==> a[x, y] == s[x][y]
    ensures Lanes(a) == s
  {
    SameLanes(Lanes(a), s);
  }

  // ----- theta

  method ColumnParities(a: array2<Lane>) returns (c: array<Lane>)
    requires IsState(a)
    ensures fresh(c) && c.Length == 5
    ensures forall x :: 0 <= x < 5 ==> c[x] == Parity(Lanes(a), x)
  {
    c := new Lane[5](i => Zeros(64));
    for x := 0 to 5
      invariant forall i :: 0 <= i < x ==> c[i] == Parity(Lanes(a), i)
    {
      c[x] := Xor(Xor(Xor(Xor(a[x, 0], a[x, 1]), a[x, 2]), a[x, 3]), a[x, 4]);
    }
  }

  function XorRotated(a: Lane, b: Lane): (r: Lane)
    ensures r == Xor(a, Rot(b, 1))
  {
    ShiftsRotate(b, 1);
    Xor(a, Or(Shl(b, 1), Shr(b, 64 - 1)))
  }

  method Effects(c: array<Lane>, ghost s: State) returns (d: array<Lane>)
    requires c.Length == 5 && forall x :: 0 <= x < 5 ==> c[x] == Parity(s, x)
    ensures fresh(d) && d.Length == 5
    ensures forall x :: 0 <= x < 5 ==> d[x] == ThetaEffect(s, x)
  {
    EffectsAre(s);
    hide *;
    d := new Lane[] [XorRotated(c[4], c[1]), XorRotated(c[0], c[2]), XorRotated(c[1], c[3]),
                     XorRotated(c[2], c[4]), XorRotated(c[3], c[0])];
  }

  lemma EffectsAre(s: State)
    ensures ThetaEffect(s, 0) == Xor(Parity(s, 4), Rot(Parity(s, 1), 1))
    ensures ThetaEffect(s, 1) == Xor(Parity(s, 0), Rot(Parity(s, 2), 1))
    ensures ThetaEffect(s, 2) == Xor(Parity(s, 1), Rot(Parity(s, 3), 1))
    ensures ThetaEffect(s, 3) == Xor(Parity(s, 2), Rot(Parity(s, 4), 1))
    ensures ThetaEffect(s, 4) == Xor(Parity(s, 3), Rot(Parity(s, 0), 1))
  {
    assert Parity(s, -1) == Parity(s, 4) && Parity(s, 5) == Parity(s, 0);
  }

  lemma ThetaAt(s: State, x: nat, y: nat)
    requires x < 5 && y < 5
    ensures Theta(s)[x][y] == Xor(s[x][y], ThetaEffect(s, x))
  {
    hide ThetaEffect;
  }

  method AddToSheet(a: array2<Lane>, x: nat, d: Lane)
    requires IsState(a) && x < 5
    modifies a
    ensures forall i, j :: 0 <= i < 5 && 0 <= j < 5 ==>
              a[i, j] == if i == x then Xor(old(a[i, j]), d) else old(a[i, j])
  {
    for y := 0 to 5
      invariant forall i, j :: 0 <= i < 5 && 0 <= j < 5 ==>
                  a[i, j] == if i == x && j < y then Xor(old(a[i, j]), d) else old(a[i, j])
    {
      a[x, y] := Xor(a[x, y], d);
    }
  }

  method ApplyTheta(a: array2<Lane>)
    requires IsState(a)
    modifies a
    ensures Lanes(a) == Theta(old(Lanes(a)))
  {
    hide Theta, Parity, ThetaEffect;
    ghost var s, t := Lanes(a), Theta(Lanes(a));
    var c := ColumnParities(a);
    var d := Effects(c, s);
    for x := 0 to 5
      invariant forall i :: 0 <= i < 5 ==> d[i] == ThetaEffect(s, i)
      invariant forall i, j :: 0 <= i < 5 && 0 <= j < 5 ==> a[i, j] == if i < x then t[i][j] else s[i][j]
    {
      AddToSheet(a, x, d[x]);
      forall j | 0 <= j < 5
        ensures t[x][j] == Xor(s[x][j], d[x])
      {
        ThetaAt(s, x, j);
      }
    }
    LanesAre(a, t);
  }

  // ----- rho

  /** The lane the loop of rho has reached after t iterations. */
  function Walk(t: nat): (p: (nat, nat))
    ensures p.0 < 5 && p.1 < 5
  {
    if t == 0 then (1, 0) else (Walk(t - 1).1, (2 * Walk(t - 1).0 + 3 * Walk(t - 1).1) % 5)
  }

  /** The iteration of rho that rotates lane (x, y); 24, which is never reached, for lane (0, 0). */
  const TURNS: seq<seq<nat>> := [
    [24, 7, 1, 13, 19],
    [0, 23, 3, 8, 10],
    [18, 2, 17, 4, 21],
    [6, 9, 16, 5, 14],
    [12, 22, 20, 15, 11]]

  function Turn(x: int, y: int): nat
    requires 0 <= x < 5 && 0 <= y < 5
  {
    TURNS[x][y]
  }

  lemma WalkValues()
    ensures Walk(0) == (1, 0) && Walk(1) == (0, 2) && Walk(2) == (2, 1) && Walk(3) == (1, 2)
    ensures Walk(4) == (2, 3) && Walk(5) == (3, 3) && Walk(6) == (3, 0) && Walk(7) == (0, 1)
    ensures Walk(8) == (1, 3) && Walk(9) == (3, 1) && Walk(10) == (1, 4) && Walk(11) == (4, 4)
    ensures Walk(12) == (4, 0) && Walk(13) == (0, 3) && Walk(14) == (3, 4) && Walk(15) == (4, 3)
    ensures Walk(16) == (3, 2) && Walk(17) == (2, 2) && Walk(18) == (2, 0) && Walk(19) == (0, 4)
    ensures Walk(20) == (4, 2) && Walk(21) == (2, 4) && Walk(22) == (4, 1) && Walk(23) == (1, 1)
  {
  }

  lemma WalkStep(t: nat)
    ensures Walk(0) == (1, 0)
    ensures Walk(t + 1).0 == Walk(t).1
    ensures Walk(t + 1).1 == (2 * Walk(t).0 + 3 * Walk(t).1) % 5
  {
  }

  function StepOffset(t: nat): nat {
    ((t + 1) * (t + 2) / 2) % 64
  }

  /** The walk of rho reaches every lane other than (0, 0) exactly once in its 24 iterations, and each
      iteration rotates by the offset of Table 2, which lies in 1..63. */
  lemma WalkCoversLanes(t: nat, x: nat, y: nat)
    requires t < 24 && x < 5 && y < 5
    ensures Walk(t) == (x, y) <==> Turn(x, y) == t
    ensures Walk(t) == (x, y) ==> StepOffset(t) == Offset(x, y) && 1 <= Offset(x, y) <= 63
    ensures Turn(x, y) < 24 <==> (x, y) != (0, 0)
  {
    WalkMeetsTurn(t, x, y);
    TurnOffset(x, y);
    hide *;
  }

  lemma WalkMeetsTurn(t: nat, x: nat, y: nat)
    requires t < 24 && x < 5 && y < 5
    ensures Walk(t) == (x, y) <==> Turn(x, y) == t
  {
    WalkValues();
    hide Walk;
  }

  lemma TurnOffset(x: nat, y: nat)
    requires x < 5 && y < 5
    ensures Turn(x, y) < 24 ==> StepOffset(Turn(x, y)) == Offset(x, y) && 1 <= Offset(x, y) <= 63
    ensures Turn(x, y) < 24 <==> (x, y) != (0, 0)
  {
  }

  method ApplyRho(a: array2<Lane>)
    requires IsState(a)
    modifies a
    ensures Lanes(a) == Rho(old(Lanes(a)))
  {
    hide Rho, Turn, Walk, Or, Shl, Shr;
    ghost var s, r := Lanes(a), Rho(Lanes(a));
    var x: nat, y: nat := 1, 0;
    WalkStep(0);
    for t := 0 to 24
      invariant x == Walk(t).0 && y == Walk(t).1
      invariant forall i, j :: 0 <= i < 5 && 0 <= j < 5 ==>
                  a[i, j] == if Turn(i, j) < t then r[i][j] else s[i][j]
    {
      var offset := ((t + 1) * (t + 2) / 2) % 64;
      RotateAt(s, t, x, y, offset);
      RotateLane(a, x, y, offset);
      WalkStep(t);
      x, y := y, (2 * x + 3 * y) % 5;
    }
    AllTurns(s);
    LanesAre(a, r);
  }

  lemma AllTurns(s: State)
    ensures forall x, y :: 0 <= x < 5 && 0 <= y < 5 && Turn(x, y) >= 24 ==> Rho(s)[x][y] == s[x][y]
  {
    hide Rho, Turn, Walk;
    forall x, y | 0 <= x < 5 && 0 <= y < 5 && Turn(x, y) >= 24
      ensures Rho(s)[x][y] == s[x][y]
    {
      WalkCoversLanes(0, x, y);
      RhoAt(s, x, y);
    }
  }

  method RotateLane(a: array2<Lane>, x: nat, y: nat, offset: nat)
    requires IsState(a) && x < 5 && y < 5 && offset <= 64
    modifies a
    ensures a[x, y] == old(Or(Shl(a[x, y], offset), Shr(a[x, y], 64 - offset)))
    ensures forall i, j :: 0 <= i < 5 && 0 <= j < 5 && (i, j) != (x, y) ==> a[i, j] == old(a[i, j])
  {
    a[x, y] := Or(Shl(a[x, y], offset), Shr(a[x, y], 64 - offset));
  }

  /** Iteration t of rho rotates the lane it has reached, and no other, into place. */
  lemma RotateAt(s: State, t: nat, x: nat, y: nat, offset: nat)
    requires t < 24 && x < 5 && y < 5 && (x, y) == Walk(t) && offset == StepOffset(t)
    ensures offset <= 64
    ensures Or(Shl(s[x][y], offset), Shr(s[x][y], 64 - offset)) == Rho(s)[x][y]
    ensures forall i: nat, j: nat :: i < 5 && j < 5 ==> (Turn(i, j) == t <==> (i, j) == (x, y))
  {
    hide Rho, Offset, Walk, Turn;
    forall i: nat, j: nat | i < 5 && j < 5
      ensures Turn(i, j) == t <==> (i, j) == (x, y)
    {
      WalkCoversLanes(t, i, j);
    }
    WalkCoversLanes(t, x, y);
    RhoAt(s, x, y);
    ShiftsRotate(s[x][y], offset);
  }

  // ----- pi

  method Copy(a: array2<Lane>) returns (tmp: array2<Lane>)
    requires IsState(a)
    ensures fresh(tmp) && IsState(tmp) && Lanes(tmp) == Lanes(a)
  {
    tmp := new Lane[5, 5]((x, y) requires 0 <= x < 5 && 0 <= y < 5 && IsState(a) reads a => a[x, y]);
    LanesAre(tmp, Lanes(a));
  }

  method ApplyPi(a: array2<Lane>)
    requires IsState(a)
    modifies a
    ensures Lanes(a) == Pi(old(Lanes(a)))
  {
    hide Pi;
    ghost var s, r := Lanes(a), Pi(Lanes(a));
    var tmp := Copy(a);
    for x := 0 to 5
      invariant Lanes(tmp) == s
      invariant forall i, j :: 0 <= i < x && 0 <= j < 5 ==> a[i, j] == r[i][j]
    {
      PiSheet(a, tmp, x, s);
    }
    LanesAre(a, r);
  }

  method PiSheet(a: array2<Lane>, tmp: array2<Lane>, x: nat, ghost s: State)
    requires IsState(a) && IsState(tmp) && a != tmp && x < 5 && Lanes(tmp) == s
    modifies a
    ensures forall i, j :: 0 <= i < 5 && 0 <= j < 5 ==> a[i, j] == if i == x then Pi(s)[i][j] else old(a[i, j])
  {
    hide Pi;
    for y := 0 to 5
      invariant forall i, j :: 0 <= i < 5 && 0 <= j < 5 ==>
                  a[i, j] == if i == x && j < y then Pi(s)[i][j] else old(a[i, j])
    {
      a[x, y] := tmp[(x + 3 * y) % 5, x];
      PiAt(s, x, y);
    }
  }

  // ----- chi

  lemma ChiAt(s: State, x: nat, y: nat)
    requires x < 5 && y < 5
    ensures Chi(s)[x][y] == Xor(s[x][y], And(Not(s[(x + 1) % 5][y]), s[(x + 2) % 5][y]))
  {
    hide Xor, And, Not;
  }

  method ApplyChi(a: array2<Lane>)
    requires IsState(a)
    modifies a
    ensures Lanes(a) == Chi(old(Lanes(a)))
  {
    hide Chi;
    ghost var s, r := Lanes(a), Chi(Lanes(a));
    var tmp := Copy(a);
    for x := 0 to 5
      invariant Lanes(tmp) == s
      invariant forall i, j :: 0 <= i < x && 0 <= j < 5 ==> a[i, j] == r[i][j]
    {
      ChiSheet(a, tmp, x, s);
    }
    LanesAre(a, r);
  }

  method ChiSheet(a: array2<Lane>, tmp: array2<Lane>, x: nat, ghost s: State)
    requires IsState(a) && IsState(tmp) && a != tmp && x < 5 && Lanes(tmp) == s
    modifies a
    ensures forall i, j :: 0 <= i < 5 && 0 <= j < 5 ==> a[i, j] == if i == x then Chi(s)[i][j] else old(a[i, j])
  {
    hide Chi;
    for y := 0 to 5
      invariant forall i, j :: 0 <= i < 5 && 0 <= j < 5 ==>
                  a[i, j] == if i == x && j < y then Chi(s)[i][j] else old(a[i, j])
    {
      a[x, y] := Xor(tmp[x, y], And(Not(tmp[(x + 1) % 5, y]), tmp[(x + 2) % 5, y]));
      ChiAt(s, x, y);
    }
  }

  // ----- iota

  method ApplyIota(a: array2<Lane>, round: nat)
    requires IsState(a) && round < 24
    modifies a
    ensures Lanes(a) == Iota(old(Lanes(a)), round)
  {
    hide Iota, BitsOf;
    ghost var s, r := Lanes(a), Iota(Lanes(a), round);
    forall x: nat, y: nat | x < 5 && y < 5
      ensures r[x][y] == if (x, y) == (0, 0) then Xor(s[x][y], BitsOf(RC[round], 64)) else s[x][y]
    {
      IotaAt(s, round, x, y);
    }
    a[0, 0] := Xor(a[0, 0], BitsOf(RC[round], 64));
    LanesAre(a, r);
  }

  // ----- the permutation

  method ApplyKeccakP(a: array2<Lane>)
    requires IsState(a)
    modifies a
    ensures Lanes(a) == KeccakP(old(Lanes(a)))
  {
    hide Theta, Rho, Pi, Chi, Iota, Lanes;
    ghost var s := Lanes(a);
    for round := 0 to 24
      invariant Lanes(a) == Rounds(s, round)
    {
      ApplyTheta(a);
      ApplyRho(a);
      ApplyPi(a);
      ApplyChi(a);
      ApplyIota(a, round);
    }
  }
}
