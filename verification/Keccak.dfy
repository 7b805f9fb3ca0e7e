/** The Keccak-p[1600, 24] permutation of libethash-cpu/picosha3.h.

    The state is held as the source holds it, `A[x][y]` with 64-bit lanes.  The functions are the
    step mappings of section 3.2 of FIPS 202 on immutable states, each given by its lane (x, y);
    KeccakSteps has the in-place loops of the source. */
module Keccak {
  import opened Bits

  type State = s: seq<seq<Lane>> | |s| == 5 && forall x :: 0 <= x < 5 ==> |s[x]| == 5
    witness seq(5, x => seq(5, y => Zeros(64)))

  /** Lane (x, y), coordinates taken modulo 5 as FIPS 202 does. */
  function At(s: State, x: int, y: int): Lane {
    s[x % 5][y % 5]
  }

  function ZeroState(): State {
    seq(5, x => seq(5, y => Zeros(64)))
  }

  lemma SameLanes(s: State, t: State)
    requires forall x, y :: 0 <= x < 5 && 0 <= y < 5 ==> s[x][y] == t[x][y]
    ensures s == t
  {
    forall x | 0 <= x < 5
      ensures s[x] == t[x]
    {
    }
  }

  // ----- theta, section 3.2.1

  function Parity(s: State, x: int): Lane {
    Xor(Xor(Xor(Xor(At(s, x, 0), At(s, x, 1)), At(s, x, 2)), At(s, x, 3)), At(s, x, 4))
  }

  function ThetaEffect(s: State, x: int): Lane {
    Xor(Parity(s, x - 1), Rot(Parity(s, x + 1), 1))
  }

  function ThetaLane(s: State, x: int, y: int): Lane {
    Xor(At(s, x, y), ThetaEffect(s, x))
  }

  function Theta(s: State): State {
    seq(5, x => seq(5, y => ThetaLane(s, x, y)))
  }

  // ----- rho, section 3.2.2, with the offsets of Table 2 reduced modulo 64

  const OFFSETS: seq<seq<nat>> := [
    [0, 36, 3, 41, 18],
    [1, 44, 10, 45, 2],
    [62, 6, 43, 15, 61],
    [28, 55, 25, 21, 56],
    [27, 20, 39, 8, 14]]

  function Offset(x: int, y: int): (n: nat)
    ensures n < 64
  {
    OFFSETS[x % 5][y % 5]
  }

  function RhoLane(s: State, x: int, y: int): Lane {
    Rot(At(s, x, y), Offset(x, y))
  }

  function Rho(s: State): State {
    seq(5, x => seq(5, y => RhoLane(s, x, y)))
  }

  lemma RhoAt(s: State, x: int, y: int)
    requires 0 <= x < 5 && 0 <= y < 5
    ensures Rho(s)[x][y] == Rot(s[x][y], Offset(x, y))
    ensures (x, y) == (0, 0) ==> Rho(s)[x][y] == s[x][y]
  {
    assert (x, y) == (0, 0) ==> Offset(x, y) == 0;
    hide Offset;
  }

  // ----- pi, section 3.2.3

  function PiLane(s: State, x: int, y: int): Lane {
    At(s, x + 3 * y, x)
  }

  function Pi(s: State): State {
    seq(5, x => seq(5, y => PiLane(s, x, y)))
  }

  lemma PiAt(s: State, x: int, y: int)
    requires 0 <= x < 5 && 0 <= y < 5
    ensures Pi(s)[x][y] == s[(x + 3 * y) % 5][x]
  {
  }

  // ----- chi, section 3.2.4

  function Chi3(a: Lane, b: Lane, c: Lane): Lane {
    Xor(a, And(Not(b), c))
  }

  function ChiLane(s: State, x: int, y: int): Lane {
    Chi3(At(s, x, y), At(s, x + 1, y), At(s, x + 2, y))
  }

  function Chi(s: State): State {
    seq(5, x => seq(5, y => ChiLane(s, x, y)))
  }

  // ----- iota, section 3.2.5

  const RC: seq<nat> := [
    0x0000000000000001, 0x0000000000008082, 0x800000000000808A,
    0x8000000080008000, 0x000000000000808B, 0x0000000080000001,
    0x8000000080008081, 0x8000000000008009, 0x000000000000008A,
    0x0000000000000088, 0x0000000080008009, 0x000000008000000A,
    0x000000008000808B, 0x800000000000008B, 0x8000000000008089,
    0x8000000000008003, 0x8000000000008002, 0x8000000000000080,
    0x000000000000800A, 0x800000008000000A, 0x8000000080008081,
    0x8000000000008080, 0x0000000080000001, 0x8000000080008008]

  function IotaLane(s: State, round: nat, x: int, y: int): Lane
    requires round < 24
  {
    if x == 0 && y == 0 then Xor(At(s, 0, 0), BitsOf(RC[round], 64)) else At(s, x, y)
  }

  function Iota(s: State, round: nat): State
    requires round < 24
  {
    seq(5, x => seq(5, y => IotaLane(s, round, x, y)))
  }

  lemma IotaAt(s: State, round: nat, x: int, y: int)
    requires round < 24 && 0 <= x < 5 && 0 <= y < 5
    ensures Iota(s, round)[x][y] == if (x, y) == (0, 0) then Xor(s[x][y], BitsOf(RC[round], 64)) else s[x][y]
  {
    hide BitsOf;
  }

  // ----- the permutation, section 3.3

  function Round(s: State, round: nat): State
    requires round < 24
  {
    Iota(Chi(Pi(Rho(Theta(s)))), round)
  }

  /** The first `n` rounds. */
  function Rounds(s: State, n: nat): State
    requires n <= 24
  {
    if n == 0 then s else Round(Rounds(s, n - 1), n - 1)
  }

  function KeccakP(s: State): State {
    Rounds(s, 24)
  }
}
