/** The wallet check of mine.sh: the address is rearranged, written as one decimal number and reduced
    modulo 97, as in ISO 7064 MOD 97-10. */
module Wallet {
  import opened Arith
  import opened Numerals

  predicate IsDigit(c: char) {
    '0' <= c <= '9'
  }

  predicate IsAlphanumeric(c: char) {
    IsDigit(c) || 'a' <= c <= 'z' || 'A' <= c <= 'Z'
  }

  function Upper(c: char): char
    requires IsAlphanumeric(c)
  {
    if 'a' <= c <= 'z' then (c as int - 32) as char else c
  }

  /** alphabet_pos(): a digit stands for itself, the letters, of either case, for 10 to 35. */
  function AlphabetPos(c: char): (p: nat)
    requires IsAlphanumeric(c)
    ensures p < 36 && (p < 10 <==> IsDigit(c))
  {
    if IsDigit(c) then c as nat - '0' as nat else Upper(c) as nat - 55
  }

  /** Only the case of a letter is lost. */
  lemma SamePosition(c: char, d: char)
    requires IsAlphanumeric(c) && IsAlphanumeric(d)
    ensures AlphabetPos(c) == AlphabetPos(d) <==> Upper(c) == Upper(d)
  {
    assert IsDigit(c) ==> Upper(c) as int <= 57;
    assert IsDigit(d) ==> Upper(d) as int <= 57;
  }

  /** A number below 36 in decimal. */
  function Decimal(p: nat): seq<nat> {
    if p < 10 then [p] else [p / 10, p % 10]
  }

  /** A country code of two characters, two check digits and a body. */
  predicate WellFormed(ican: string) {
    && |ican| >= 4 && IsDigit(ican[2]) && IsDigit(ican[3])
    && forall i :: 0 <= i < |ican| ==> IsAlphanumeric(ican[i])
  }

  ghost function Positions(s: string): (r: seq<nat>)
    requires forall i :: 0 <= i < |s| ==> IsAlphanumeric(s[i])
    ensures |r| == |s| && forall i :: 0 <= i < |s| ==> r[i] == AlphabetPos(s[i])
  {
    seq(|s|, i requires 0 <= i < |s| => AlphabetPos(s[i]))
  }

  /** Body, country, check digits. */
  ghost function Rearranged(ican: string): seq<nat>
    requires WellFormed(ican)
  {
    Positions(ican[4..] + ican[..2] + ican[2..4])
  }

  ghost function Written(ps: seq<nat>): seq<nat> {
    if ps == [] then [] else Written(ps[..|ps| - 1]) + Decimal(ps[|ps| - 1])
  }

  ghost function Residue(ps: seq<nat>): nat {
    Val(10, Written(ps)) % 97
  }

  ghost predicate Accepted(ican: string)
    requires WellFormed(ican)
  {
    Residue(Rearranged(ican)) == 1
  }

  /** validate_wallet(), with the arithmetic of bc. */
  method ValidateWallet(ican: string) returns (valid: bool)
    requires WellFormed(ican)
    ensures valid <==> Accepted(ican)
  {
    hide Residue, Val;
    var country, checksum, bcan := ican[..2], ican[2..4], ican[4..];
    var bcco := bcan + country;
    assert bcco + checksum == ican[4..] + ican[..2] + ican[2..4];
    var sum := [];
    for i := 0 to |bcco|
      invariant sum == Written(Positions(bcco[..i]))
    {
      sum := sum + Decimal(AlphabetPos(bcco[i]));
      assert Positions(bcco[..i + 1])[..i] == Positions(bcco[..i]);
    }
    assert bcco[..|bcco|] == bcco;
    var operand := sum + [AlphabetPos(checksum[0]), AlphabetPos(checksum[1])];
    TwoDigits(bcco, checksum);
    assert Residue(Rearranged(ican)) == Val(10, operand) % 97 by { ResidueIs(Rearranged(ican)); }
    valid := Val(10, operand) % 97 == 1;
  }

  lemma ResidueIs(ps: seq<nat>)
    ensures Residue(ps) == Val(10, Written(ps)) % 97
  {
  }

  lemma TwoDigits(s: string, checksum: string)
    requires forall i :: 0 <= i < |s| ==> IsAlphanumeric(s[i])
    requires |checksum| == 2 && IsDigit(checksum[0]) && IsDigit(checksum[1])
    ensures Written(Positions(s + checksum))
         == Written(Positions(s)) + [AlphabetPos(checksum[0]), AlphabetPos(checksum[1])]
  {
    var a, b, ps := AlphabetPos(checksum[0]), AlphabetPos(checksum[1]), Positions(s);
    assert Positions(s + checksum) == ps + [a] + [b];
    WrittenOneMore(ps, a);
    WrittenOneMore(ps + [a], b);
    assert Decimal(a) == [a] && Decimal(b) == [b];
    hide *;
    assert Written(ps) + [a] + [b] == Written(ps) + [a, b];
  }

  lemma WrittenOneMore(ps: seq<nat>, p: nat)
    ensures Written(ps + [p]) == Written(ps) + Decimal(p)
  {
    assert (ps + [p])[..|ps|] == ps;
  }

  // ----- arithmetic modulo 97

  /** 10 has the inverse 68. */
  lemma TenTimes(x: int)
    ensures 10 * x % 97 == 0 <==> x % 97 == 0
  {
    if 10 * x % 97 == 0 {
      ModUnique(x, 97, 68 * (10 * x / 97) - 7 * x, 0);
    } else if x % 97 == 0 {
      ModUnique(10 * x, 97, 10 * (x / 97), 0);
    }
  }

  lemma {:induction false} TenPower(x: int, k: nat)
    ensures x * Pow(10, k) % 97 == 0 <==> x % 97 == 0
    decreases k
  {
    if k > 0 {
      var w := Pow(10, k - 1);
      assert Pow(10, k) == 10 * w;
      TenPower(10 * x, k - 1);
      hide *;
      assert x * (10 * w) == 10 * x * w;
      TenTimes(x);
    }
  }

  lemma SameResidue(a: int, b: int)
    ensures a % 97 == b % 97 <==> (a - b) % 97 == 0
  {
  }

  lemma {:induction false} WrittenConcat(p: seq<nat>, q: seq<nat>)
    ensures Written(p + q) == Written(p) + Written(q)
    decreases |q|
  {
    hide Decimal;
    if q == [] {
      assert p + q == p;
    } else {
      var n := |q| - 1;
      assert p + q == (p + q[..n]) + [q[n]] && q == q[..n] + [q[n]];
      WrittenConcat(p, q[..n]);
      WrittenOneMore(p + q[..n], q[n]);
      WrittenOneMore(q[..n], q[n]);
      hide *;
      assert Written(p) + (Written(q[..n]) + Decimal(q[n])) == Written(p) + Written(q[..n]) + Decimal(q[n]);
    }
  }

  /** Where two addresses differ only in a middle part that takes as many digits, the difference of the two
      middle parts decides. */
  lemma MiddleDecides(p: seq<nat>, x: seq<nat>, y: seq<nat>, q: seq<nat>)
    requires |Written(x)| == |Written(y)|
    ensures Residue(p + x + q) == Residue(p + y + q) <==> (Val(10, Written(x)) - Val(10, Written(y))) % 97 == 0
  {
    hide Written, Val, Pow;
    ValueOf(p, x, q);
    ValueOf(p, y, q);
    var head := Val(10, Written(p)) * Pow(10, |Written(x)|);
    var a, b, tail := Val(10, Written(x)), Val(10, Written(y)), Val(10, Written(q));
    SameTail(head, a, b, |Written(q)|, tail);
  }

  lemma SameTail(head: int, a: int, b: int, k: nat, tail: int)
    ensures ((head + a) * Pow(10, k) + tail) % 97 == ((head + b) * Pow(10, k) + tail) % 97 <==> (a - b) % 97 == 0
  {
    TenPower(a - b, k);
    var w := Pow(10, k);
    hide *;
    var x, y := (head + a) * w + tail, (head + b) * w + tail;
    assert x - y == (a - b) * w by { Difference(head, a, b, w, tail); }
    SameResidue(x, y);
  }

  lemma Difference(head: int, a: int, b: int, w: int, tail: int)
    ensures ((head + a) * w + tail) - ((head + b) * w + tail) == (a - b) * w
  {
  }

  lemma ValueOf(p: seq<nat>, x: seq<nat>, q: seq<nat>)
    ensures Val(10, Written(p + x + q))
         == (Val(10, Written(p)) * Pow(10, |Written(x)|) + Val(10, Written(x))) * Pow(10, |Written(q)|)
            + Val(10, Written(q))
  {
    WrittenConcat(p + x, q);
    WrittenConcat(p, x);
    ValConcat(10, Written(p + x), Written(q));
    ValConcat(10, Written(p), Written(x));
  }

  // ----- what the check detects

  lemma WrittenOne(x: nat)
    requires x < 36
    ensures |Written([x])| == if x < 10 then 1 else 2
    ensures Val(10, Written([x])) == x
  {
    assert Written([x]) == Decimal(x) by { WrittenOneMore([], x); }
    var d := Decimal(x);
    hide Written;
    assert d[..|d| - 1] == if x < 10 then [] else [x / 10];
    assert Val(10, [x / 10]) == x / 10 by { assert [x / 10][..0] == []; }
  }

  ghost function Pair(x: nat, y: nat): nat {
    if y < 10 then 10 * x + y else 100 * x + y
  }

  lemma WrittenTwo(x: nat, y: nat)
    requires x < 36 && y < 36
    ensures |Written([x, y])| == |Written([x])| + |Written([y])|
    ensures Val(10, Written([x, y])) == Pair(x, y)
  {
    hide Written, Val;
    assert [x, y] == [x] + [y];
    WrittenConcat([x], [y]);
    WrittenOne(x);
    WrittenOne(y);
    ValConcat(10, Written([x]), Written([y]));
    assert Pow(10, 1) == 10 && Pow(10, 2) == 100;
  }

  lemma SubstitutionChanges(p: seq<nat>, x: nat, y: nat, q: seq<nat>)
    requires x < 36 && y < 36 && x != y && (x < 10 <==> y < 10)
    ensures Residue(p + [x] + q) != Residue(p + [y] + q)
  {
    hide Written, Val, Residue;
    WrittenOne(x);
    WrittenOne(y);
    MiddleDecides(p, [x], [y], q);
  }

  /** The transpositions that the check cannot see: 1 with B, 2 with M, 3 with X. */
  predicate Blind(x: nat, y: nat) {
    (1 <= x <= 3 && y == 11 * x) || (1 <= y <= 3 && x == 11 * y)
  }

  lemma PairsDiffer(x: nat, y: nat)
    requires x < 36 && y < 36
    ensures (Pair(x, y) - Pair(y, x)) % 97 == 0 <==> x == y || Blind(x, y)
  {
    if x < 10 && y >= 10 {
      hide *;
      MixedPair(x, y);
    } else if y < 10 && x >= 10 {
      MixedPair(y, x);
      SameResidue(Pair(x, y), Pair(y, x));
      SameResidue(Pair(y, x), Pair(x, y));
    } else {
      var t := x - y;
      assert Pair(x, y) - Pair(y, x) == if x < 10 then 9 * t else 99 * t;
      hide Pair;
      SmallFactor(t);
    }
  }

  lemma SmallFactor(t: int)
    requires -26 < t < 26
    ensures 99 * t % 97 == 0 <==> t == 0
    ensures -10 < t < 10 ==> (9 * t % 97 == 0 <==> t == 0)
  {
    SameResidue(99 * t, 2 * t);
  }

  lemma MixedPair(d: nat, l: nat)
    requires d < 10 <= l < 36
    ensures (Pair(d, l) - Pair(l, d)) % 97 == 0 <==> Blind(d, l)
  {
    var v := 9 * l - 2 * d;
    assert Pair(d, l) - Pair(l, d) == 97 * d - v;
    assert Blind(d, l) <==> v == 97 || v == 194 || v == 291;
    assert 72 <= v <= 315;
    hide *;
    Multiples(d, v);
  }

  lemma Multiples(d: nat, v: int)
    requires 72 <= v <= 315
    ensures (97 * d - v) % 97 == 0 <==> v == 97 || v == 194 || v == 291
  {
    SameResidue(97 * d, v);
  }

  lemma SwapChanges(p: seq<nat>, x: nat, y: nat, q: seq<nat>)
    requires x < 36 && y < 36
    ensures Residue(p + [x, y] + q) == Residue(p + [y, x] + q) <==> x == y || Blind(x, y)
  {
    hide Written, Val, Residue, Pair, Blind;
    WrittenTwo(x, y);
    WrittenTwo(y, x);
    MiddleDecides(p, [x, y], [y, x], q);
    PairsDiffer(x, y);
  }

  /** Where a character of the address is after the rearrangement. */
  ghost function Place(ican: string, i: nat): nat
    requires i < |ican| && |ican| >= 4
  {
    if i >= 4 then i - 4 else |ican| - 4 + i
  }

  lemma RearrangedAt(ican: string, i: nat)
    requires WellFormed(ican) && i < |ican|
    ensures |Rearranged(ican)| == |ican| && Place(ican, i) < |ican|
    ensures Rearranged(ican)[Place(ican, i)] == AlphabetPos(ican[i])
  {
    assert ican[4..] + ican[..2] + ican[2..4] == ican[4..] + ican[..4];
  }

  /** Two addresses that differ, case aside, in one character and in it have both a digit or both a letter
      are not both accepted. */
  lemma SubstitutionIsDetected(a: string, b: string, i: nat)
    requires WellFormed(a) && WellFormed(b) && |a| == |b| && i < |a|
    requires forall j :: 0 <= j < |a| && j != i ==> AlphabetPos(a[j]) == AlphabetPos(b[j])
    requires AlphabetPos(a[i]) != AlphabetPos(b[i]) && (IsDigit(a[i]) <==> IsDigit(b[i]))
    ensures !(Accepted(a) && Accepted(b))
  {
    hide Rearranged, Residue, AlphabetPos, IsAlphanumeric;
    var ra, rb, k := Rearranged(a), Rearranged(b), Place(a, i);
    RearrangedAt(a, i);
    RearrangedAt(b, i);
    forall j | 0 <= j < |a| && j != k ensures ra[j] == rb[j] {
      var o := if j < |a| - 4 then j + 4 else j - (|a| - 4);
      RearrangedAt(a, o);
      RearrangedAt(b, o);
    }
    OneApart(ra, rb, k);
    SubstitutionChanges(ra[..k], ra[k], rb[k], ra[k + 1..]);
  }

  lemma OneApart(p: seq<nat>, q: seq<nat>, k: nat)
    requires |p| == |q| && k < |p| && forall j :: 0 <= j < |p| && j != k ==> p[j] == q[j]
    ensures p == p[..k] + [p[k]] + p[k + 1..] && q == p[..k] + [q[k]] + p[k + 1..]
  {
  }

  ghost function Swapped(s: string, i: nat): string
    requires i + 1 < |s|
  {
    s[i := s[i + 1]][i + 1 := s[i]]
  }

  lemma RearrangedSwapped(a: string, i: nat, j: nat)
    requires WellFormed(a) && 4 <= i && i + 1 < |a| && j < |a|
    ensures WellFormed(Swapped(a, i))
    ensures var ra, rb, k := Rearranged(a), Rearranged(Swapped(a, i)), i - 4;
            && |ra| == |rb| == |a|
            && rb[j] == ra[if j == k then k + 1 else if j == k + 1 then k else j]
  {
    var b := Swapped(a, i);
    var k := i - 4;
    var o := if j < |a| - 4 then j + 4 else j - (|a| - 4);
    var from := if j == k then i + 1 else if j == k + 1 then i else o;
    RearrangedAt(b, o);
    RearrangedAt(a, from);
  }

  /** Swapping two neighbours in the body of an accepted address gives an accepted one if and only if they are
      the same character, case aside, or a pair the check is blind to. */
  lemma SwapIsDetected(a: string, i: nat)
    requires WellFormed(a) && 4 <= i && i + 1 < |a| && Accepted(a)
    ensures WellFormed(Swapped(a, i))
    ensures Accepted(Swapped(a, i)) <==>
            AlphabetPos(a[i]) == AlphabetPos(a[i + 1]) || Blind(AlphabetPos(a[i]), AlphabetPos(a[i + 1]))
  {
    hide Rearranged, Residue, AlphabetPos, Blind, Swapped, WellFormed;
    RearrangedSwapped(a, i, 0);
    var ra, rb, k := Rearranged(a), Rearranged(Swapped(a, i)), i - 4;
    forall j | 0 <= j < |a| ensures rb[j] == ra[if j == k then k + 1 else if j == k + 1 then k else j] {
      RearrangedSwapped(a, i, j);
    }
    RearrangedAt(a, i);
    RearrangedAt(a, i + 1);
    var x, y := ra[k], ra[k + 1];
    assert ra == ra[..k] + [x, y] + ra[k + 2..];
    assert rb == ra[..k] + [y, x] + ra[k + 2..];
    SwapChanges(ra[..k], x, y, ra[k + 2..]);
  }

  /** An address whose neighbours 1 and B can be swapped unseen. */
  lemma BlindPairIsAccepted()
    ensures var a := "CB641B";
            && WellFormed(a) && Accepted(a) && Swapped(a, 4) == "CB64B1"
            && WellFormed(Swapped(a, 4)) && Accepted(Swapped(a, 4))
  {
    var a := "CB641B";
    RearrangedAt(a, 0);
    RearrangedAt(a, 1);
    RearrangedAt(a, 2);
    RearrangedAt(a, 3);
    RearrangedAt(a, 4);
    RearrangedAt(a, 5);
    assert Rearranged(a) == [1, 11, 12, 11, 6, 4];
    ExampleValue();
    SwapIsDetected(a, 4);
  }

  lemma ExampleValue()
    ensures Residue([1, 11, 12, 11, 6, 4]) == 1
  {
    hide Val, Residue, Written;
    NoDigits();
    Append([], [], 1, [1], [1]);
    Append([1], [1], 11, [1, 11], [1, 1, 1]);
    Append([1, 11], [1, 1, 1], 12, [1, 11, 12], [1, 1, 1, 1, 2]);
    Append([1, 11, 12], [1, 1, 1, 1, 2], 11, [1, 11, 12, 11], [1, 1, 1, 1, 2, 1, 1]);
    Append([1, 11, 12, 11], [1, 1, 1, 1, 2, 1, 1], 6, [1, 11, 12, 11, 6], [1, 1, 1, 1, 2, 1, 1, 6]);
    Append([1, 11, 12, 11, 6], [1, 1, 1, 1, 2, 1, 1, 6], 4, [1, 11, 12, 11, 6, 4], [1, 1, 1, 1, 2, 1, 1, 6, 4]);
    ResidueIs([1, 11, 12, 11, 6, 4]);
  }

  lemma NoDigits()
    ensures Written([]) == [] && Val(10, []) == 0
  {
  }

  lemma Append(ps: seq<nat>, ds: seq<nat>, p: nat, qs: seq<nat>, es: seq<nat>)
    requires Written(ps) == ds && qs == ps + [p] && es == ds + Decimal(p) && p < 36
    ensures Written(qs) == es
    ensures Val(10, es) == Val(10, ds) * (if p < 10 then 10 else 100) + p
  {
    hide Written;
    WrittenOneMore(ps, p);
    ValConcat(10, ds, Decimal(p));
    WrittenOneMore([], p);
    NoDigits();
    WrittenOne(p);
    assert [] + [p] == [p] && [] + Decimal(p) == Decimal(p);
    assert Pow(10, 1) == 10 && Pow(10, 2) == 100;
  }

  /** The position of a character is its place among the digits and the capital letters. */
  lemma PositionIsIndex(c: char)
    requires IsAlphanumeric(c)
    ensures "0123456789ABCDEFGHIJKLMNOPQRSTUVWXYZ"[AlphabetPos(c)] == Upper(c)
  {
  }
}
