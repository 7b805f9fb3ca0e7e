/** Positional numerals in any base, most significant digit first. */
module Numerals {
  import opened Arith

  function Pow(base: nat, n: nat): nat {
    if n == 0 then 1 else base * Pow(base, n - 1)
  }

  ghost predicate AreDigits(base: nat, ds: seq<nat>) {
    forall i :: 0 <= i < |ds| ==> ds[i] < base
  }

  function Val(base: nat, ds: seq<nat>): nat {
    if ds == [] then 0 else Val(base, ds[..|ds| - 1]) * base + ds[|ds| - 1]
  }

  /** The last `n` digits of `v`. */
  function Digits(base: nat, v: nat, n: nat): (ds: seq<nat>)
    requires 0 < base
    ensures |ds| == n && AreDigits(base, ds)
    decreases n
  {
    DivMod(v, base);
    if n == 0 then [] else Digits(base, v / base, n - 1) + [v % base]
  }

  lemma DivMod(v: nat, d: nat)
    requires 0 < d
    ensures 0 <= v / d && 0 <= v % d < d && v == v / d * d + v % d
  {
  }

  lemma {:induction false} PowPositive(base: nat, n: nat)
    requires 0 < base
    ensures Pow(base, n) > 0
  {
    if n > 0 {
      PowPositive(base, n - 1);
    }
  }

  lemma {:induction false} PowAdd(base: nat, m: nat, n: nat)
    ensures Pow(base, m + n) == Pow(base, m) * Pow(base, n)
  {
    if m > 0 {
      PowAdd(base, m - 1, n);
      Assoc(base, Pow(base, m - 1), Pow(base, n));
    }
  }

  lemma Assoc(a: int, b: int, c: int)
    ensures a * b * c == a * (b * c)
  {
  }

  lemma {:induction false} PowMonotone(base: nat, m: nat, n: nat)
    requires 0 < base && m <= n
    ensures Pow(base, m) <= Pow(base, n)
  {
    PowAdd(base, n - m, m);
    PowPositive(base, n - m);
    MulAtLeast(Pow(base, m), Pow(base, n - m));
    assert Pow(base, n - m) * Pow(base, m) == Pow(base, m) * Pow(base, n - m);
  }

  lemma {:induction false} ValConcat(base: nat, p: seq<nat>, q: seq<nat>)
    ensures Val(base, p + q) == Val(base, p) * Pow(base, |q|) + Val(base, q)
  {
    if q == [] {
      assert p + q == p;
    } else {
      var q' := q[..|q| - 1];
      assert (p + q)[..|p + q| - 1] == p + q';
      ValConcat(base, p, q');
      calc {
        Val(base, p + q);
        (Val(base, p) * Pow(base, |q'|) + Val(base, q')) * base + q[|q| - 1];
        { Distribute3(Val(base, p) * Pow(base, |q'|), Val(base, q'), base); }
        Val(base, p) * Pow(base, |q'|) * base + Val(base, q);
        { Assoc(Val(base, p), Pow(base, |q'|), base); assert Pow(base, |q'|) * base == Pow(base, |q|); }
        Val(base, p) * Pow(base, |q|) + Val(base, q);
      }
    }
  }

  lemma Distribute3(a: int, b: int, c: int)
    ensures (a + b) * c == a * c + b * c
  {
  }

  lemma {:induction false} ValBound(base: nat, ds: seq<nat>)
    requires AreDigits(base, ds)
    ensures Val(base, ds) < Pow(base, |ds|)
  {
    if ds != [] {
      var n := |ds| - 1;
      ValBound(base, ds[..n]);
      MulMonotone(Val(base, ds[..n]) + 1, Pow(base, n), base);
      Distribute3(Val(base, ds[..n]), 1, base);
    }
  }

  /** Reading back the last n digits of v gives v modulo base^n. */
  lemma {:induction false} ValOfDigits(base: nat, v: nat, n: nat)
    requires 0 < base
    ensures Pow(base, n) > 0
    ensures Val(base, Digits(base, v, n)) == v % Pow(base, n)
    decreases n
  {
    PowPositive(base, n);
    if n > 0 {
      ValOfDigits(base, v / base, n - 1);
      assert Digits(base, v, n)[..n - 1] == Digits(base, v / base, n - 1);
      ModTimes(v, base, Pow(base, n - 1));
    }
  }

  lemma ModTimes(v: nat, d: nat, p: nat)
    requires 0 < d && 0 < p && 0 < d * p
    ensures v % (d * p) == v / d % p * d + v % d
  {
    var w := v / d;
    var q, r := w / p, w % p;
    DivMod(v, d);
    DivMod(w, p);
    MulMonotone(r + 1, p, d);
    Distribute3(r, 1, d);
    Distribute3(q * p, r, d);
    Rearrange(q, p, d);
    ModUnique(v, d * p, q, r * d + v % d);
  }

  lemma Rearrange(a: int, b: int, c: int)
    ensures a * b * c == c * b * a && b * c == c * b
  {
  }

  /** Writing a numeral back in its own length gives the same digits. */
  lemma {:induction false} DigitsOfVal(base: nat, ds: seq<nat>)
    requires 0 < base && AreDigits(base, ds)
    ensures Digits(base, Val(base, ds), |ds|) == ds
  {
    if ds != [] {
      var n := |ds| - 1;
      DigitsOfVal(base, ds[..n]);
      ModUnique(Val(base, ds), base, Val(base, ds[..n]), ds[n]);
    }
  }

  lemma ValInjective(base: nat, p: seq<nat>, q: seq<nat>)
    requires 0 < base && AreDigits(base, p) && AreDigits(base, q) && |p| == |q|
    requires Val(base, p) == Val(base, q)
    ensures p == q
  {
    DigitsOfVal(base, p);
    DigitsOfVal(base, q);
  }

  lemma ValSplit(base: nat, p: seq<nat>, i: nat)
    requires i < |p|
    ensures Val(base, p) == (Val(base, p[..i]) * base + p[i]) * Pow(base, |p| - i - 1) + Val(base, p[i + 1..])
  {
    var h := p[..i] + [p[i]];
    assert p == h + p[i + 1..];
    ValConcat(base, h, p[i + 1..]);
    assert h[..i] == p[..i];
  }

  /** The first digit in which two numerals differ decides their order. */
  lemma FirstDifferenceDecides(base: nat, p: seq<nat>, q: seq<nat>, i: nat)
    requires AreDigits(base, p) && AreDigits(base, q) && |p| == |q|
    requires i < |p| && p[..i] == q[..i] && p[i] < q[i]
    ensures Val(base, p) < Val(base, q)
  {
    ValSplit(base, p, i);
    ValSplit(base, q, i);
    ValBound(base, p[i + 1..]);
    hide Val, Pow;
    Carry(Val(base, p[..i]), base, p[i], q[i], Pow(base, |p| - i - 1), Val(base, p[i + 1..]), Val(base, q[i + 1..]));
  }

  lemma Carry(h: nat, base: nat, a: nat, b: nat, w: nat, x: nat, y: nat)
    requires a < b && x < w
    ensures (h * base + a) * w + x < (h * base + b) * w + y
  {
    MulMonotone(h * base + a + 1, h * base + b, w);
    Distribute3(h * base + a, 1, w);
  }

  lemma DivDiv(v: nat, c: nat, d: nat)
    requires 0 < c && 0 < d && 0 < c * d
    ensures v / c / d == v / (c * d)
  {
    var w := v / c;
    var q, r := w / d, w % d;
    DivMod(v, c);
    DivMod(w, d);
    MulMonotone(r + 1, d, c);
    Distribute3(r, 1, c);
    Distribute3(q * d, r, c);
    Rearrange(q, d, c);
    ModUnique(v, c * d, q, r * c + v % c);
  }
}
