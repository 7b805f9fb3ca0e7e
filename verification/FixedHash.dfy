/** Fixed-size hashes of libdevcore/FixedHash.h: big-endian numbers of N bytes. */
module FixedHashes {
  import opened Arith
  import opened Numerals
  import opened Codec

  datatype Alignment = AlignLeft | AlignRight | FailIfDifferent

  function ZeroBytes(n: nat): (r: seq<byte>)
    ensures |r| == n && forall i :: 0 <= i < n ==> r[i] == 0
  {
    seq(n, i => 0)
  }

  /** The N bytes a hash is given by a byte string of another length. */
  function Aligned(b: seq<byte>, n: nat, how: Alignment): (r: seq<byte>)
    ensures |r| == n
  {
    if |b| == n then b
    else match how
      case FailIfDifferent => ZeroBytes(n)
      case AlignLeft => if |b| > n then b[..n] else b + ZeroBytes(n - |b|)
      case AlignRight => if |b| > n then b[|b| - n..] else ZeroBytes(n - |b|) + b
  }

  lemma {:induction false} ValZeros(n: nat)
    ensures Val(256, ZeroBytes(n)) == 0
  {
    if n > 0 {
      assert ZeroBytes(n)[..n - 1] == ZeroBytes(n - 1);
      ValZeros(n - 1);
    }
  }

  /** Aligning to the right keeps the number modulo 256^N; aligning to the left keeps its leading bytes:
      it multiplies by a power of 256 or divides by one. */
  lemma AlignmentOnNumbers(b: seq<byte>, n: nat)
    ensures Pow(256, n) > 0 && Val(256, Aligned(b, n, AlignRight)) == Val(256, b) % Pow(256, n)
    ensures |b| <= n ==> Val(256, Aligned(b, n, AlignLeft)) == Val(256, b) * Pow(256, n - |b|)
    ensures |b| > n ==> Pow(256, |b| - n) > 0 && Val(256, Aligned(b, n, AlignLeft)) == Val(256, b) / Pow(256, |b| - n)
  {
    PowPositive(256, n);
    if |b| <= n {
      var z := ZeroBytes(n - |b|);
      assert |b| == n ==> b + z == b && z + b == b;
      ValZeros(n - |b|);
      ValConcat(256, b, z);
      ValConcat(256, z, b);
      ValBound(256, b);
      PowMonotone(256, |b|, n);
      ModUnique(Val(256, b), Pow(256, n), 0, Val(256, b));
    } else {
      Cropped(b, n);
    }
  }

  /** Without alignment a byte string of another length gives the zero hash. */
  lemma MismatchIsZero(b: seq<byte>, n: nat)
    ensures Val(256, Aligned(b, n, FailIfDifferent)) == if |b| == n then Val(256, b) else 0
  {
    hide Val;
    ValZeros(n);
  }

  lemma Cropped(b: seq<byte>, n: nat)
    requires n < |b|
    ensures Pow(256, n) > 0 && Val(256, b[|b| - n..]) == Val(256, b) % Pow(256, n)
    ensures Pow(256, |b| - n) > 0 && Val(256, b[..n]) == Val(256, b) / Pow(256, |b| - n)
  {
    var m := |b| - n;
    assert b == b[..m] + b[m..] && b == b[..n] + b[n..];
    ValConcat(256, b[..m], b[m..]);
    ValConcat(256, b[..n], b[n..]);
    ValBound(256, b[m..]);
    ValBound(256, b[n..]);
    hide Val, Pow;
    assert Val(256, b[..m]) * Pow(256, n) == Pow(256, n) * Val(256, b[..m]);
    assert Val(256, b[..n]) * Pow(256, m) == Pow(256, m) * Val(256, b[..n]);
    ModUnique(Val(256, b), Pow(256, n), Val(256, b[..m]), Val(256, b[m..]));
    ModUnique(Val(256, b), Pow(256, m), Val(256, b[..n]), Val(256, b[n..]));
  }

  /** Adding one to a digit adds its weight; wrapping it from 255 to 0 takes away 255 times the weight. */
  lemma ValUpdate(ds: seq<nat>, es: seq<nat>, i: nat, w: nat)
    requires i < |ds| == |es| && es[..i] == ds[..i] && es[i + 1..] == ds[i + 1..] && w == Pow(256, |ds| - 1 - i)
    ensures es[i] == ds[i] + 1 ==> Val(256, es) == Val(256, ds) + w
    ensures ds[i] == 255 && es[i] == 0 ==> Val(256, es) + 256 * w == Val(256, ds) + w
  {
    hide *;
    ValSplit(256, ds, i);
    ValSplit(256, es, i);
    Reweigh(Val(256, ds[..i]) * 256, ds[i], es[i], w);
  }

  lemma Reweigh(h: int, a: int, b: int, w: int)
    ensures b == a + 1 ==> (h + b) * w == (h + a) * w + w
    ensures a == 255 && b == 0 ==> (h + b) * w + 256 * w == (h + a) * w + w
  {
    if b == a + 1 {
      Distribute3(h + a, 1, w);
    } else if a == 255 && b == 0 {
      Distribute3(h, 255, w);
    }
  }

  class FixedHash {
    const data: array<byte>

    ghost function Number(): nat
      reads data
    {
      Val(256, data[..])
    }

    /** From the corresponding arithmetic type. */
    constructor FromNumber(value: nat, n: nat)
      ensures fresh(data) && data.Length == n
      ensures Pow(256, n) > 0 && Number() == value % Pow(256, n)
    {
      data := new byte[n](_ => 0);
      new;
      ToBigEndian(value, data);
    }

    /** From a byte string, or another hash, of any length. */
    constructor FromBytes(b: seq<byte>, n: nat, how: Alignment)
      ensures fresh(data) && data[..] == Aligned(b, n, how)
    {
      data := new byte[n](_ => 0);
      new;
      if |b| == n {
        for i := 0 to n
          invariant data[..i] == b[..i]
        {
          data[i] := b[i];
        }
      } else if how != FailIfDifferent {
        var c := if |b| < n then |b| else n;
        ghost var goal := Aligned(b, n, how);
        for i := 0 to c
          invariant forall k :: 0 <= k < n ==>
                      data[k] == if (if how == AlignLeft then k < i else k >= n - i) then goal[k] else 0
        {
          data[if how == AlignRight then n - 1 - i else i] := b[if how == AlignRight then |b| - 1 - i else i];
        }
      }
    }

    /** Converts back to the arithmetic type, which has as many bytes as the hash. */
    method ToNumber() returns (value: nat)
      requires data.Length > 0
      ensures value == Number()
    {
      value := Codec.FromBigEndian(data[..], data.Length);
      ValBound(256, data[..]);
      ModUnique(Number(), Pow(256, data.Length), 0, Number());
    }

    /** operator++ adds one modulo 256^N. */
    method Increment()
      modifies data
      ensures Pow(256, data.Length) > 0 && Number() == (old(Number()) + 1) % Pow(256, data.Length)
    {
      hide Val, Pow;
      var i := data.Length;
      PowZero();
      while i > 0
        invariant 0 <= i <= data.Length
        invariant Number() + Pow(256, data.Length - i) == old(Number()) + 1
        decreases i
      {
        i := i - 1;
        ghost var before := data[..];
        var x: nat := data[i];
        data[i] := (x + 1) % 256;
        ghost var after := data[..];
        assert after[..i] == before[..i] && after[i + 1..] == before[i + 1..];
        ValUpdate(before, after, i, Pow(256, data.Length - 1 - i));
        PowNext(data.Length - 1 - i);
        if data[i] != 0 {
          NoOverflow(data[..], old(data[..]));
          return;
        }
      }
      ValBound(256, data[..]);
      ValBound(256, old(data[..]));
      ModUnique(old(Number()) + 1, Pow(256, data.Length), 1, 0);
    }

    /** operator< is the order of the numbers. */
    method Less(c: FixedHash) returns (r: bool)
      requires data.Length == c.data.Length
      ensures r <==> Number() < c.Number()
    {
      hide Val;
      for i := 0 to data.Length
        invariant data[..i] == c.data[..i]
      {
        if data[i] < c.data[i] {
          FirstDifferenceDecides(256, data[..], c.data[..], i);
          return true;
        }
        if data[i] > c.data[i] {
          FirstDifferenceDecides(256, c.data[..], data[..], i);
          return false;
        }
      }
      assert data[..] == c.data[..];
      return false;
    }

    method Equals(c: FixedHash) returns (r: bool)
      requires data.Length == c.data.Length
      ensures r <==> Number() == c.Number()
      ensures r <==> data[..] == c.data[..]
    {
      r := data[..] == c.data[..];
      if !r && Number() == c.Number() {
        ValInjective(256, data[..], c.data[..]);
      }
    }

    /** The word at byte 8 i.  Only equality of words matters, so their byte order does not. */
    function WordAt(i: nat): nat
      requires 8 * i + 8 <= data.Length
      reads this, data
    {
      Val(256, data[8 * i..8 * i + 8])
    }

    /** The equality of 32-byte hashes: four words. */
    method EqualsWords(c: FixedHash) returns (r: bool)
      requires data.Length == c.data.Length == 32
      ensures r <==> data[..] == c.data[..]
      ensures r <==> Number() == c.Number()
    {
      r := WordAt(0) == c.WordAt(0) && WordAt(1) == c.WordAt(1) && WordAt(2) == c.WordAt(2) && WordAt(3) == c.WordAt(3);
      WordsAre(data[..], c.data[..]);
      if Number() == c.Number() {
        ValInjective(256, data[..], c.data[..]);
      }
    }

    method LessOrEqual(c: FixedHash) returns (r: bool)
      requires data.Length == c.data.Length
      ensures r <==> Number() <= c.Number()
    {
      var eq := Equals(c);
      var lt := Less(c);
      r := eq || lt;
    }
  }

  lemma WordsAre(a: seq<byte>, b: seq<byte>)
    requires |a| == |b| == 32
    ensures a == b <==> forall i :: 0 <= i < 4 ==> Val(256, a[8 * i..8 * i + 8]) == Val(256, b[8 * i..8 * i + 8])
  {
    hide Val;
    if forall i :: 0 <= i < 4 ==> Val(256, a[8 * i..8 * i + 8]) == Val(256, b[8 * i..8 * i + 8]) {
      forall i | 0 <= i < 4 ensures a[8 * i..8 * i + 8] == b[8 * i..8 * i + 8] {
        ValInjective(256, a[8 * i..8 * i + 8], b[8 * i..8 * i + 8]);
      }
      assert a == a[8 * 0..8 * 0 + 8] + a[8 * 1..8 * 1 + 8] + a[8 * 2..8 * 2 + 8] + a[8 * 3..8 * 3 + 8];
      assert b == b[8 * 0..8 * 0 + 8] + b[8 * 1..8 * 1 + 8] + b[8 * 2..8 * 2 + 8] + b[8 * 3..8 * 3 + 8];
    }
  }

  lemma PowZero()
    ensures Pow(256, 0) == 1
  {
  }

  lemma PowNext(n: nat)
    ensures Pow(256, n + 1) == 256 * Pow(256, n)
  {
  }

  lemma NoOverflow(ds: seq<byte>, es: seq<byte>)
    requires |ds| == |es| && Val(256, ds) == Val(256, es) + 1
    ensures Pow(256, |ds|) > 0 && Val(256, ds) == (Val(256, es) + 1) % Pow(256, |ds|)
  {
    hide Val, Pow;
    ValBound(256, ds);
    ModUnique(Val(256, ds), Pow(256, |ds|), 0, Val(256, ds));
  }
}
