/** Hexadecimal and big-endian conversions of libdevcore/CommonData. */
module Codec {
  import opened Arith
  import opened Numerals

  type byte = b: nat | b < 256

  // ----- hexadecimal

  /** fromHex(char): the digit, or -1. */
  function HexDigit(c: char): (d: int)
    ensures -1 <= d < 16
  {
    if '0' <= c <= '9' then c as int - '0' as int
    else if 'a' <= c <= 'f' then c as int - 'a' as int + 10
    else if 'A' <= c <= 'F' then c as int - 'A' as int + 10
    else -1
  }

  predicate IsHex(c: char) {
    HexDigit(c) != -1
  }

  predicate AllHex(s: string) {
    forall i :: 0 <= i < |s| ==> IsHex(s[i])
  }

  function HexChar(d: nat): char
    requires d < 16
  {
    "0123456789abcdef"[d]
  }

  lemma HexCharDigit(d: nat)
    requires d < 16
    ensures HexDigit(HexChar(d)) == d && HexChar(d) != 'x'
  {
  }

  function HexValue(s: string): nat
    requires AllHex(s)
  {
    if s == "" then 0 else HexValue(s[..|s| - 1]) * 16 + HexDigit(s[|s| - 1])
  }

  /** Two lower-case digits for each byte. */
  function HexOf(data: seq<byte>): (s: string)
    ensures |s| == 2 * |data|
  {
    if data == [] then ""
    else HexOf(data[..|data| - 1]) + [HexChar(data[|data| - 1] / 16), HexChar(data[|data| - 1] % 16)]
  }

  /** A byte written with std::hex, filled up with zeros to a width. */
  function Wide(b: byte, width: int): string {
    var digits := if b < 16 then [HexChar(b)] else [HexChar(b / 16), HexChar(b % 16)];
    if width > |digits| then seq(width - |digits|, i => '0') + digits else digits
  }

  /** The first byte takes `width` places, every other byte two. */
  function HexText(data: seq<byte>, width: int): string {
    if data == [] then "" else Wide(data[0], width) + HexOf(data[1..])
  }

  method ToHex(data: seq<byte>, width: int, prefix: bool) returns (s: string)
    ensures s == (if prefix then "0x" else "") + HexText(data, width)
  {
    var ret := "";
    for i := 0 to |data|
      invariant ret == HexText(data[..i], width)
    {
      NextByte(data, width, i);
      ret := ret + Wide(data[i], if i > 0 then 2 else width);
    }
    assert data[..|data|] == data;
    s := if prefix then "0x" + ret else ret;
  }

  lemma WideTwo(b: byte)
    ensures Wide(b, 2) == [HexChar(b / 16), HexChar(b % 16)]
  {
  }

  lemma NextByte(data: seq<byte>, width: int, i: nat)
    requires i < |data|
    ensures HexText(data[..i + 1], width) == HexText(data[..i], width) + Wide(data[i], if i > 0 then 2 else width)
  {
    WideTwo(data[i]);
    hide Wide;
    if i > 0 {
      var rest := data[..i + 1][1..];
      assert rest[..i - 1] == data[..i][1..] && rest[i - 1] == data[i];
    } else {
      assert data[..1][1..] == [];
    }
  }

  /** With the default width of two this is two digits for each byte. */
  lemma {:induction false} DefaultWidth(data: seq<byte>)
    ensures HexText(data, 2) == HexOf(data)
    decreases |data|
  {
    if |data| == 1 {
      WideTwo(data[0]);
      assert data[1..] == [] && data[..0] == [];
    } else if |data| > 1 {
      var n := |data| - 1;
      DefaultWidth(data[..n]);
      NextByte(data, 2, n);
      WideTwo(data[n]);
      assert data[..n + 1] == data;
    }
  }

  /** The digits that fromHex reads: all but a leading "0x". */
  function Unprefixed(s: string): string {
    if |s| >= 2 && s[0] == '0' && s[1] == 'x' then s[2..] else s
  }

  datatype Decoded = Bytes(bytes: seq<byte>) | BadHexCharacter

  method FromHex(s: string, throwing: bool) returns (r: Decoded)
    ensures AllHex(Unprefixed(s)) ==>
              && r.Bytes?
              && |r.bytes| == (|Unprefixed(s)| + 1) / 2
              && Val(256, r.bytes) == HexValue(Unprefixed(s))
    ensures !AllHex(Unprefixed(s)) ==> r == if throwing then BadHexCharacter else Bytes([])
  {
    var start := if |s| >= 2 && s[0] == '0' && s[1] == 'x' then 2 else 0;
    var d := s[start..];
    assert d == Unprefixed(s);
    var head: seq<byte> := [];
    if |s| % 2 == 1 {
      var h := HexDigit(d[0]);
      if h == -1 {
        assert !IsHex(d[0]);
        return if throwing then BadHexCharacter else Bytes([]);
      }
      head := [h];
    }
    FirstDigit(d);
    hide *;
    r := DecodePairs(d, |s| % 2, head, throwing);
  }

  /** The loop of fromHex over pairs of digits, after the odd digit if there is one. */
  method DecodePairs(d: string, from: nat, head: seq<byte>, throwing: bool) returns (r: Decoded)
    requires from == |head| <= |d| && from < 2 && (|d| - from) % 2 == 0
    requires AllHex(d[..from]) && Val(256, head) == HexValue(d[..from])
    ensures AllHex(d) ==> r.Bytes? && |r.bytes| == (|d| + 1) / 2 && Val(256, r.bytes) == HexValue(d)
    ensures !AllHex(d) ==> r == if throwing then BadHexCharacter else Bytes([])
  {
    hide Val, HexValue, HexDigit;
    var i := from;
    var ret: seq<byte> := head;
    while i < |d|
      invariant from <= i <= |d| && (|d| - i) % 2 == 0
      invariant AllHex(d[..i])
      invariant |ret| == (i + 1) / 2 && Val(256, ret) == HexValue(d[..i])
    {
      var h, l := HexDigit(d[i]), HexDigit(d[i + 1]);
      if h == -1 || l == -1 {
        assert !IsHex(d[i]) || !IsHex(d[i + 1]);
        return if throwing then BadHexCharacter else Bytes([]);
      }
      NextPair(ret, d, i);
      ret := ret + [h * 16 + l];
      i := i + 2;
    }
    assert d[..|d|] == d;
    r := Bytes(ret);
  }

  lemma FirstDigit(d: string)
    ensures Val(256, []) == HexValue(d[..0]) == 0
    ensures |d| >= 1 && IsHex(d[0]) ==> AllHex(d[..1]) && Val(256, [HexDigit(d[0])]) == HexValue(d[..1])
  {
    if |d| >= 1 && IsHex(d[0]) {
      assert d[..1][..0] == "" && [HexDigit(d[0])][..0] == [];
    }
  }

  lemma NextPair(ret: seq<byte>, d: string, k: nat)
    requires k + 2 <= |d| && AllHex(d[..k]) && IsHex(d[k]) && IsHex(d[k + 1])
    requires Val(256, ret) == HexValue(d[..k])
    ensures AllHex(d[..k + 2])
    ensures Val(256, ret + [HexDigit(d[k]) * 16 + HexDigit(d[k + 1])]) == HexValue(d[..k + 2])
  {
    hide HexDigit, HexValue;
    TwoDigits(d, k);
    var next := ret + [HexDigit(d[k]) * 16 + HexDigit(d[k + 1])];
    assert next[..|ret|] == ret;
  }

  lemma TwoDigits(d: string, k: nat)
    requires k + 2 <= |d| && AllHex(d[..k]) && IsHex(d[k]) && IsHex(d[k + 1])
    ensures AllHex(d[..k + 2])
    ensures HexValue(d[..k + 2]) == (HexValue(d[..k]) * 16 + HexDigit(d[k])) * 16 + HexDigit(d[k + 1])
  {
    assert d[..k + 2][..k + 1] == d[..k + 1] && d[..k + 1][..k] == d[..k];
  }

  lemma {:induction false} HexOfIsHex(data: seq<byte>)
    ensures AllHex(HexOf(data)) && HexValue(HexOf(data)) == Val(256, data)
  {
    hide HexDigit, HexChar;
    if data != [] {
      hide HexValue;
      var n := |data| - 1;
      var h, l := data[n] / 16, data[n] % 16;
      HexOfIsHex(data[..n]);
      HexCharDigit(h);
      HexCharDigit(l);
      var s := HexOf(data);
      assert s[..2 * n] == HexOf(data[..n]) && s[2 * n] == HexChar(h) && s[2 * n + 1] == HexChar(l);
      TwoDigits(s, 2 * n);
      assert s[..2 * n + 2] == s;
    }
  }

  lemma HexOfHasNoPrefix(data: seq<byte>)
    ensures Unprefixed(HexOf(data)) == HexOf(data)
  {
    HexOfIsHex(data);
    var s := HexOf(data);
    hide HexOf, HexValue, Val;
    if |s| >= 2 {
      assert IsHex(s[1]);
    }
  }

  /** fromHex undoes toHex, with and without the prefix. */
  method RoundTrip(data: seq<byte>, prefix: bool, throwing: bool) returns (r: Decoded)
    ensures r == Bytes(data)
  {
    hide HexText, HexOf, HexValue, Val, IsHex;
    var s := ToHex(data, 2, prefix);
    DefaultWidth(data);
    HexOfIsHex(data);
    HexOfHasNoPrefix(data);
    if prefix {
      assert s[2..] == HexOf(data);
    } else {
      assert s == HexOf(data);
    }
    r := FromHex(s, throwing);
    ValInjective(256, r.bytes, data);
  }

  // ----- big-endian

  /** toBigEndian(): fills the buffer with the low bytes of the value, last byte first. */
  method ToBigEndian(value: nat, out: array<byte>)
    modifies out
    ensures out[..] == Digits(256, value, out.Length)
    ensures Pow(256, out.Length) > 0 && Val(256, out[..]) == value % Pow(256, out.Length)
  {
    var v, i := value, out.Length;
    while i != 0
      invariant 0 <= i <= out.Length
      invariant Digits(256, v, i) + out[i..] == Digits(256, value, out.Length)
      decreases i
    {
      ghost var rest := out[i..];
      out[i - 1] := v % 256;
      assert Digits(256, v, i) == Digits(256, v / 256, i - 1) + [v % 256];
      assert out[i - 1..] == [v % 256] + rest;
      v, i := v / 256, i - 1;
    }
    assert out[0..] == out[..];
    ValOfDigits(256, value, out.Length);
  }

  /** fromBigEndian() into an unsigned type of `width` bytes. */
  method FromBigEndian(data: seq<byte>, width: nat) returns (value: nat)
    requires width > 0
    ensures Pow(256, width) > 0 && value == Val(256, data) % Pow(256, width)
  {
    var modulus := Pow(256, width);
    PowPositive(256, width);
    value := 0;
    ModUnique(0, modulus, 0, 0);
    for i := 0 to |data|
      invariant value == Val(256, data[..i]) % modulus
    {
      assert data[..i + 1][..i] == data[..i];
      ModShift(Val(256, data[..i]), data[i], modulus);
      value := (value * 256 + data[i]) % modulus;
    }
    assert data[..|data|] == data;
  }

  lemma ModShift(v: nat, b: nat, m: nat)
    requires 0 < m
    ensures (v % m * 256 + b) % m == (v * 256 + b) % m
  {
    var q, w := v / m, v % m * 256 + b;
    DivMod(v, m);
    DivMod(w, m);
    assert v * 256 + b == m * (256 * q + w / m) + w % m;
    ModUnique(v * 256 + b, m, 256 * q + w / m, w % m);
  }

  /** The number of bytes a value needs; none for zero. */
  function BytesRequired(value: nat): nat {
    if value == 0 then 0 else 1 + BytesRequired(value / 256)
  }

  method ToCompactBigEndian(value: nat, min: nat) returns (out: array<byte>)
    ensures fresh(out)
    ensures out.Length == if BytesRequired(value) < min then min else BytesRequired(value)
    ensures out[..] == Digits(256, value, out.Length)
  {
    var i, v := 0, value;
    while v != 0
      invariant i + BytesRequired(v) == BytesRequired(value)
      decreases v
    {
      i, v := i + 1, v / 256;
    }
    out := new byte[if i < min then min else i](_ => 0);
    ToBigEndian(value, out);
  }

  lemma {:induction false} BytesRequiredBounds(value: nat)
    ensures value < Pow(256, BytesRequired(value)) && (value == 0 <==> BytesRequired(value) == 0)
    ensures value > 0 ==> Pow(256, BytesRequired(value) - 1) <= value
  {
    if value != 0 {
      BytesRequiredBounds(value / 256);
    }
  }

  lemma FirstDigitCounts(ds: seq<nat>)
    requires AreDigits(256, ds) && ds != [] && ds[0] == 0
    ensures Val(256, ds) < Pow(256, |ds| - 1)
  {
    assert ds == [0] + ds[1..];
    ValConcat(256, [0], ds[1..]);
    ValBound(256, ds[1..]);
    assert [0][..0] == [];
    assert Val(256, [0]) == 0;
  }

  /** The compact form is exact, and minimal: it has no leading zero byte beyond the requested length,
      and no shorter buffer can represent the value. */
  lemma CompactIsMinimal(value: nat, min: nat, n: nat, ds: seq<nat>)
    requires n == if BytesRequired(value) < min then min else BytesRequired(value)
    requires AreDigits(256, ds)
    ensures Val(256, Digits(256, value, n)) == value
    ensures n > min ==> Digits(256, value, n)[0] != 0
    ensures Val(256, ds) == value && min <= |ds| ==> n <= |ds|
  {
    hide Digits, Val, Pow, BytesRequired;
    var k := BytesRequired(value);
    BytesRequiredBounds(value);
    PowMonotone(256, k, n);
    ValOfDigits(256, value, n);
    ModUnique(value, Pow(256, n), 0, value);
    ValBound(256, ds);
    if |ds| < k {
      PowMonotone(256, |ds|, k - 1);
    }
    if n > min && Digits(256, value, n)[0] == 0 {
      FirstDigitCounts(Digits(256, value, n));
    }
  }

  // ----- digits and widths

  /** The hexadecimal characters are the ten digits and six letters of either case, and case does not change the
      value. */
  lemma DigitsOfEitherCase(c: char)
    ensures IsHex(c) <==> c in "0123456789abcdefABCDEF"
    ensures 'A' <= c <= 'F' ==> HexDigit(c) == HexDigit((c as int + 32) as char)
    ensures forall d :: 0 <= d < 16 ==> HexDigit("0123456789abcdef"[d]) == d
  {
    var all := "0123456789abcdefABCDEF";
    if IsHex(c) {
      var i := if '0' <= c <= '9' then c as int - 48 else if 'a' <= c <= 'f' then c as int - 87 else c as int - 49;
      assert all[i] == c;
    }
  }

  /** toHex writes lower-case digits only. */
  lemma {:induction false} HexOfIsLower(data: seq<byte>)
    ensures forall i :: 0 <= i < |HexOf(data)| ==> HexOf(data)[i] in "0123456789abcdef"
  {
    if data != [] {
      HexOfIsLower(data[..|data| - 1]);
      var s, n := HexOf(data), |data| - 1;
      var h := HexOf(data[..n]);
      forall i | 0 <= i < |s| ensures s[i] in "0123456789abcdef" {
        if i < 2 * n { assert s[i] == h[i]; }
      }
    }
  }

  lemma {:induction false} ZerosInFront(n: nat, s: string)
    requires AllHex(s)
    ensures AllHex(seq(n, i => '0') + s) && HexValue(seq(n, i => '0') + s) == HexValue(s)
    decreases |s|, n
  {
    hide HexDigit;
    var t := seq(n, i => '0') + s;
    ZeroIsHex();
    if s != "" {
      var k := |s| - 1;
      ZerosInFront(n, s[..k]);
      assert t[..|t| - 1] == seq(n, i => '0') + s[..k];
    } else if n > 0 {
      ZerosInFront(n - 1, s);
      assert t[..|t| - 1] == seq(n - 1, i => '0') + s;
    }
  }

  lemma ZeroIsHex()
    ensures IsHex('0') && HexDigit('0') == 0
  {
  }

  /** The width of the first byte adds zeros in front; it never cuts digits off or changes the value. */
  lemma WideKeepsValue(b: byte, width: int)
    ensures AllHex(Wide(b, width)) && HexValue(Wide(b, width)) == b
    ensures |Wide(b, width)| >= width && (|Wide(b, width)| > 2 ==> |Wide(b, width)| == width)
    ensures b < 16 && width < 2 ==> |Wide(b, width)| == 1
  {
    hide HexChar, HexDigit;
    var digits := if b < 16 then [HexChar(b)] else [HexChar(b / 16), HexChar(b % 16)];
    if b < 16 { OneDigit(b); } else { DigitPair(b / 16, b % 16); }
    assert AllHex(digits) && HexValue(digits) == b;
    hide HexValue;
    if width > |digits| {
      ZerosInFront(width - |digits|, digits);
    }
  }

  lemma OneDigit(d: nat)
    requires d < 16
    ensures AllHex([HexChar(d)]) && HexValue([HexChar(d)]) == d
  {
    HexCharDigit(d);
    hide HexChar;
    assert [HexChar(d)][..0] == "";
  }

  lemma DigitPair(h: nat, l: nat)
    requires h < 16 && l < 16
    ensures AllHex([HexChar(h), HexChar(l)]) && HexValue([HexChar(h), HexChar(l)]) == 16 * h + l
  {
    HexCharDigit(l);
    OneDigit(h);
    hide HexChar, HexDigit;
    assert [HexChar(h), HexChar(l)][..1] == [HexChar(h)];
    assert IsHex([HexChar(h)][0]);
  }
}
