/** From the pool's extranonce to the per-miner nonce segments and back to the submitted suffix:
    XcbStratumClient::processExtranonce, Farm::setWork and XcbStratumClient::submitSolution. */
module NonceSegments {
  import opened Arith
  import opened Numerals
  import opened Codec
  import Framing

  // ----- processExtranonce()

  /** std::string::resize(16, '0') */
  function Resized(s: string): (r: string)
    ensures |r| == 16
  {
    if |s| >= 16 then s[..16] else s + seq(16 - |s|, i => '0')
  }

  datatype Parsed = Number(value: nat) | InvalidArgument

  /** The number of hexadecimal digits `s` begins with. */
  function HexRun(s: string): (n: nat)
    ensures n <= |s| && AllHex(s[..n]) && (n < |s| ==> !IsHex(s[n]))
  {
    if s == "" || !IsHex(s[0]) then 0
    else
      var n := HexRun(s[1..]);
      assert s[..n + 1] == [s[0]] + s[1..][..n];
      n + 1
  }

  /** The digits after an optional "0x". */
  function AfterPrefix(s: string): string {
    if |s| >= 3 && s[0] == '0' && (s[1] == 'x' || s[1] == 'X') && IsHex(s[2]) then s[2..] else s
  }

  /** A sign, a prefix, and as many digits as there are; a minus sign negates in 64-bit arithmetic. */
  function Parse(t: string): Parsed {
    if t != "" && t[0] == '-' then Minus(Unsigned(t[1..]))
    else if t != "" && t[0] == '+' then Unsigned(t[1..])
    else Unsigned(t)
  }

  function Minus(r: Parsed): Parsed {
    if r.Number? then Number((NONCES - r.value % NONCES) % NONCES) else r
  }

  function Unsigned(t: string): Parsed {
    var d := AfterPrefix(t);
    var n := HexRun(d);
    if n == 0 then InvalidArgument else Number(HexValue(d[..n]))
  }

  /** std::stoull in base 16, which skips spaces.  A text of sixteen characters cannot be out of range. */
  function Stoull(s: string): Parsed {
    Parse(Framing.TrimLeft(s))
  }

  /** processExtranonce() */
  method ProcessExtranonce(enonce: string) returns (size: nat, extraNonce: Parsed)
    ensures size == |enonce|
    ensures extraNonce == Stoull(Resized(enonce))
  {
    size := |enonce|;
    var padded := Resized(enonce);
    extraNonce := Stoull(padded);
  }

  lemma HexNotSpecial(c: char)
    requires IsHex(c)
    ensures !Framing.IsSpace(c) && c != '-' && c != '+' && c != 'x' && c != 'X'
  {
  }

  lemma AllHexRun(s: string)
    requires AllHex(s)
    ensures HexRun(s) == |s| && s[..|s|] == s
  {
    hide IsHex;
  }

  lemma UnsignedHex(s: string)
    requires |s| >= 2 && AllHex(s)
    ensures Unsigned(s) == Number(HexValue(s))
  {
    HexNotSpecial(s[1]);
    AllHexRun(s);
    hide HexRun, IsHex, HexValue;
  }

  lemma UnsignedPrefixed(s: string)
    requires |s| >= 3 && s[0] == '0' && s[1] == 'x' && AllHex(s[2..])
    ensures Unsigned(s) == Number(HexValue(s[2..]))
  {
    assert s[2] == s[2..][0];
    AllHexRun(s[2..]);
    hide HexRun, IsHex, HexValue;
  }

  /** Nothing is skipped in front of a character that is neither a space nor a sign. */
  lemma StoullUnsigned(s: string)
    requires s != "" && !Framing.IsSpace(s[0]) && s[0] != '-' && s[0] != '+'
    ensures Stoull(s) == Unsigned(s)
  {
    hide Unsigned;
  }

  lemma StoullPlain(s: string)
    requires |s| >= 2 && AllHex(s)
    ensures Stoull(s) == Number(HexValue(s))
  {
    HexNotSpecial(s[0]);
    hide *;
    StoullUnsigned(s);
    UnsignedHex(s);
  }

  lemma StoullPrefixed(s: string)
    requires |s| >= 3 && s[0] == '0' && s[1] == 'x' && AllHex(s[2..])
    ensures Stoull(s) == Number(HexValue(s[2..]))
  {
    StoullUnsigned(s);
    UnsignedPrefixed(s);
    hide *;
  }

  /** For a hexadecimal extranonce of at most sixteen digits the start nonce is its value, moved to the front of
      the sixteen digits. */
  lemma HexIsParsed(enonce: string)
    requires AllHex(enonce) && |enonce| <= 16
    ensures Stoull(Resized(enonce)) == Number(HexValue(enonce) * Pow(16, 16 - |enonce|))
  {
    hide HexValue, Pow, Stoull, IsHex;
    var p := Resized(enonce);
    PadValue(enonce, 16 - |enonce|);
    assert p == enonce + seq(16 - |enonce|, i => '0');
    StoullPlain(p);
  }

  /** A longer one is cut off after sixteen digits. */
  lemma LongHexIsCut(enonce: string)
    requires AllHex(enonce) && |enonce| > 16
    ensures Stoull(Resized(enonce)) == Number(HexValue(enonce[..16]))
  {
    hide HexValue, Stoull, IsHex;
    StoullPlain(enonce[..16]);
  }

  /** A "0x" in front takes two of the sixteen places and changes nothing else. */
  lemma PrefixIsParsed(enonce: string)
    requires 2 < |enonce| <= 16 && enonce[0] == '0' && enonce[1] == 'x' && AllHex(enonce[2..])
    ensures Stoull(Resized(enonce)) == Number(HexValue(enonce[2..]) * Pow(16, 16 - |enonce|))
  {
    hide HexValue, Pow, Stoull, IsHex;
    var p, d := Resized(enonce), enonce[2..];
    PadValue(d, 16 - |enonce|);
    assert p[2..] == d + seq(16 - |enonce|, i => '0');
    StoullPrefixed(p);
  }

  lemma {:induction false} PadValue(s: string, n: nat)
    requires AllHex(s)
    ensures AllHex(s + seq(n, i => '0'))
    ensures HexValue(s + seq(n, i => '0')) == HexValue(s) * Pow(16, n)
  {
    var p := s + seq(n, i => '0');
    if n == 0 {
      assert p == s;
    } else {
      assert p[..|p| - 1] == s + seq(n - 1, i => '0');
      PadValue(s, n - 1);
      Assoc(HexValue(s), Pow(16, n - 1), 16);
    }
  }

  // ----- Farm::setWork()

  /** The integer part of log2(residual / miners). */
  function Width(residual: nat, miners: nat): (w: nat)
    requires 0 < miners <= residual
    ensures miners * Pow(2, w) <= residual < miners * Pow(2, w + 1)
    decreases residual - miners
  {
    if 2 * miners > residual then 0
    else
      var w := Width(residual, 2 * miners);
      assert 2 * miners * Pow(2, w) == miners * Pow(2, w + 1) by { Twice(miners, Pow(2, w)); }
      assert 2 * miners * Pow(2, w + 1) == miners * Pow(2, w + 2) by { Twice(miners, Pow(2, w + 1)); }
      w + 1
  }

  lemma Twice(a: int, b: int)
    ensures 2 * a * b == a * (2 * b)
  {
  }

  /** The start nonce of miner i, in 64-bit arithmetic. */
  function StartOf(start: nat, width: nat, i: nat): nat {
    (start + i * Pow(2, width) % NONCES) % NONCES
  }

  /** The start nonces handed to the miners.  With an extranonce of `size` digits
      the residual range is divided among them; otherwise the scrambler and the set width are used. */
  method SetWork(startNonce: nat, size: nat, scrambler: nat, width: nat, miners: nat)
    returns (starts: seq<nat>, newWidth: nat)
    requires size <= 16 && (size > 0 ==> 0 < miners <= Pow(2, 64 - size * 4))
    ensures newWidth == if size > 0 then Width(Pow(2, 64 - size * 4), miners) else width
    ensures |starts| == miners
    ensures forall i :: 0 <= i < miners ==>
              starts[i] == StartOf(if size > 0 then startNonce else scrambler, newWidth, i)
  {
    var start;
    if size > 0 {
      start := startNonce;
      newWidth := Width(Pow(2, 64 - size * 4), miners);
    } else {
      start := scrambler;
      newWidth := width;
    }
    starts := [];
    for i := 0 to miners
      invariant |starts| == i
      invariant forall k :: 0 <= k < i ==> starts[k] == StartOf(start, newWidth, k)
    {
      starts := starts + [(start + i * Pow(2, newWidth) % NONCES) % NONCES];
    }
  }

  lemma {:induction false} PowSixteen(n: nat)
    ensures Pow(2, 4 * n) == Pow(16, n)
  {
    if n > 0 {
      PowSixteen(n - 1);
      assert Pow(2, 4 * n) == 2 * (2 * (2 * (2 * Pow(2, 4 * n - 4)))) by {
        assert Pow(2, 4 * n) == 2 * Pow(2, 4 * n - 1);
        assert Pow(2, 4 * n - 1) == 2 * Pow(2, 4 * n - 2);
        assert Pow(2, 4 * n - 2) == 2 * Pow(2, 4 * n - 3);
        assert Pow(2, 4 * n - 3) == 2 * Pow(2, 4 * n - 4);
      }
    }
  }

  lemma SixteenDigits()
    ensures Pow(16, 16) == NONCES
  {
    assert Pow(16, 2) == 0x100;
    PowAdd(16, 2, 2);
    PowAdd(16, 4, 4);
    PowAdd(16, 8, 8);
  }

  /** The range the pool leaves to a miner with extranonce `e`: [e R, (e + 1) R) with R = 16^(16 - k). */
  lemma ResidualRange(enonce: string)
    requires AllHex(enonce) && |enonce| <= 16
    ensures HexValue(enonce) * Pow(16, 16 - |enonce|) + Pow(16, 16 - |enonce|) <= NONCES
  {
    var e, r := HexValue(enonce), Pow(16, 16 - |enonce|);
    HexBound(enonce);
    MulMonotone(e + 1, Pow(16, |enonce|), r);
    Distribute3(e, 1, r);
    PowAdd(16, |enonce|, 16 - |enonce|);
    SixteenDigits();
  }

  lemma {:induction false} HexBound(s: string)
    requires AllHex(s)
    ensures HexValue(s) < Pow(16, |s|)
  {
    if s != "" {
      HexBound(s[..|s| - 1]);
    }
  }

  lemma SegmentBounds(start: nat, r: nat, miners: nat, width: nat, i: nat)
    requires miners * Pow(2, width) <= r && start + r <= NONCES && i < miners
    ensures StartOf(start, width, i) == start + i * Pow(2, width)
    ensures start <= StartOf(start, width, i) && StartOf(start, width, i) + Pow(2, width) <= start + r
  {
    var p := Pow(2, width);
    PowPositive(2, width);
    MulMonotone(0, i, p);
    MulMonotone(i + 1, miners, p);
    Distribute3(i, 1, p);
    NoWrap(start, i * p);
  }

  /** The segments of the miners start in the residual range without wrapping, follow one another
      without overlap, end inside the range, and together cover more than half of it. */
  lemma SegmentsPartition(enonce: string, miners: nat, start: nat, width: nat)
    requires AllHex(enonce) && 1 <= |enonce| <= 16
    requires 0 < miners <= Pow(2, 64 - |enonce| * 4)
    requires start == HexValue(enonce) * Pow(16, 16 - |enonce|)
    requires width == Width(Pow(2, 64 - |enonce| * 4), miners)
    ensures var r := Pow(16, 16 - |enonce|);
            && start + r <= NONCES
            && r < 2 * (miners * Pow(2, width))
            && (forall i :: 0 <= i < miners ==>
                  start <= StartOf(start, width, i) && StartOf(start, width, i) + Pow(2, width) <= start + r)
            && (forall i, j :: 0 <= i < j < miners ==>
                  StartOf(start, width, i) + Pow(2, width) <= StartOf(start, width, j))
  {
    hide *;
    var r := Pow(16, 16 - |enonce|);
    ResidualRange(enonce);
    WidthFits(|enonce|, miners, width);
    forall i | 0 <= i < miners
      ensures start <= StartOf(start, width, i) && StartOf(start, width, i) + Pow(2, width) <= start + r
    {
      SegmentBounds(start, r, miners, width, i);
    }
    forall i, j | 0 <= i < j < miners
      ensures StartOf(start, width, i) + Pow(2, width) <= StartOf(start, width, j)
    {
      SegmentOrder(start, r, miners, width, i, j);
    }
  }

  lemma WidthFits(size: nat, miners: nat, width: nat)
    requires 1 <= size <= 16 && 0 < miners <= Pow(2, 64 - size * 4) && width == Width(Pow(2, 64 - size * 4), miners)
    ensures miners * Pow(2, width) <= Pow(16, 16 - size) < 2 * (miners * Pow(2, width))
  {
    hide *;
    PowSixteen(16 - size);
    assert 4 * (16 - size) == 64 - size * 4;
    PowDouble(width);
    var p := Pow(2, width);
    assert miners * (2 * p) == 2 * (miners * p);
  }

  lemma PowDouble(n: nat)
    ensures Pow(2, n + 1) == 2 * Pow(2, n)
  {
  }

  lemma SegmentOrder(start: nat, r: nat, miners: nat, width: nat, i: nat, j: nat)
    requires miners * Pow(2, width) <= r && start + r <= NONCES && i < j < miners
    ensures StartOf(start, width, i) + Pow(2, width) <= StartOf(start, width, j)
  {
    hide *;
    SegmentBounds(start, r, miners, width, i);
    SegmentBounds(start, r, miners, width, j);
    MulMonotone(i + 1, j, Pow(2, width));
    Distribute3(i, 1, Pow(2, width));
  }

  lemma NoWrap(a: nat, b: nat)
    requires a + b < NONCES
    ensures (a + b % NONCES) % NONCES == a + b
  {
  }

  // ----- submitSolution()

  /** std::hex with setw(width) and setfill('0'). */
  function HexString(v: nat, width: nat): (s: string)
    ensures |s| == width
  {
    if width == 0 then "" else HexString(v / 16, width - 1) + [HexChar(v % 16)]
  }

  function Lower(s: string): (r: string)
    requires AllHex(s)
    ensures |r| == |s|
  {
    if s == "" then "" else Lower(s[..|s| - 1]) + [HexChar(HexDigit(s[|s| - 1]))]
  }

  lemma {:induction false} HexStringOfValue(s: string)
    requires AllHex(s)
    ensures HexString(HexValue(s), |s|) == Lower(s)
  {
    hide HexDigit, HexChar;
    if s != "" {
      HexStringOfValue(s[..|s| - 1]);
    }
  }

  lemma {:induction false} HexStringSplit(v: nat, a: nat, b: nat)
    ensures Pow(16, b) > 0 && HexString(v, a + b) == HexString(v / Pow(16, b), a) + HexString(v, b)
    decreases b
  {
    hide HexChar;
    PowPositive(16, b);
    if b == 0 {
    } else {
      HexStringSplit(v / 16, a, b - 1);
      DivDiv(v, 16, Pow(16, b - 1));
    }
  }

  /** A nonce of the residual range begins with the digits of the extranonce. */
  lemma BeginsWithExtranonce(enonce: string, nonce: nat)
    requires AllHex(enonce) && |enonce| <= 16
    requires var r := Pow(16, 16 - |enonce|);
             HexValue(enonce) * r <= nonce < HexValue(enonce) * r + r
    ensures HexString(nonce, 16)[..|enonce|] == Lower(enonce)
  {
    hide HexString, Lower, HexValue, Pow;
    var k := |enonce|;
    var r, e := Pow(16, 16 - k), HexValue(enonce);
    HexStringSplit(nonce, k, 16 - k);
    HexStringOfValue(enonce);
    Quotient(nonce, e, r);
  }

  lemma Quotient(n: nat, e: nat, r: nat)
    requires e * r <= n < e * r + r
    ensures n / r == e
  {
    assert n == r * e + (n - e * r);
    ModUnique(n, r, e, n - e * r);
  }

  lemma PrefixDecides(s: string, t: string)
    requires |s| <= |t|
    ensures s + t[|s|..] == t <==> s == t[..|s|]
  {
    assert t == t[..|s|] + t[|s|..];
    assert (s + t[|s|..])[..|s|] == s;
  }

  /** For every nonce of the residual range, the extranonce in lower case followed by the submitted
      suffix is the full sixteen-digit nonce.  The extranonce itself, followed by the suffix, is that
      numeral exactly when it was sent in lower case. */
  lemma SuffixCompletesNonce(enonce: string, nonce: nat)
    requires AllHex(enonce) && |enonce| <= 16
    requires var r := Pow(16, 16 - |enonce|);
             HexValue(enonce) * r <= nonce < HexValue(enonce) * r + r
    ensures Lower(enonce) + HexString(nonce, 16)[|enonce|..] == HexString(nonce, 16)
    ensures enonce + HexString(nonce, 16)[|enonce|..] == HexString(nonce, 16) <==> enonce == Lower(enonce)
  {
    hide *;
    BeginsWithExtranonce(enonce, nonce);
    PrefixDecides(Lower(enonce), HexString(nonce, 16));
    PrefixDecides(enonce, HexString(nonce, 16));
  }

  /** Every nonce of the segment is a 64-bit number that the extranonce and the submitted suffix spell out. */
  ghost predicate Completes(enonce: string, start: nat, width: nat)
    requires AllHex(enonce) && |enonce| <= 16
  {
    forall nonce: nat :: start <= nonce < start + Pow(2, width) ==>
      nonce < NONCES && Lower(enonce) + HexString(nonce, 16)[|enonce|..] == HexString(nonce, 16)
  }

  /** From the extranonce in a message to the nonces of each miner and back to what is submitted. */
  method AssignSegments(enonce: string, miners: nat, scrambler: nat, oldWidth: nat)
    returns (starts: seq<nat>, width: nat)
    requires AllHex(enonce) && 1 <= |enonce| <= 16 && 0 < miners <= Pow(2, 64 - |enonce| * 4)
    ensures |starts| == miners
    ensures forall i :: 0 <= i < miners ==> Completes(enonce, starts[i], width)
    ensures forall i, j :: 0 <= i < j < miners ==> starts[i] + Pow(2, width) <= starts[j]
    ensures Pow(16, 16 - |enonce|) < 2 * (miners * Pow(2, width))
  {
    hide *;
    var size, extraNonce := ProcessExtranonce(enonce);
    HexIsParsed(enonce);
    starts, width := SetWork(extraNonce.value, size, scrambler, oldWidth, miners);
    SegmentsPartition(enonce, miners, extraNonce.value, width);
    forall i | 0 <= i < miners ensures Completes(enonce, starts[i], width) {
      SegmentCompletes(enonce, extraNonce.value, starts[i], width);
    }
  }

  lemma SegmentCompletes(enonce: string, first: nat, start: nat, width: nat)
    requires AllHex(enonce) && |enonce| <= 16 && first == HexValue(enonce) * Pow(16, 16 - |enonce|)
    requires first <= start && start + Pow(2, width) <= first + Pow(16, 16 - |enonce|) <= NONCES
    ensures Completes(enonce, start, width)
  {
    hide Pow, HexValue, Lower, HexString;
    forall nonce: nat | start <= nonce < start + Pow(2, width)
      ensures nonce < NONCES && Lower(enonce) + HexString(nonce, 16)[|enonce|..] == HexString(nonce, 16)
    {
      SuffixCompletesNonce(enonce, nonce);
    }
  }

  // ----- without an extranonce, and with other texts

  /** The start nonces follow one another by the width of a segment, modulo 2^64, from the given start on. */
  lemma SegmentsFollow(start: nat, width: nat, i: nat)
    requires start < NONCES
    ensures StartOf(start, width, 0) == start
    ensures StartOf(start, width, i + 1) == (StartOf(start, width, i) + Pow(2, width)) % NONCES
  {
    var p := Pow(2, width);
    Distribute3(i, 1, p);
    hide Pow;
    StartIs(start, i * p);
    StartIs(start, (i + 1) * p);
    assert (i + 1) * p == i * p + p;
    ModAdd(start + i * p, p, NONCES);
    ModUnique(start, NONCES, 0, start);
    assert 0 * p == 0;
  }

  lemma StartIs(start: nat, x: nat)
    ensures (start + x % NONCES) % NONCES == (start + x) % NONCES
  {
    ModAdd(x, start, NONCES);
  }

  /** stoull skips spaces in front. */
  lemma StoullSkipsSpace(c: char, s: string)
    requires Framing.IsSpace(c)
    ensures Stoull([c] + s) == Stoull(s)
  {
    hide Parse;
    assert ([c] + s)[1..] == s;
  }

  /** It stops at the first character that is no digit. */
  lemma StoullStops(s: string, c: char, rest: string)
    requires |s| >= 2 && AllHex(s) && !IsHex(c)
    ensures Stoull(s + [c] + rest) == Number(HexValue(s))
  {
    var t := s + [c] + rest;
    HexNotSpecial(s[0]);
    assert t[0] == s[0];
    hide *;
    StoullUnsigned(t);
    UnsignedStops(s, c, rest);
  }

  lemma UnsignedStops(s: string, c: char, rest: string)
    requires |s| >= 2 && AllHex(s) && !IsHex(c)
    ensures Unsigned(s + [c] + rest) == Number(HexValue(s))
  {
    var t := s + [c] + rest;
    HexNotSpecial(s[1]);
    HexRunStops(s, c, rest);
    hide HexRun, IsHex, HexValue;
    assert t[1] == s[1] && t[..|s|] == s;
    assert AfterPrefix(t) == t;
  }

  /** And it fails when there is no digit to begin with. */
  lemma StoullFails(c: char, rest: string)
    requires !IsHex(c) && !Framing.IsSpace(c) && c != '-' && c != '+'
    ensures Stoull([c] + rest) == InvalidArgument
  {
    var u := [c] + rest;
    ZeroIsHex();
    assert AfterPrefix(u) == u && HexRun(u) == 0;
    assert Unsigned(u) == InvalidArgument;
    hide *;
    StoullUnsigned(u);
  }

  lemma {:induction false} HexRunStops(s: string, c: char, rest: string)
    requires AllHex(s) && !IsHex(c)
    ensures HexRun(s + [c] + rest) == |s|
    decreases |s|
  {
    hide IsHex;
    if s != "" {
      HexRunStops(s[1..], c, rest);
      assert (s + [c] + rest)[1..] == s[1..] + [c] + rest;
    }
  }

  /** A minus sign negates in 64-bit arithmetic. */
  lemma StoullNegates(s: string)
    requires |s| >= 2 && AllHex(s)
    ensures Stoull(['-'] + s).Number? && (Stoull(['-'] + s).value + HexValue(s)) % NONCES == 0
    ensures Stoull(['+'] + s) == Number(HexValue(s))
  {
    hide *;
    UnsignedHex(s);
    ParseSigned('-', s);
    ParseSigned('+', s);
    MinusIs(HexValue(s));
  }

  lemma MinusIs(v: nat)
    ensures Minus(Number(v)).Number? && (Minus(Number(v)).value + v) % NONCES == 0
  {
    Negated(v);
  }

  lemma ParseSigned(sign: char, s: string)
    requires sign == '-' || sign == '+'
    ensures Stoull([sign] + s) == if sign == '+' then Unsigned(s) else Minus(Unsigned(s))
  {
    hide Unsigned;
    var t := [sign] + s;
    assert t[1..] == s;
    assert Framing.TrimLeft(t) == t;
  }

  lemma Negated(v: nat)
    ensures ((NONCES - v % NONCES) % NONCES + v) % NONCES == 0
  {
    var r := v % NONCES;
    ModAdd(v, (NONCES - r) % NONCES, NONCES);
    if r > 0 {
      ModUnique(NONCES - r, NONCES, 0, NONCES - r);
    }
  }

  /** The text of a number has its value, so far as the width allows. */
  lemma {:induction false} HexStringValue(v: nat, width: nat)
    ensures AllHex(HexString(v, width)) && Pow(16, width) > 0
    ensures HexValue(HexString(v, width)) == v % Pow(16, width)
    decreases width
  {
    hide HexDigit, HexChar;
    PowPositive(16, width);
    if width > 0 {
      PowPositive(16, width - 1);
      HexStringValue(v / 16, width - 1);
      HexCharDigit(v % 16);
      var s := HexString(v, width);
      assert s[..width - 1] == HexString(v / 16, width - 1);
      ModTimes(v, 16, Pow(16, width - 1));
    }
  }
}
