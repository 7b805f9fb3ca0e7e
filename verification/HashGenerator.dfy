/** The streaming hash generator of libethash-cpu/picosha3.h, with FIPS 202 as its specification. */
module HashGenerators {
  import opened Bits
  import opened Keccak
  import opened KeccakBijection
  import opened KeccakSteps
  import opened Sponge
  import opened BlockIO

  const SIZE_T: nat := 0x1_0000_0000_0000_0000

  /** What process() reads and writes: the sponge state, the rate buffer and the position in it. */
  datatype Core = Core(state: State, buffer: seq<Byte>, pos: nat)

  ghost predicate Fits(c: Core) {
    c.pos < |c.buffer|
  }

  function ClearedBytes(n: nat): (r: seq<Byte>)
    ensures |r| == n
  {
    seq(n, i => Zeros(8))
  }

  function Fresh(rate: nat): Core {
    Core(ZeroState(), ClearedBytes(rate), 0)
  }

  // ----- process()

  function FeedByte(c: Core, b: Byte): (r: Core)
    requires Fits(c)
    ensures Fits(r) && |r.buffer| == |c.buffer|
  {
    hide KeccakP, Absorb;
    var buffer := c.buffer[c.pos := b];
    if c.pos + 1 == |buffer| then Core(KeccakP(Absorb(c.state, buffer)), ClearedBytes(|buffer|), 0)
    else Core(c.state, buffer, c.pos + 1)
  }

  function Feed(c: Core, input: seq<Byte>): (r: Core)
    requires Fits(c)
    ensures Fits(r) && |r.buffer| == |c.buffer|
  {
    hide FeedByte;
    if input == [] then c else FeedByte(Feed(c, input[..|input| - 1]), input[|input| - 1])
  }

  /** Cutting the input into several process() calls makes no difference. */
  lemma {:induction false} FeedSplit(c: Core, m: seq<Byte>, n: seq<Byte>)
    requires Fits(c)
    ensures Feed(Feed(c, m), n) == Feed(c, m + n)
  {
    hide FeedByte;
    if n == [] {
      assert m + n == m;
    } else {
      assert (m + n)[..|m + n| - 1] == m + n[..|n| - 1];
      FeedSplit(c, m, n[..|n| - 1]);
    }
  }

  function Aligned(s: State, rate: nat): Core {
    Core(s, ClearedBytes(rate), 0)
  }

  lemma {:induction false} FeedPartial(s: State, m: seq<Byte>, rate: nat)
    requires |m| < rate
    ensures Feed(Aligned(s, rate), m) == Core(s, m + ClearedBytes(rate - |m|), |m|)
  {
    if m != [] {
      FeedPartial(s, m[..|m| - 1], rate);
      var c := Feed(Aligned(s, rate), m[..|m| - 1]);
      assert c.buffer[|m| - 1 := m[|m| - 1]] == m + ClearedBytes(rate - |m|);
    }
  }

  lemma FeedBlock(s: State, m: seq<Byte>, rate: nat)
    requires 0 < rate == |m|
    ensures Feed(Aligned(s, rate), m) == Aligned(KeccakP(Absorb(s, m)), rate)
  {
    hide KeccakP, Absorb;
    FeedPartial(s, m[..rate - 1], rate);
    var c := Feed(Aligned(s, rate), m[..rate - 1]);
    assert c.buffer[rate - 1 := m[rate - 1]] == m;
  }

  /** From a block boundary: whole blocks go into the state, the tail stays in the buffer. */
  lemma {:induction false} FeedAligned(s: State, m: seq<Byte>, rate: nat)
    requires 0 < rate
    ensures Feed(Aligned(s, rate), m)
         == Core(AbsorbAll(s, m, rate), Tail(m, rate) + ClearedBytes(rate - |Tail(m, rate)|), |Tail(m, rate)|)
    decreases |m|
  {
    hide KeccakP, Absorb, Feed, FeedByte;
    if |m| < rate {
      FeedPartial(s, m, rate);
    } else {
      FeedBlock(s, m[..rate], rate);
      FeedSplit(Aligned(s, rate), m[..rate], m[rate..]);
      assert m[..rate] + m[rate..] == m;
      FeedAligned(KeccakP(Absorb(s, m[..rate])), m[rate..], rate);
    }
  }

  // ----- finish()

  /** The buffer after add_padding(), whose `q` is the rate plus the position, not minus it. */
  function PaddedBuffer(c: Core, padding: Padding): (r: seq<Byte>)
    requires Fits(c)
    ensures |r| == |c.buffer|
  {
    var q := (|c.buffer| + c.pos) % SIZE_T;
    if q == 1 then c.buffer[c.pos := if padding == SHA then ByteOf(0x86) else ByteOf(0x9F)]
    else c.buffer[c.pos := if padding == SHA then ByteOf(0x06) else ByteOf(0x1F)]
                 [|c.buffer| - 1 := ByteOf(0x80)]
  }

  function Finished(c: Core, padding: Padding): State
    requires Fits(c)
  {
    hide KeccakP, Absorb, PaddedBuffer;
    KeccakP(Absorb(c.state, PaddedBuffer(c, padding)))
  }

  /** The state from which the generator squeezes the digest of a message fed to it after clear(). */
  function GeneratedState(m: seq<Byte>, rate: nat, padding: Padding): State
    requires 0 < rate
  {
    hide Feed, Finished;
    Finished(Feed(Fresh(rate), m), padding)
  }

  lemma PadConstants()
    ensures ByteOf(0x06) == FirstPadByte(SHA) && ByteOf(0x1F) == FirstPadByte(SHAKE)
    ensures ByteOf(0x80) == LAST_PAD_BYTE
    ensures ByteOf(0x86) == Xor(FirstPadByte(SHA), LAST_PAD_BYTE)
    ensures ByteOf(0x9F) == Xor(FirstPadByte(SHAKE), LAST_PAD_BYTE)
  {
  }

  /** The padded buffer is the FIPS 202 block unless the tail leaves room for exactly one byte. */
  lemma PaddedBufferIs(s: State, t: seq<Byte>, rate: nat, padding: Padding)
    requires |t| < rate <= STATE_BYTES
    ensures var block := t + PadBytes(|t|, rate, padding);
            var buffer := PaddedBuffer(Core(s, t + ClearedBytes(rate - |t|), |t|), padding);
            if rate == 1 || |t| != rate - 1 then buffer == block else buffer[rate - 1] != block[rate - 1]
  {
    PadConstants();
    hide ByteOf;
    var buffer := PaddedBuffer(Core(s, t + ClearedBytes(rate - |t|), |t|), padding);
    if rate > 1 && |t| == rate - 1 {
      assert buffer[rate - 1] == LAST_PAD_BYTE;
      assert (t + PadBytes(|t|, rate, padding))[rate - 1] == Xor(FirstPadByte(padding), LAST_PAD_BYTE);
      assert Xor(FirstPadByte(padding), LAST_PAD_BYTE)[1];
    }
  }

  /** The generator reaches the FIPS 202 state exactly when the message does not end one byte short of
      a block (or the rate is a single byte). */
  lemma ConformsExactlyWhen(m: seq<Byte>, rate: nat, padding: Padding)
    requires 0 < rate <= STATE_BYTES
    ensures GeneratedState(m, rate, padding) == FinalState(m, rate, padding)
       <==> rate == 1 || |m| % rate != rate - 1
  {
    hide KeccakP, Absorb, KeccakPInverse, PaddedBuffer, PadBytes, Feed;
    var t := Tail(m, rate);
    var s := AbsorbAll(ZeroState(), m, rate);
    var c := Core(s, t + ClearedBytes(rate - |t|), |t|);
    var block := t + PadBytes(|t|, rate, padding);
    TailLength(m, rate);
    FeedAligned(ZeroState(), m, rate);
    AbsorbLast(ZeroState(), m, PadBytes(|t|, rate, padding), rate);
    PaddedBufferIs(s, t, rate, padding);
    if rate > 1 && |t| == rate - 1 {
      KeccakPIsBijection();
      if GeneratedState(m, rate, padding) == FinalState(m, rate, padding) {
        assert Absorb(s, PaddedBuffer(c, padding)) == KeccakPInverse(KeccakP(Absorb(s, PaddedBuffer(c, padding))));
        assert Absorb(s, block) == KeccakPInverse(KeccakP(Absorb(s, block)));
        AbsorbInjective(s, PaddedBuffer(c, padding), block, rate - 1);
      }
    }
  }

  /** Every digest the generator produces from a cleared state for such a message, whatever its length
      and however many blocks it takes to squeeze, is the FIPS 202 digest. */
  lemma DigestConforms(m: seq<Byte>, rate: nat, padding: Padding, n: nat)
    requires 0 < rate <= STATE_BYTES && (rate == 1 || |m| % rate != rate - 1)
    ensures SqueezeOut(GeneratedState(m, rate, padding), rate, n) == Digest(m, rate, padding, n)
  {
    hide GeneratedState, FinalState, SqueezeOut;
    ConformsExactlyWhen(m, rate, padding);
  }

  /** The state left behind by squeezing `n` bytes. */
  function Squeezed(s: State, rate: nat, n: nat): State
    requires 0 < rate
    decreases n
  {
    hide KeccakP;
    if n <= rate then s else Squeezed(KeccakP(s), rate, n - rate)
  }

  /** What is still to be squeezed, and the state it leaves, when `n` bytes are missing and `s` is used up. */
  function Rest(s: State, rate: nat, n: nat): seq<Byte>
    requires 0 < rate <= STATE_BYTES
  {
    if n == 0 then [] else SqueezeOut(KeccakP(s), rate, n)
  }

  function RestState(s: State, rate: nat, n: nat): State
    requires 0 < rate
  {
    if n == 0 then s else Squeezed(KeccakP(s), rate, n)
  }

  lemma SqueezeBlock(s: State, rate: nat, n: nat)
    requires 0 < rate <= STATE_BYTES
    ensures var k := Min(n, Min(rate, STATE_BYTES));
            && SqueezeOut(s, rate, n) == StateBytes(s, k) + Rest(s, rate, n - k)
            && Squeezed(s, rate, n) == RestState(s, rate, n - k)
  {
    hide KeccakP, StateBytes;
    if n <= rate {
      assert StateBytes(s, n) + [] == StateBytes(s, n);
    }
  }

  lemma NothingLeft(s: State, rate: nat)
    requires 0 < rate <= STATE_BYTES
    ensures Rest(s, rate, 0) == [] && RestState(s, rate, 0) == s
  {
  }

  lemma SomethingLeft(s: State, rate: nat, n: nat)
    requires 0 < rate <= STATE_BYTES && 0 < n
    ensures Rest(s, rate, n) == SqueezeOut(KeccakP(s), rate, n)
    ensures RestState(s, rate, n) == Squeezed(KeccakP(s), rate, n)
  {
    hide KeccakP, SqueezeOut, Squeezed;
  }

  datatype Reply = Bytes(bytes: seq<Byte>) | NotFinished

  class HashGenerator {
    const rate: nat
    const size: nat
    const padding: Padding
    const buffer: array<Byte>
    const state: array2<Lane>
    const hash: array<Byte>
    var pos: nat
    var isFinished: bool

    ghost predicate Valid()
      reads this
    {
      && 0 < rate <= STATE_BYTES
      && buffer.Length == rate && hash.Length == size && buffer != hash
      && state.Length0 == 5 && state.Length1 == 5
      && pos < rate
    }

    ghost function View(): (c: Core)
      requires Valid()
      reads this, buffer, state
      ensures Fits(c) && |c.buffer| == rate
    {
      Core(Lanes(state), buffer[..], pos)
    }

    constructor (rate: nat, size: nat, padding: Padding)
      requires 0 < rate <= STATE_BYTES
      ensures Valid() && fresh(buffer) && fresh(state) && fresh(hash)
      ensures this.rate == rate && this.size == size && this.padding == padding
      ensures View() == Fresh(rate) && !isFinished
    {
      this.rate, this.size, this.padding := rate, size, padding;
      buffer := new Byte[rate](i => Zeros(8));
      state := new Lane[5, 5]((x, y) => Zeros(64));
      hash := new Byte[size](i => Zeros(8));
      pos, isFinished := 0, false;
      new;
      LanesAre(state, ZeroState());
      assert buffer[..] == ClearedBytes(rate);
    }

    method ClearBuffer()
      requires Valid()
      modifies this`pos, buffer
      ensures Valid() && buffer[..] == ClearedBytes(rate) && pos == 0
    {
      for i := 0 to rate
        invariant forall j :: 0 <= j < i ==> buffer[j] == Zeros(8)
      {
        buffer[i] := Zeros(8);
      }
      pos := 0;
    }

    method ClearState()
      requires Valid()
      modifies state
      ensures Lanes(state) == ZeroState()
    {
      for x := 0 to 5
        invariant forall i, j :: 0 <= i < x && 0 <= j < 5 ==> state[i, j] == Zeros(64)
      {
        for y := 0 to 5
          invariant forall i, j :: 0 <= i < 5 && 0 <= j < 5 && (i < x || (i == x && j < y)) ==> state[i, j] == Zeros(64)
        {
          state[x, y] := Zeros(64);
        }
      }
      LanesAre(state, ZeroState());
    }

    method Clear()
      requires Valid()
      modifies this`pos, this`isFinished, buffer, state
      ensures Valid() && View() == Fresh(rate) && !isFinished
    {
      hide ZeroState;
      ClearState();
      ClearBuffer();
      isFinished := false;
    }

    method FeedOne(b: Byte)
      requires Valid()
      modifies this`pos, buffer, state
      ensures Valid() && View() == FeedByte(old(View()), b)
    {
      hide KeccakP, Absorb, Lanes;
      ghost var c := View();
      buffer[pos] := b;
      assert buffer[..] == c.buffer[c.pos := b];
      pos := pos + 1;
      if pos == rate {
        assert buffer[..Min(rate, STATE_BYTES)] == buffer[..];
        AbsorbInto(buffer, state);
        ApplyKeccakP(state);
        pos := 0;
        ClearBuffer();
      }
    }

    method Process(input: seq<Byte>)
      requires Valid()
      modifies this`pos, buffer, state
      ensures Valid() && View() == Feed(old(View()), input)
    {
      hide FeedByte, Lanes;
      for i := 0 to |input|
        invariant Valid() && View() == Feed(old(View()), input[..i])
      {
        assert input[..i + 1][..i] == input[..i];
        FeedOne(input[i]);
      }
      assert input[..|input|] == input;
    }

    method AddPadding()
      requires Valid()
      modifies buffer
      ensures buffer[..] == PaddedBuffer(old(View()), padding)
    {
      hide ByteOf, Lanes;
      var distance := (0 - pos) % SIZE_T;
      var q := (rate - distance) % SIZE_T;
      assert q == (rate + pos) % SIZE_T;
      if padding == SHA {
        if q == 1 {
          buffer[pos] := ByteOf(0x86);
        } else {
          buffer[pos] := ByteOf(0x06);
          buffer[rate - 1] := ByteOf(0x80);
        }
      } else if padding == SHAKE {
        if q == 1 {
          buffer[pos] := ByteOf(0x9F);
        } else {
          buffer[pos] := ByteOf(0x1F);
          buffer[rate - 1] := ByteOf(0x80);
        }
      }
    }

    method SqueezeAll()
      requires Valid()
      modifies state, hash
      ensures hash[..] == SqueezeOut(old(Lanes(state)), rate, size)
      ensures Lanes(state) == Squeezed(old(Lanes(state)), rate, size)
    {
      hide KeccakP, Lanes, StateBytes, SqueezeOut, Squeezed, Rest, RestState;
      ghost var s := Lanes(state);
      SqueezeBlock(s, rate, size);
      var first := SqueezeInto(state, hash, 0, rate);
      assert hash[0..first] == hash[..first];
      while first != hash.Length
        invariant 0 <= first <= hash.Length
        invariant hash[..first] + Rest(Lanes(state), rate, size - first) == SqueezeOut(s, rate, size)
        invariant RestState(Lanes(state), rate, size - first) == Squeezed(s, rate, size)
        decreases hash.Length - first
      {
        first := SqueezeNext(first);
      }
      NothingLeft(Lanes(state), rate);
      assert hash[..first] == hash[..] && hash[..] + [] == hash[..];
    }

    method SqueezeNext(first: nat) returns (next: nat)
      requires Valid() && first < size
      modifies state, hash
      ensures first < next <= size
      ensures hash[..next] + Rest(Lanes(state), rate, size - next)
           == old(hash[..first] + Rest(Lanes(state), rate, size - first))
      ensures RestState(Lanes(state), rate, size - next) == old(RestState(Lanes(state), rate, size - first))
    {
      hide KeccakP, Lanes, StateBytes, SqueezeOut, Squeezed, Rest, RestState;
      ghost var done, s, t := hash[..first], Lanes(state), KeccakP(Lanes(state));
      SomethingLeft(s, rate, size - first);
      SqueezeBlock(t, rate, size - first);
      ApplyKeccakP(state);
      next := SqueezeInto(state, hash, first, rate);
      assert hash[..next] == done + StateBytes(t, next - first);
      assert done + (StateBytes(t, next - first) + Rest(t, rate, size - next))
          == hash[..next] + Rest(t, rate, size - next);
    }

    method Finish()
      requires Valid()
      modifies this`isFinished, buffer, state, hash
      ensures Valid() && isFinished
      ensures hash[..] == SqueezeOut(Finished(old(View()), padding), rate, size)
      ensures buffer[..] == PaddedBuffer(old(View()), padding)
      ensures Lanes(state) == Squeezed(Finished(old(View()), padding), rate, size)
    {
      hide KeccakP, Absorb, Lanes, PaddedBuffer, SqueezeOut, Squeezed;
      AddPadding();
      assert buffer[..Min(rate, STATE_BYTES)] == buffer[..];
      AbsorbInto(buffer, state);
      ApplyKeccakP(state);
      SqueezeAll();
      isFinished := true;
    }

    method GetHashBytes() returns (r: Reply)
      requires Valid()
      ensures r == if isFinished then Bytes(hash[..]) else NotFinished
    {
      if !isFinished {
        return NotFinished;
      }
      r := Bytes(hash[..]);
    }

    /** The call operator: hash a message, on top of what was processed before, and be ready for the
        next one. */
    method Hash(input: seq<Byte>) returns (digest: seq<Byte>)
      requires Valid()
      modifies this, buffer, state, hash
      ensures Valid() && View() == Fresh(rate) && !isFinished
      ensures digest == SqueezeOut(Finished(Feed(old(View()), input), padding), rate, size)
      ensures old(View()) == Fresh(rate) && (rate == 1 || |input| % rate != rate - 1) ==>
                digest == Digest(input, rate, padding, size)
    {
      hide Lanes, Feed, Finished, SqueezeOut, Digest;
      Process(input);
      Finish();
      digest := hash[..];
      if rate == 1 || |input| % rate != rate - 1 {
        DigestConforms(input, rate, padding, size);
      }
      Clear();
    }
  }

  /** get_sha3_generator<512>() as the miner uses it: a new generator, called once. */
  method Sha3_512(input: seq<Byte>) returns (digest: seq<Byte>)
    ensures digest == SqueezeOut(GeneratedState(input, 72, SHA), 72, 64)
    ensures |input| % 72 != 71 ==> digest == Digest(input, 72, SHA, 64)
  {
    hide Digest, Lanes, Fresh, SqueezeOut, Finished, Feed;
    var generator := new HashGenerator(72, 64, SHA);
    digest := generator.Hash(input);
  }
}
