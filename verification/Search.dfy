/** The nonce search of libethash-cpu/CPUMiner.cpp. */
module Search {
  import opened Arith
  import opened Numerals
  import opened Codec
  import Bits
  import opened Sponge
  import HashGenerators

  const BLOCKSIZE: nat := 30

  type Hash256 = h: seq<byte> | |h| == 32 witness seq(32, i => 0)

  /** A work package as search() sees it.  RandomY is a function from a seed to a hash. */
  datatype Job = Job(header: seq<Bits.Byte>, boundary: Hash256, randomY: seq<Bits.Byte> -> Hash256)

  // ----- the boundary test

  /** be::uint64(h.word64s[i]) */
  function Word(h: Hash256, i: nat): nat
    requires i < 4
  {
    Val(256, h[8 * i..8 * i + 8])
  }

  lemma WordSplit(h: Hash256, i: nat)
    requires i < 4
    ensures Val(256, h)
         == (Val(256, h[..8 * i]) * Pow(256, 8) + Word(h, i)) * Pow(256, 24 - 8 * i) + Val(256, h[8 * i + 8..])
  {
    assert h == h[..8 * i + 8] + h[8 * i + 8..];
    ValConcat(256, h[..8 * i + 8], h[8 * i + 8..]);
    assert h[..8 * i + 8] == h[..8 * i] + h[8 * i..8 * i + 8];
    ValConcat(256, h[..8 * i], h[8 * i..8 * i + 8]);
  }

  lemma FirstWordDecides(a: Hash256, b: Hash256, i: nat)
    requires i < 4 && a[..8 * i] == b[..8 * i] && Word(a, i) < Word(b, i)
    ensures Val(256, a) < Val(256, b)
  {
    hide Word, Val, Pow;
    WordSplit(a, i);
    WordSplit(b, i);
    ValBound(256, a[8 * i + 8..]);
    Carry(Val(256, a[..8 * i]), Pow(256, 8), Word(a, i), Word(b, i), Pow(256, 24 - 8 * i),
          Val(256, a[8 * i + 8..]), Val(256, b[8 * i + 8..]));
  }

  lemma SameWord(a: Hash256, b: Hash256, i: nat)
    requires i < 4 && a[..8 * i] == b[..8 * i] && Word(a, i) == Word(b, i)
    ensures a[..8 * (i + 1)] == b[..8 * (i + 1)]
  {
    ValInjective(256, a[8 * i..8 * i + 8], b[8 * i..8 * i + 8]);
    assert a[..8 * (i + 1)] == a[..8 * i] + a[8 * i..8 * i + 8];
    assert b[..8 * (i + 1)] == b[..8 * i] + b[8 * i..8 * i + 8];
  }

  /** Word by word, is_less_or_equal compares the two hashes as 256-bit big-endian numbers. */
  method IsLessOrEqual(a: Hash256, b: Hash256) returns (r: bool)
    ensures r <==> Val(256, a) <= Val(256, b)
  {
    hide Word, Val;
    for i := 0 to 4
      invariant a[..8 * i] == b[..8 * i]
    {
      if Word(a, i) > Word(b, i) {
        FirstWordDecides(b, a, i);
        return false;
      }
      if Word(a, i) < Word(b, i) {
        FirstWordDecides(a, b, i);
        return true;
      }
      SameWord(a, b, i);
    }
    assert a[..8 * 4] == a && b[..8 * 4] == b;
    return true;
  }

  // ----- hits

  function LittleEndianByte(n: nat, i: nat): Bits.Byte
    requires i < 8
  {
    Bits.BitsOf(n, 64)[8 * i..8 * i + 8]
  }

  /** The eight bytes of le::uint64(n). */
  function LittleEndian(n: nat): (r: seq<Bits.Byte>)
    ensures |r| == 8
  {
    seq(8, i requires 0 <= i < 8 => LittleEndianByte(n, i))
  }

  /** What is hashed for a nonce: the header and then the nonce. */
  function HashInput(job: Job, n: nat): seq<Bits.Byte> {
    job.header + LittleEndian(n)
  }

  function FinalHash(job: Job, n: nat): Hash256 {
    job.randomY(Digest(HashInput(job, n), 72, SHA, 64))
  }

  // ----- the bytes of a nonce

  /** The number written by bytes, lowest first. */
  ghost function BytesNumber(bytes: seq<Bits.Byte>): nat {
    if bytes == [] then 0 else Bits.Number(bytes[0]) + 256 * BytesNumber(bytes[1..])
  }

  lemma {:induction false} BytesAndBits(bytes: seq<Bits.Byte>)
    ensures BytesNumber(bytes) == Bits.Number(BitString(bytes))
  {
    hide Bits.Number;
    if bytes == [] {
      NoNumber();
    } else {
      BytesAndBits(bytes[1..]);
      Bits.NumberConcat(bytes[0], BitString(bytes[1..]));
      assert Pow(2, 8) == 256;
    }
  }

  lemma NoNumber()
    ensures Bits.Number([]) == 0
  {
  }

  lemma {:induction false} BitStringAt(bytes: seq<Bits.Byte>, i: nat)
    requires i < 8 * |bytes|
    ensures BitString(bytes)[i] == bytes[i / 8][i % 8]
  {
    if i >= 8 {
      BitStringAt(bytes[1..], i - 8);
    }
  }

  /** Bit i % 8 of byte i / 8 of the nonce is its bit i, and the eight bytes read lowest first are the nonce. */
  lemma NonceBytes(n: nat, i: nat)
    requires i < 64
    ensures Pow(2, i) > 0 && (LittleEndian(n)[i / 8][i % 8] <==> n / Pow(2, i) % 2 == 1)
    ensures n < NONCES ==> BytesNumber(LittleEndian(n)) == n
  {
    hide Pow, Bits.BitsOf, Bits.Number, BitString;
    Bits.BitsOfAt(n, 64, i);
    NonceBits(n, i);
    forall j | 0 <= j < 64 ensures BitString(LittleEndian(n))[j] == Bits.BitsOf(n, 64)[j] {
      BitStringAt(LittleEndian(n), j);
      NonceBits(n, j);
    }
    assert BitString(LittleEndian(n)) == Bits.BitsOf(n, 64);
    BytesAndBits(LittleEndian(n));
    Bits.NumberOfBits(n, 64);
    TwoToThe64();
    if n < NONCES { ModUnique(n, NONCES, 0, n); }
  }

  lemma NonceBits(n: nat, i: nat)
    requires i < 64
    ensures LittleEndian(n)[i / 8][i % 8] == Bits.BitsOf(n, 64)[i]
  {
    hide Bits.BitsOf;
    var k := i / 8;
    assert LittleEndian(n)[k] == LittleEndianByte(n, k);
    assert 8 * k + i % 8 == i;
  }

  lemma TwoToThe64()
    ensures Pow(2, 64) == NONCES
  {
    assert Pow(2, 4) == 16;
    PowAdd(2, 4, 4);
    PowAdd(2, 8, 8);
    PowAdd(2, 16, 16);
    PowAdd(2, 32, 32);
  }

  /** The input of the hash, byte by byte. */
  lemma HashInputIs(job: Job, n: nat, k: nat)
    requires |job.header| == 32 && k < 40
    ensures |HashInput(job, n)| == 40
    ensures HashInput(job, n)[k] == if k < 32 then job.header[k] else LittleEndian(n)[k - 32]
  {
    hide LittleEndian;
  }

  // ----- the nonces to submit

  predicate Hit(job: Job, n: nat) {
    Val(256, FinalHash(job, n)) <= Val(256, job.boundary)
  }

  /** The hits in [lo, hi), in order. */
  function Hits(job: Job, lo: nat, hi: nat): seq<nat> {
    if hi <= lo then [] else Hits(job, lo, hi - 1) + (if Hit(job, hi - 1) then [hi - 1] else [])
  }

  /** The hits are the nonces of the range whose hash, read as a big-endian number, is at most the boundary. */
  lemma HitsAre(job: Job, lo: nat, hi: nat)
    ensures forall n :: n in Hits(job, lo, hi) <==>
              lo <= n < hi && Val(256, FinalHash(job, n)) <= Val(256, job.boundary)
    ensures forall i, j :: 0 <= i < j < |Hits(job, lo, hi)| ==> Hits(job, lo, hi)[i] < Hits(job, lo, hi)[j]
  {
    hide Val, FinalHash, Hits;
    HitsHold(job, lo, hi);
  }

  lemma {:induction false} HitsHold(job: Job, lo: nat, hi: nat)
    ensures forall n :: n in Hits(job, lo, hi) <==> lo <= n < hi && Hit(job, n)
    ensures forall i, j :: 0 <= i < j < |Hits(job, lo, hi)| ==> Hits(job, lo, hi)[i] < Hits(job, lo, hi)[j]
  {
    hide Hit;
    if lo < hi {
      HitsHold(job, lo, hi - 1);
      var h, t := Hits(job, lo, hi - 1), if Hit(job, hi - 1) then [hi - 1] else [];
      assert Hits(job, lo, hi) == h + t;
      forall n
        ensures n in h + t <==> n in h || n in t
      {
      }
      forall i, j | 0 <= i < j < |h + t|
        ensures (h + t)[i] < (h + t)[j]
      {
        assert h[i] in h;
      }
    }
  }

  lemma {:induction false} HitsJoin(job: Job, lo: nat, mid: nat, hi: nat)
    requires lo <= mid <= hi
    ensures Hits(job, lo, mid) + Hits(job, mid, hi) == Hits(job, lo, hi)
    decreases hi
  {
    hide Hit;
    if mid < hi {
      HitsJoin(job, lo, mid, hi - 1);
    }
  }

  // ----- search()

  /** The batch that starts at `nonce`.  When the end of the batch would wrap, the loop runs no time. */
  function BatchHits(job: Job, nonce: nat): seq<nat> {
    if nonce + BLOCKSIZE < NONCES then Hits(job, nonce, nonce + BLOCKSIZE) else []
  }

  function BatchStart(start: nat, i: nat): nat {
    (start + BLOCKSIZE * i) % NONCES
  }

  /** What is submitted in the first `batches` batches. */
  function Submitted(job: Job, start: nat, batches: nat): seq<nat> {
    if batches == 0 then []
    else Submitted(job, start, batches - 1) + BatchHits(job, BatchStart(start, batches - 1))
  }

  method HashNonce(job: Job, n: nat) returns (h: Hash256)
    requires |job.header| == 32
    ensures h == FinalHash(job, n)
  {
    hide Digest, LittleEndian, HashInput;
    assert |HashInput(job, n)| == 40 by { HashInputIs(job, n, 0); }
    var input := HashInput(job, n);
    var seed := HashGenerators.Sha3_512(input);
    h := job.randomY(seed);
  }

  method SearchBatch(job: Job, nonce: nat) returns (found: seq<nat>)
    requires |job.header| == 32 && nonce < NONCES
    ensures found == BatchHits(job, nonce)
  {
    hide Val, FinalHash;
    found := [];
    var end := (nonce + BLOCKSIZE) % NONCES;
    var n := nonce;
    while n < end
      invariant nonce <= n && (if nonce < end then n <= end else n == nonce)
      invariant found == Hits(job, nonce, n)
    {
      var h := HashNonce(job, n);
      var ok := IsLessOrEqual(h, job.boundary);
      if ok {
        found := found + [n];
      }
      n := n + 1;
    }
  }

  lemma NextBatch(start: nat, i: nat)
    ensures BatchStart(start, i) < NONCES
    ensures BatchStart(start, i + 1) == (BatchStart(start, i) + BLOCKSIZE) % NONCES
    ensures start < NONCES ==> BatchStart(start, 0) == start
  {
    var x := start + BLOCKSIZE * i;
    assert start + BLOCKSIZE * (i + 1) == x + BLOCKSIZE;
    ModAdd(x, BLOCKSIZE, NONCES);
  }

  /** search(): batch after batch until new work or a stop request is seen after `batches` of them.
      Without a RandomY machine it returns at once. */
  method SearchNonces(job: Job, start: nat, batches: nat, hasMachine: bool) returns (submitted: seq<nat>)
    requires |job.header| == 32 && start < NONCES
    ensures submitted == if hasMachine then Submitted(job, start, batches) else []
  {
    hide BatchHits, BatchStart;
    submitted := [];
    if !hasMachine {
      return;
    }
    var nonce := start;
    NextBatch(start, 0);
    for i := 0 to batches
      invariant nonce == BatchStart(start, i) && nonce < NONCES
      invariant submitted == Submitted(job, start, i)
    {
      var found := SearchBatch(job, nonce);
      submitted := submitted + found;
      NextBatch(start, i);
      nonce := (nonce + BLOCKSIZE) % NONCES;
    }
  }

  /** Sound and complete: while the nonces do not run out, exactly the hits in [start, start + 30 j) are
      submitted, each once and in order. */
  lemma {:induction false} SearchIsComplete(job: Job, start: nat, j: nat)
    requires start + BLOCKSIZE * j < NONCES
    ensures Submitted(job, start, j) == Hits(job, start, start + BLOCKSIZE * j)
  {
    hide Hit;
    if j > 0 {
      SearchIsComplete(job, start, j - 1);
      HitsJoin(job, start, start + BLOCKSIZE * (j - 1), start + BLOCKSIZE * j);
    }
  }

  lemma {:induction false} AllHits(job: Job, lo: nat, hi: nat)
    requires lo <= hi && forall n: nat :: Hit(job, n)
    ensures |Hits(job, lo, hi)| == hi - lo
    decreases hi
  {
    if lo < hi {
      AllHits(job, lo, hi - 1);
    }
  }

  lemma {:induction false} SubmittedBound(job: Job, start: nat, j: nat)
    requires forall n: nat :: Hit(job, n)
    ensures |Submitted(job, start, j)| <= BLOCKSIZE * j
    ensures |Submitted(job, start, j)| == BLOCKSIZE * j ==>
              forall i :: 0 <= i < j ==> BatchStart(start, i) + BLOCKSIZE < NONCES
  {
    hide Hit;
    if j > 0 {
      SubmittedBound(job, start, j - 1);
      var nonce := BatchStart(start, j - 1);
      AllHits(job, nonce, nonce + BLOCKSIZE);
    }
  }

  /** And no further: where every nonce is a hit, none of the 30 j is missed exactly when the batches
      stay below 2^64.  The batch that would reach 2^64 is skipped as a whole. */
  lemma CompleteExactlyWhen(job: Job, start: nat, j: nat)
    requires start < NONCES && forall n: nat :: Hit(job, n)
    ensures |Submitted(job, start, j)| == BLOCKSIZE * j <==> start + BLOCKSIZE * j < NONCES
  {
    hide Hit, Submitted;
    if start + BLOCKSIZE * j < NONCES {
      SearchIsComplete(job, start, j);
      AllHits(job, start, start + BLOCKSIZE * j);
    } else {
      SubmittedBound(job, start, j);
      WrappingBatch(start, j);
    }
  }

  lemma {:induction false} WrappingBatch(start: nat, j: nat)
    requires start < NONCES <= start + BLOCKSIZE * j
    ensures exists i :: 0 <= i < j && BatchStart(start, i) + BLOCKSIZE >= NONCES
  {
    if start + BLOCKSIZE * (j - 1) >= NONCES {
      WrappingBatch(start, j - 1);
    } else {
      assert BatchStart(start, j - 1) == start + BLOCKSIZE * (j - 1);
    }
  }

  // ----- the end of the nonces, for every job

  /** The batches that are complete before 2^64. */
  ghost function WholeBatches(start: nat): (k: nat)
    requires start < NONCES
    ensures start + BLOCKSIZE * k < NONCES <= start + BLOCKSIZE * (k + 1)
  {
    (NONCES - 1 - start) / BLOCKSIZE
  }

  /** For every job, the hits from the end of the whole batches to 2^64, and only those, are lost on the way to
      2^64: the batch that would reach it submits nothing.  So none is missed exactly when there are none there. */
  lemma LostAtTheEnd(job: Job, start: nat)
    requires start < NONCES
    ensures var k := WholeBatches(start);
            var end := start + BLOCKSIZE * k;
            && Submitted(job, start, k + 1) == Hits(job, start, end)
            && Hits(job, start, NONCES) == Submitted(job, start, k + 1) + Hits(job, end, NONCES)
            && (Submitted(job, start, k + 1) == Hits(job, start, NONCES) <==> Hits(job, end, NONCES) == [])
  {
    hide Hits, BatchStart, WholeBatches;
    var k := WholeBatches(start);
    var end := start + BLOCKSIZE * k;
    SearchIsComplete(job, start, k);
    assert BatchStart(start, k) == end by { SmallBatch(start, k); }
    assert BatchHits(job, end) == [];
    HitsJoin(job, start, end, NONCES);
    var a, b := Hits(job, start, end), Hits(job, end, NONCES);
    assert a + [] == a;
    assert |a + b| == |a| + |b|;
  }

  lemma SmallBatch(start: nat, k: nat)
    requires start + BLOCKSIZE * k < NONCES
    ensures BatchStart(start, k) == start + BLOCKSIZE * k
  {
  }

  /** The search then goes on from the other end of the nonces. */
  lemma {:induction false} GoesOnAfterTheEnd(job: Job, start: nat, j: nat)
    requires start < NONCES
    ensures var k := WholeBatches(start);
            var again := start + BLOCKSIZE * (k + 1) - NONCES;
            Submitted(job, start, k + 1 + j) == Submitted(job, start, k + 1) + Submitted(job, again, j)
    decreases j
  {
    hide BatchHits, BatchStart, WholeBatches;
    var k := WholeBatches(start);
    var again := start + BLOCKSIZE * (k + 1) - NONCES;
    var first := Submitted(job, start, k + 1);
    if j == 0 {
      assert first + [] == first;
    } else {
      GoesOnAfterTheEnd(job, start, j - 1);
      SameBatch(start, k + 1, j - 1, again);
      var last := BatchHits(job, BatchStart(again, j - 1));
      assert first + (Submitted(job, again, j - 1) + last) == first + Submitted(job, again, j - 1) + last;
    }
  }

  lemma SameBatch(start: nat, k: nat, i: nat, again: nat)
    requires start + BLOCKSIZE * k == again + NONCES
    ensures BatchStart(start, k + i) == BatchStart(again, i)
  {
    var x := again + BLOCKSIZE * i;
    assert start + BLOCKSIZE * (k + i) == NONCES + x;
    DivMod(x, NONCES);
    ModUnique(NONCES + x, NONCES, 1 + x / NONCES, x % NONCES);
  }
}
