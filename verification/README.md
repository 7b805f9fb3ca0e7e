# CoreMiner, verified

CoreMiner is a pool miner: it receives jobs from a mining pool, searches nonces whose hash is below a boundary,
and submits what it finds. This project models the parts of it where a mistake is easy to make and hard to see,
and proves what they keep. `dafny verify dfyconfig.toml` checks all of it.

**SHA-3** (`Bits`, `Keccak`, `KeccakRounds`, `KeccakSteps`, `KeccakBijection`, `RoundConstants`, `Sponge`, `BlockIO`,
`HashGenerator`). `Keccak` states section 3.2 of FIPS 202 and `Sponge` its sections 4 and 5; the in-place loops of
the hasher are proved equal to them, the permutation is proved a bijection, and the streaming hasher is proved to
give the standard's digest for every way of splitting the input. It does not do so for every message: the amount of
free space in the buffer is computed with the operands of `std::distance` exchanged, so the branch for a single free
byte is not taken. `ConformsExactlyWhen` gives the exact condition. The miner hashes 40 bytes with a rate of 72
and meets it. Words are sequences of bits, least significant first.

**Two threads** (`Worker`, `JobHandoff`). The start, stop and kill handshake on one atomic, and the handoff of a job
to a searching miner, as state machines whose steps interleave in every order. A start issued while the worker is
stopping is lost; `StartTakesEffectExactlyWhen` says when, `StartCanBeLost` gives the run.

**Numbers** (`Arith`, `Numerals`, `Codec`, `FixedHash`, `Search`, `NonceSegments`, `Wallet`). Hexadecimal and
big-endian conversions, fixed-size hashes, the nonce search with its boundary test, the division of the nonce range
among miners with the suffix that is submitted, and the mod-97 check of the wallet address.

**Pool session** (`Autodetect`, `Transmit`, `Framing`, `Pleas`, `Failover`, `Farm`, `Accounting`). Detection of the
stratum flavour, the send queue, line framing, response times, the rotation through the pool list, pausing, and share
accounting. All these handlers run on the one io thread (coreminer/main.cpp:83), so each handler is one step; the
network is an arbitrary sequence of events. Each class is proved against a function on values, and the properties
of every run are proved about that function.

Where code and documentation differ, the model follows the code:

- libpoolprotocols/stratum/XcbStratumClient.cpp:1900-1904 stores the time of the plea just taken, not of the oldest
  one left, so a delay can be overstated (`DelayCanOverstate`).
- libdevcore/CommonData.cpp:39-67 returns no bytes when it meets a bad character and is not asked to throw.
- libpoolprotocols/PoolManager.cpp:397-405 does not count the drop of the last pool as a switch
  (`SwitchesAreCounted`).
- libpoolprotocols/stratum/XcbStratumClient.cpp:225-364 can leave a stratum mode without an attempt in it
  (`TwoRejectionsSkipAMode`, `RefusedAddressSkipsTheRest`); `ModeCanBeSkippedExactlyWhen` gives the condition.
- libpoolprotocols/PoolManager.cpp:24-35 restarts the miners of a paused farm without pausing them
  (`PauseIsOnAllExactlyWhen`).
- mine.sh:214-246 cannot see three transpositions of a digit and a letter (`SwapIsDetected`).

## Model

| member | source | states |
|---|---|---|
| `Bits.ShiftsRotate` | libethash-cpu/picosha3.h:44-54 | the two shifts joined by "or" that the code writes are a rotation, for every shift in 1..63 |
| `KeccakSteps.ApplyTheta` | libethash-cpu/picosha3.h:26-42 | the in-place loops compute theta of the old state |
| `KeccakSteps.Effects` | libethash-cpu/picosha3.h:31-36 | the five written-out words D are the theta effect of the column parities |
| `KeccakSteps.WalkCoversLanes` | libethash-cpu/picosha3.h:44-54 | the walk meets each lane other than (0, 0) in exactly one of its 24 iterations, with the offset of Table 2 of FIPS 202, always in 1..63 |
| `KeccakSteps.ApplyRho` | libethash-cpu/picosha3.h:44-54 | the in-place walk rotates every lane of the old state by its offset |
| `KeccakSteps.ApplyPi` | libethash-cpu/picosha3.h:56-63 | the in-place loops compute pi of the old state |
| `KeccakSteps.ApplyChi` | libethash-cpu/picosha3.h:65-73 | the in-place loops compute chi of the old state |
| `KeccakSteps.ApplyIota` | libethash-cpu/picosha3.h:75-77 | one lane of the old state is changed, by the constant of the round |
| `KeccakSteps.ApplyKeccakP` | libethash-cpu/picosha3.h:79-87 | the loop of 24 rounds computes the permutation of the old state |
| `RoundConstants.ConstantsAreGenerated` | libethash-cpu/picosha3.h:13-21 | the numbers of the table are what the linear feedback shift register of section 3.2.5 of FIPS 202 generates |
| `RoundConstants.IotaFlips` | libethash-cpu/picosha3.h:75-77 | bit z of lane (0, 0) is flipped if and only if z is 2^j - 1 for a j up to 6 with rc(7 round + j) of section 3.2.5 of FIPS 202 set; no other lane changes |
| `Bits.BitsOfAt` | libethash-cpu/picosha3.h:13-21 | bit i of the word of a number is the number halved i times, modulo 2 |
| `KeccakRounds.RoundIsStep` | libethash-cpu/picosha3.h:79-87 | lane (x, y) after a round, in terms of parities, rotated lanes and the constant of the round |
| `KeccakRounds.KeccakPFollowsTable` | libethash-cpu/picosha3.h:79-87 | one such step for each of the 24 constants of the table, in order |
| `KeccakRounds.SecondRound` | libethash-cpu/picosha3.h:79-87 | two rounds of the zero state leave 0x8083 in lane (0, 0) |
| `KeccakBijection.MixSquare` | libethash-cpu/picosha3.h:26-42 | multiplying the column parities twice by a theta polynomial is multiplying by the polynomial with doubled exponents |
| `KeccakBijection.UnparityLeft` | libethash-cpu/picosha3.h:26-42 | squaring six times and one last factor undo theta on column parities |
| `KeccakBijection.ThetaLeft` | libethash-cpu/picosha3.h:26-42 | theta has a left inverse on all states |
| `KeccakBijection.ThetaRight` | libethash-cpu/picosha3.h:26-42 | the same map is a right inverse of theta |
| `KeccakBijection.RhoBothWays` | libethash-cpu/picosha3.h:44-54 | rho is undone, on both sides, by rotating back |
| `KeccakBijection.PiBothWays` | libethash-cpu/picosha3.h:56-63 | pi is undone, on both sides, by its index map reversed |
| `KeccakBijection.ChiBothWays` | libethash-cpu/picosha3.h:65-73 | chi has a two-sided inverse on every row |
| `KeccakBijection.KeccakPIsBijection` | libethash-cpu/picosha3.h:79-87 | the permutation has a two-sided inverse on all 1600-bit states |
| `BlockIO.Next` | libethash-cpu/picosha3.h:89-103 | the odometer (x, y, i) steps to the place of the next byte of the state |
| `BlockIO.AbsorbInto` | libethash-cpu/picosha3.h:105-115 | the loop adds a block of any length to the first bytes of the state and changes nothing else |
| `BlockIO.SqueezeInto` | libethash-cpu/picosha3.h:122-137 | the loop writes the first bytes of the state, as many as fit the rate and the output, and changes nothing else |
| `Sponge.AbsorbByteAt` | libethash-cpu/picosha3.h:105-115 | absorbing changes byte k of the state by byte k of the block |
| `Sponge.AbsorbInjective` | libethash-cpu/picosha3.h:105-115 | two blocks that absorb to the same state agree on every byte that both have and the state has room for |
| `Sponge.PaddingIsPad101` | libethash-cpu/picosha3.h:299-318 | the bytes of section 5.1 of FIPS 202 are the suffix bits followed by pad10*1, for every rate and message length |
| `Sponge.AbsorbLast` | libethash-cpu/picosha3.h:195-201 | absorbing a padded message is absorbing its whole blocks and then the last one |
| `Sponge.AbsorbsBlockByBlock` | libethash-cpu/picosha3.h:179-193 | absorbing takes the whole blocks in order with a permutation after each, and leaves the tail |
| `Sponge.SqueezesBlockByBlock` | libethash-cpu/picosha3.h:320-328 | byte i of the output is byte i modulo the rate of the state permuted once for each whole block before it |
| `HashGenerators.HashGenerator.constructor` | libethash-cpu/picosha3.h:169-171 | a new generator is fresh |
| `HashGenerators.HashGenerator.Clear` | libethash-cpu/picosha3.h:173-177 | after clear() the generator is fresh, whatever it held |
| `HashGenerators.HashGenerator.FeedOne` | libethash-cpu/picosha3.h:185-192 | one byte goes to the buffer; a full buffer is absorbed, permuted and emptied |
| `HashGenerators.HashGenerator.Process` | libethash-cpu/picosha3.h:179-193 | process() feeds all bytes in order |
| `HashGenerators.FeedSplit` | libethash-cpu/picosha3.h:179-193 | every way to split a message into process() calls leads to the same state |
| `HashGenerators.FeedAligned` | libethash-cpu/picosha3.h:179-193 | after any message the state is the sponge of its whole blocks and the buffer holds the rest |
| `HashGenerators.HashGenerator.AddPadding` | libethash-cpu/picosha3.h:299-318 | the buffer after padding, with the remaining space computed as the code computes it |
| `HashGenerators.ConformsExactlyWhen` | libethash-cpu/picosha3.h:299-318 | the state after padding is that of FIPS 202 if and only if the rate is 1 or the message length is not one less than a multiple of the rate |
| `HashGenerators.DigestConforms` | libethash-cpu/picosha3.h:195-201 | then the digest, of any length and over any number of squeeze blocks, is that of FIPS 202 |
| `HashGenerators.HashGenerator.SqueezeAll` | libethash-cpu/picosha3.h:320-328 | the loop fills the hash with the sponge output, permuting between blocks |
| `HashGenerators.HashGenerator.Finish` | libethash-cpu/picosha3.h:195-201 | pads, absorbs, permutes and squeezes |
| `HashGenerators.HashGenerator.GetHashBytes` | libethash-cpu/picosha3.h:203-209 | throws exactly when not finished, and otherwise copies the hash |
| `HashGenerators.HashGenerator.Hash` | libethash-cpu/picosha3.h:216-229 | from a fresh generator the output is the digest of the input, and the generator is fresh again for the next call |
| `HashGenerators.Sha3_512` | libethash-cpu/picosha3.h:337-346 | SHA3-512 of section 6.1 of FIPS 202 on every input whose length is not 71 modulo 72 |
| `Worker.InvAlong` | libdevcore/Worker.cpp:31-126 | the invariant of every interleaving of the thread with the callers |
| `Worker.StoppedMeansOutside` | libdevcore/Worker.cpp:47-79 | Stopped is visible only outside workLoop(), and the branch that restores Starting is never taken |
| `Worker.QuietAfterStop` | libdevcore/Worker.cpp:98-113 | after stopWorking() returns, workLoop() is not entered before the next start or destruction |
| `Worker.OneEntryPerStart` | libdevcore/Worker.cpp:31-86 | every start that took effect led to exactly one entry into workLoop() |
| `Worker.StartTakesEffectExactlyWhen` | libdevcore/Worker.cpp:35-40 | a call on an existing thread leads, by its return, to one entry into workLoop() if it found Stopped and to none otherwise |
| `Worker.StartCanBeLost` | libdevcore/Worker.cpp:35-40 | a run in which a start issued while stopping is lost |
| `Worker.KilledForGood` | libdevcore/Worker.cpp:115-126 | after Killing is stored the thread never enters workLoop() again and is gone after at most five moves |
| `Worker.DyingThreadCanMove` | libdevcore/Worker.cpp:47-79 | until it is gone the dying thread always has a move |
| `Worker.WaitsEnd` | libdevcore/Worker.cpp:83-113 | while a start or a stop waits, every change of state brings its end nearer, and the thread has a move |
| `JobHandoff.NoLostSwitch` | libethash-cpu/CPUMiner.cpp:257-261 | in every interleaving a miner on a job other than the stored one has the flag set for it, or a setter between its store and its kick |
| `JobHandoff.CommitsToStoredJob` | libethash-cpu/CPUMiner.cpp:353-403 | a further batch is begun only on the stored job, unless a setter is between store and kick |
| `JobHandoff.AtMostOneStaleBatch` | libethash-cpu/CPUMiner.cpp:353-403 | once the kicks are done at most the batch already begun is finished on a stale job |
| `JobHandoff.NoBreakWithoutKick` | libethash-cpu/CPUMiner.cpp:362-366 | a search is broken off for new work at most once for each kick |
| `JobHandoff.PicksUpStoredJob` | libethash-cpu/CPUMiner.cpp:409-461 | the job picked up next is the stored one |
| `Codec.ToHex` | libdevcore/CommonData.h:63-72 | the first byte in the given width, two lower-case digits for every other byte, and the prefix if asked for |
| `Codec.DefaultWidth` | libdevcore/CommonData.h:63-72 | in the default width that is two digits for each byte |
| `Codec.FromHex` | libdevcore/CommonData.cpp:39-67 | a valid numeral of odd or even length decodes to bytes of the same value; any bad character throws or gives the empty result |
| `Codec.RoundTrip` | libdevcore/CommonData.cpp:39-67 | fromHex undoes toHex, with and without prefix, for every byte sequence |
| `Codec.HexOfIsHex` | libdevcore/CommonData.h:63-72 | the hexadecimal text of bytes has the value of the bytes |
| `Codec.DigitsOfEitherCase` | libdevcore/CommonData.cpp:25-37 | the characters that are digits, their values, and that case does not matter |
| `Codec.HexOfIsLower` | libdevcore/CommonData.h:63-72 | only lower-case digits are written |
| `Codec.WideKeepsValue` | libdevcore/CommonData.h:63-72 | the width of the first byte adds zeros in front and neither cuts digits off nor changes the value |
| `Codec.ToBigEndian` | libdevcore/CommonData.h:105-115 | fills the buffer with the value modulo 256^N |
| `Codec.FromBigEndian` | libdevcore/CommonData.h:121-129 | the value of the bytes modulo the width of the result type |
| `Codec.BytesRequiredBounds` | libdevcore/CommonData.h:152-155 | the count of the loop is the least number of bytes that hold the value |
| `Codec.ToCompactBigEndian` | libdevcore/CommonData.h:147-159 | bytes of exactly the value, no more than the value or the stated minimum needs |
| `Codec.CompactIsMinimal` | libdevcore/CommonData.h:147-159 | no shorter byte sequence has the same value |
| `FixedHashes.AlignmentOnNumbers` | libdevcore/FixedHash.h:93-109 | what left and right alignment do to the number: cropped or multiplied by a power of 256 |
| `FixedHashes.MismatchIsZero` | libdevcore/FixedHash.h:93-109 | without alignment a byte string of another length gives the zero hash |
| `FixedHashes.FixedHash.FromNumber` | libdevcore/FixedHash.h:87-91 | the hash of a number reads back as the number modulo 256^N |
| `FixedHashes.FixedHash.FromBytes` | libdevcore/FixedHash.h:93-109 | the aligned construction, for inputs shorter and longer than the hash |
| `FixedHashes.FixedHash.ToNumber` | libdevcore/FixedHash.h:141 | the value of the bytes read big-endian |
| `FixedHashes.FixedHash.Increment` | libdevcore/FixedHash.h:197-204 | adds one modulo 256^N |
| `FixedHashes.FixedHash.Less` | libdevcore/FixedHash.h:152-162 | numeric order |
| `FixedHashes.FixedHash.Equals` | libdevcore/FixedHash.h:150 | equality of the bytes is equality of the numbers |
| `FixedHashes.FixedHash.EqualsWords` | libdevcore/FixedHash.h:261-269 | equality of the four words of a 32-byte hash is equality of the bytes and of the numbers |
| `FixedHashes.FixedHash.LessOrEqual` | libdevcore/FixedHash.h:164 | numeric order |
| `Search.IsLessOrEqual` | libethash-cpu/CPUMiner.cpp:276-286 | the word-wise comparison agrees with numeric order of the 256-bit values |
| `Search.HitsAre` | libethash-cpu/CPUMiner.cpp:353-403 | the hits of a range are exactly its nonces whose hash is at most the boundary, in increasing order |
| `Search.HashNonce` | libethash-cpu/CPUMiner.cpp:375-387 | the hash of a nonce: header and little-endian nonce through SHA3-512 and then RandomY |
| `Search.NonceBytes` | libethash-cpu/CPUMiner.cpp:375-379 | bit i modulo 8 of byte i / 8 of the hashed nonce is its bit i, and the eight bytes read lowest first are the nonce |
| `Search.HashInputIs` | libethash-cpu/CPUMiner.cpp:375-379 | the input is the 32 bytes of the header and then the eight of the nonce |
| `Search.SearchBatch` | libethash-cpu/CPUMiner.cpp:372-396 | a batch of thirty submits the hits of its range; one whose end wraps submits nothing |
| `Search.SearchNonces` | libethash-cpu/CPUMiner.cpp:353-403 | search() submits what `Submitted` says, batch after batch |
| `Search.SearchIsComplete` | libethash-cpu/CPUMiner.cpp:353-403 | below 2^64, exactly the hits in [start, start + 30 j) are submitted, each once and in order |
| `Search.CompleteExactlyWhen` | libethash-cpu/CPUMiner.cpp:353-403 | where every nonce is a hit, none is missed if and only if start + 30 j is below 2^64 |
| `Search.LostAtTheEnd` | libethash-cpu/CPUMiner.cpp:372-398 | for every job, on the way to 2^64 exactly the hits after the last whole batch are lost, so none is missed if and only if there are none there |
| `Search.GoesOnAfterTheEnd` | libethash-cpu/CPUMiner.cpp:372-398 | the search goes on, with the batches it would have from the wrapped nonce |
| `NonceSegments.ProcessExtranonce` | libpoolprotocols/stratum/XcbStratumClient.cpp:714-720 | size and start nonce for every text, with what stoull makes of it |
| `NonceSegments.HexIsParsed` | libpoolprotocols/stratum/XcbStratumClient.cpp:718-719 | the start nonce of a hexadecimal extranonce of up to sixteen digits is its value moved to the front of the sixteen digits |
| `NonceSegments.LongHexIsCut` | libpoolprotocols/stratum/XcbStratumClient.cpp:718-719 | a longer one is cut off after sixteen digits |
| `NonceSegments.PrefixIsParsed` | libpoolprotocols/stratum/XcbStratumClient.cpp:718-719 | a leading 0x takes two places and changes nothing else |
| `NonceSegments.StoullSkipsSpace` | libpoolprotocols/stratum/XcbStratumClient.cpp:719 | spaces in front are skipped |
| `NonceSegments.StoullStops` | libpoolprotocols/stratum/XcbStratumClient.cpp:719 | the number ends at the first character that is no digit |
| `NonceSegments.StoullFails` | libpoolprotocols/stratum/XcbStratumClient.cpp:719 | a text that does not begin with a digit is an error |
| `NonceSegments.StoullNegates` | libpoolprotocols/stratum/XcbStratumClient.cpp:719 | a minus sign negates in 64-bit arithmetic |
| `NonceSegments.Width` | libethcore/Farm.cpp:109-121 | the width is the largest whose segments fit the residual range |
| `NonceSegments.SetWork` | libethcore/Farm.cpp:109-128 | the start nonce of each miner, in 64-bit arithmetic, with and without an extranonce |
| `NonceSegments.SegmentsFollow` | libethcore/Farm.cpp:109-128 | from any start, the start nonces follow one another by the width of a segment modulo 2^64 |
| `NonceSegments.SegmentsPartition` | libethcore/Farm.cpp:109-128 | for every extranonce and miner count that fits, the segments do not wrap, do not overlap, lie in the residual range and cover more than half of it |
| `NonceSegments.SuffixCompletesNonce` | libpoolprotocols/stratum/XcbStratumClient.cpp:1635-1649 | lower-cased extranonce and submitted suffix are the full nonce; the extranonce as sent and the suffix are if and only if it was sent in lower case |
| `NonceSegments.HexStringValue` | libpoolprotocols/stratum/XcbStratumClient.cpp:1635-1649 | the text of a nonce has its value |
| `NonceSegments.AssignSegments` | libethcore/Farm.cpp:109-128 | from the text of the extranonce to the miners: segments in order without overlap, more than half of the range, and each nonce in them spelled out by extranonce and suffix |
| `Autodetect.StratumClient.constructor` | libpoolprotocols/stratum/XcbStratumClient.cpp:125-171 | a client with its addresses resolved and its first attempt posted |
| `Autodetect.StratumClient.DisconnectFinalize` | libpoolprotocols/stratum/XcbStratumClient.cpp:225-289 | steps the mode down and posts an attempt, or marks the URI, or reports the disconnection |
| `Autodetect.StratumClient.StartConnect` | libpoolprotocols/stratum/XcbStratumClient.cpp:318-364 | starts an attempt on the first address left, or gives up when there is none |
| `Autodetect.StratumClient.ConnectHandler` | libpoolprotocols/stratum/XcbStratumClient.cpp:477-600 | drops a failed address, or fixes the mode to try and, where the scheme names it, confirms it |
| `Autodetect.StratumClient.Disconnect` | libpoolprotocols/stratum/XcbStratumClient.cpp:173-223 | a second disconnect has no effect; the first finalises at once or after the TLS shutdown |
| `Autodetect.InvAlong` | libpoolprotocols/stratum/XcbStratumClient.cpp:225-364 | the invariant of every sequence of network events, among them that an address is left while connecting |
| `Autodetect.BoundedAttempts` | libpoolprotocols/stratum/XcbStratumClient.cpp:318-364 | one connect() runs start_connect at most once per address and four times more |
| `Autodetect.OneWay` | libpoolprotocols/PoolURI.h:76-88 | the mode never rises once it has left 999; confirmation with its mode, the mark and the report are never taken back |
| `Autodetect.LoginConfirms` | libpoolprotocols/stratum/XcbStratumClient.cpp:776-1018 | an accepted login confirms the mode in use for good, and a later finalize reports without another attempt |
| `Autodetect.CondemnedIsReported` | libpoolprotocols/stratum/XcbStratumClient.cpp:541-575 | after a failed handshake, a refused worker or a refusal in a confirmed mode the URI stays marked and the next finalize reports |
| `Autodetect.LossPostsDisconnect` | libpoolprotocols/stratum/XcbStratumClient.cpp:431-463 | every other loss posts one disconnect, and only a timeout takes an address away |
| `Autodetect.NamedFlavourIsConfirmed` | libpoolprotocols/stratum/XcbStratumClient.cpp:578-600 | a scheme that names the flavour has it confirmed by the first connection |
| `Autodetect.ShutdownOnlyDelays` | libpoolprotocols/stratum/XcbStratumClient.cpp:173-223 | a TLS shutdown followed by its finalize is a disconnect without one |
| `Autodetect.OpenUntilDisconnect` | libpoolprotocols/stratum/XcbStratumClient.cpp:507-510 | a completed connection counts as open, and the pool as responding, until the client disconnects |
| `Autodetect.HandlersBalance` | libpoolprotocols/stratum/XcbStratumClient.cpp:225-364 | in every run the handlers still to come are the ones posted less the ones that have run |
| `Autodetect.ModeDescendsByOne` | libpoolprotocols/stratum/XcbStratumClient.cpp:252-264 | where the scheme leaves the flavour open, the mode variable goes down one at a time from 3; nothing is said of attempts |
| `Autodetect.ModeCanBeSkippedExactlyWhen` | libpoolprotocols/stratum/XcbStratumClient.cpp:225-364 | a mode come to by detection can be left with no connection completed in it, although every attempt completes and nobody else disconnects, if and only if no address is left, a disconnect or a finalize is outstanding, or an earlier connection counts as open |
| `Autodetect.ReadySessionsTryAll` | libpoolprotocols/stratum/XcbStratumClient.cpp:225-364 | a session with none of these after each step down has tried every mode it has left, and the last one too when the pool is given up |
| `Autodetect.TwoRejectionsSkipAMode` | libpoolprotocols/stratum/XcbStratumClient.cpp:1712-1751 | a run in which two error lines of one read leave mode 2 with no attempt in it |
| `Autodetect.RefusedAddressSkipsTheRest` | libpoolprotocols/stratum/XcbStratumClient.cpp:356-363 | a run in which one refused connection gives a pool up with no connection made in modes 2, 1 and 0 |
| `Autodetect.ExhaustedIsUnrecoverable` | libpoolprotocols/stratum/XcbStratumClient.cpp:252-275 | a pool that answered and whose flavour was not found is marked unrecoverable when its disconnection is reported |
| `Failover.PoolManager.RemoveConnection` | libpoolprotocols/PoolManager.cpp:276-295 | the three errors, in their order, and the new list and index |
| `Failover.PoolManager.SetActiveConnection` | libpoolprotocols/PoolManager.cpp:297-331 | the two errors, in their order, and the new state |
| `Failover.PoolManager.RotateConnect` | libpoolprotocols/PoolManager.cpp:379-473 | the state after a rotation, and the exception on an empty list |
| `Failover.PoolManager.FailoverTimerElapsed` | libpoolprotocols/PoolManager.cpp:486-502 | back to the first pool, if running and not there already |
| `Failover.SelectionIsFollowed` | libpoolprotocols/PoolManager.cpp:297-331 | selecting a pool makes that pool active, leaves the list alone and leaves the manager busy if and only if the pool changed; which error comes when |
| `Failover.FailoverReturnsToFirst` | libpoolprotocols/PoolManager.cpp:486-502 | the timer of a running manager makes the first pool active with all its retries |
| `Failover.RemovedExactlyWhen` | libpoolprotocols/PoolManager.cpp:276-295 | a pool is removed if and only if the manager is not busy and it is a pool other than the active one |
| `Failover.AddedLast` | libpoolprotocols/PoolManager.cpp:260-268 | a pool is added behind the others |
| `Failover.BusyUntilConnected` | libpoolprotocols/PoolManager.cpp:276-331 | from the start and from every disconnection to the next connection no pool can be removed or selected |
| `Failover.MarkedIsDropped` | libpoolprotocols/PoolManager.cpp:388-396 | a mark is put on one pool, and the rotation that comes to it drops it |
| `Failover.RetriesAreUsed` | libpoolprotocols/PoolManager.cpp:397-437 | a pool that has not failed for good is tried as often as its retries allow before the manager turns away |
| `Failover.ConnectionRenewsRetries` | libpoolprotocols/PoolManager.cpp:61-122 | a connection frees the manager and gives the active pool all its retries again |
| `Failover.IndexStaysInBounds` | libpoolprotocols/PoolManager.cpp:260-331 | in every history the active index is in the list, or the list is empty and it is 0 |
| `Failover.RemoveKeepsActive` | libpoolprotocols/PoolManager.cpp:276-295 | removing a pool takes out that one only and leaves the active pool active |
| `Failover.SwitchesAreCounted` | libpoolprotocols/PoolManager.cpp:379-414 | a step raises the switch counter, by one, if and only if it leaves the active pool, with two exceptions, the drop of the last pool for its retries and the start; the pool it turns to has all its retries |
| `Failover.AttemptsAreBounded` | libpoolprotocols/PoolManager.cpp:397-437 | in every history the counter of attempts stays within the retries |
| `Failover.TriesInARowAreBounded` | libpoolprotocols/PoolManager.cpp:397-437 | in the order of events of the source, no pool is tried by more rotations in a row, with no connection in between, than its retries allow |
| `Failover.RotationIsCloser` | libpoolprotocols/PoolManager.cpp:379-473 | each rotation brings every other entry strictly nearer, whatever URIs are marked in between |
| `Failover.OthersAreTried` | libpoolprotocols/PoolManager.cpp:379-473 | every other entry is tried within its distance, unless the program ends first |
| `Failover.EveryEntryIsTried` | libpoolprotocols/PoolManager.cpp:379-473 | every entry is tried within the retries times the number of entries, unless the program ends or the next rotation drops it |
| `Failover.ExitIsReached` | libpoolprotocols/PoolManager.cpp:415-473 | a list with an exit entry ends the program within its distance |
| `Failover.ExitWithinBudget` | libpoolprotocols/PoolManager.cpp:415-473 | from any other entry, that is within the retries for each of the other entries and one rotation more |
| `Failover.LastPoolStops` | libpoolprotocols/PoolManager.cpp:397-405 | a single pool is given up after its remaining retries and one rotation |
| `Failover.UndetectedPoolIsDropped` | libpoolprotocols/PoolManager.cpp:388-396 | the pool whose flavour was not found is out of the list after the next rotation, and only it |
| `Transmit.Sender.Send` | libpoolprotocols/stratum/XcbStratumClient.cpp:1791-1799 | queues the line and starts a write exactly when none is pending |
| `Transmit.Sender.SendSocketData` | libpoolprotocols/stratum/XcbStratumClient.cpp:1801-1835 | the loop moves the whole queue, in order, into one write; on a disconnected socket everything is dropped |
| `Transmit.Sender.OnSendSocketDataCompleted` | libpoolprotocols/stratum/XcbStratumClient.cpp:1837-1870 | a completion starts the next write or goes idle; a failure drops what is queued |
| `Transmit.SenderKeeps` | libpoolprotocols/stratum/XcbStratumClient.cpp:1791-1870 | in every run at most one write, pending exactly then, lines waiting only then, and until lines are dropped the bytes on the wire, in flight and waiting are the lines sent, in order |
| `Transmit.HealthyNeverDrops` | libpoolprotocols/stratum/XcbStratumClient.cpp:1791-1870 | while the client stays connected and its writes succeed nothing is dropped, and the lines recorded are the lines sent |
| `Transmit.TwoWritesDeliver` | libpoolprotocols/stratum/XcbStratumClient.cpp:1837-1870 | two successful completions put every line sent so far on the wire |
| `Framing.Receiver.OnRecv` | libpoolprotocols/stratum/XcbStratumClient.cpp:1700-1751 | the loop hands on the trimmed non-empty lines of the buffer and keeps the rest |
| `Framing.SplitAppend` | libpoolprotocols/stratum/XcbStratumClient.cpp:1700-1751 | reading in two parts is reading at once |
| `Framing.ChunkingDoesNotMatter` | libpoolprotocols/stratum/XcbStratumClient.cpp:1700-1751 | any two ways to cut a stream give the same lines and the same rest |
| `Framing.ReceiveAll` | libpoolprotocols/stratum/XcbStratumClient.cpp:1700-1751 | a receiver fed with any list of reads hands on the lines of their concatenation |
| `Framing.LinesArrive` | libpoolprotocols/stratum/XcbStratumClient.cpp:1801-1835 | lines that are clean and were written by the sender are read back as sent |
| `Framing.PaddedLineArrives` | libpoolprotocols/stratum/XcbStratumClient.cpp:1713-1719 | spaces around a line are taken off, and a line of nothing but spaces is not handed on |
| `Pleas.PleaQueue.EnqueueResponsePlea` | libpoolprotocols/stratum/XcbStratumClient.cpp:1879-1890 | the new queue, counter and stored time |
| `Pleas.PleaQueue.DequeueResponsePlea` | libpoolprotocols/stratum/XcbStratumClient.cpp:1892-1914 | the new state and the delay returned, zero when nothing was outstanding |
| `Pleas.PleaQueue.ClearResponsePleas` | libpoolprotocols/stratum/XcbStratumClient.cpp:1916-1926 | the emptied queue |
| `Pleas.PleasAreCounted` | libpoolprotocols/stratum/XcbStratumClient.cpp:1879-1926 | in every run the counter is the length of the queue and the stored time is at or before every queued one |
| `Pleas.ClearForgets` | libpoolprotocols/stratum/XcbStratumClient.cpp:1916-1926 | a clear leaves nothing outstanding and the next request is measured exactly |
| `Pleas.DelayCoversOldest` | libpoolprotocols/stratum/XcbStratumClient.cpp:1892-1914 | the delay is never less than the age of the oldest plea, and is measured from it if and only if none was dequeued since the queue was empty or the last one dequeued has the same time |
| `Pleas.DelayCanOverstate` | libpoolprotocols/stratum/XcbStratumClient.cpp:1900-1904 | a run in which a delay of one second is reported as eleven |
| `Farms.Miner.SetWork` | libethcore/Miner.cpp:36-54 | a paused miner gets void work |
| `Farms.Miner.Pause` | libethcore/Miner.cpp:56-62 | sets the flag and voids the work |
| `Farms.Miner.Resume` | libethcore/Miner.cpp:106-116 | clears one flag and nothing else |
| `Farms.Farm.Start` | libethcore/Farm.cpp:133-174 | new idle miners when there are none; nothing when mining |
| `Farms.Farm.Stop` | libethcore/Farm.cpp:179-199 | drops the miners when mining |
| `Farms.Farm.SetWork` | libethcore/Farm.cpp:123-127 | gives the work to every miner |
| `Farms.Farm.Pause` | libethcore/Farm.cpp:204-211 | pauses every miner for the farm |
| `Farms.Farm.Resume` | libethcore/Farm.cpp:224-232 | clears the farm flag of every miner and no other flag |
| `Farms.OnConnected` | libpoolprotocols/PoolManager.cpp:100-109 | starts, resumes or leaves the farm |
| `Farms.OnDisconnected` | libpoolprotocols/PoolManager.cpp:135-153 | stops or pauses the farm |
| `Farms.OnMinerRestart` | libpoolprotocols/PoolManager.cpp:24-35 | the farm stopped and started |
| `Farms.PauseIsCoherent` | libethcore/Miner.cpp:36-68 | in every run a paused miner holds no live header, a miner paused by the farm means a paused farm, and no miners without mining |
| `Farms.ConnectedResumes` | libpoolprotocols/PoolManager.cpp:100-109 | after a connection no miner is paused by the farm; the farm flag is left set if and only if it was set on a farm that had to be started |
| `Farms.NoWorkWhileDisconnected` | libpoolprotocols/PoolManager.cpp:124-154 | after a disconnection that is no stop, no miner holds live work until work is received |
| `Farms.WorkReaches` | libethcore/Farm.cpp:123-127 | work received goes to exactly the miners that are not paused |
| `Farms.LiveWorkIsLatest` | libpoolprotocols/PoolManager.cpp:156-205 | in every run no miner is on a job other than the one received last |
| `Farms.PauseLasts` | libethcore/Miner.cpp:106-116 | a pause for a reason of its own outlasts everything the farm does, short of dropping the miner |
| `Farms.ResumeTakesOff` | libethcore/Miner.cpp:106-116 | resuming a miner takes that reason off it and changes no other reason, no work and no other miner |
| `Farms.PausePutsOn` | libethcore/Miner.cpp:56-62 | pausing a miner puts that reason on it, voids its work and changes no other reason and no other miner |
| `Farms.ResumedTakesWork` | libethcore/Miner.cpp:36-54 | a miner resumed from its only pause takes the next job |
| `Farms.StartsAllDevices` | libethcore/Farm.cpp:133-199 | a start or restart gives one idle miner per device, a stop leaves none |
| `Farms.ConnectionKeepsMiners` | libpoolprotocols/PoolManager.cpp:100-109 | a connection to a mining farm lifts the farm pause and leaves everything else alone |
| `Farms.DisconnectionPausesAll` | libpoolprotocols/PoolManager.cpp:124-154 | a disconnection that is no stop pauses every miner for the farm and for nothing else |
| `Farms.VoidWorkIsIgnored` | libpoolprotocols/PoolManager.cpp:156-160 | a job with a void header is ignored |
| `Farms.FlaggedStep` | libpoolprotocols/PoolManager.cpp:24-35 | a pause that is on all miners stays so if and only if the handler does not start miners in a paused farm |
| `Farms.PauseIsOnAllExactlyWhen` | libpoolprotocols/PoolManager.cpp:61-154 | over every run a paused farm means that all its miners are paused by it, as long as no handler starts miners in a paused farm and no longer |
| `Farms.RestartForgetsPause` | libpoolprotocols/PoolManager.cpp:24-35 | a restart while disconnected leaves the farm paused and its miners not |
| `Accounting.Telemetry.AccountSolution` | libethcore/Farm.cpp:269-303 | the farm counter is raised even when the access to the miner throws |
| `Accounting.AccountingBalances` | libethcore/Farm.cpp:269-303 | accounting keeps every farm counter the sum over the miners if and only if the miner has an entry |
| `Accounting.SharesAreConserved` | libpoolprotocols/stratum/XcbStratumClient.cpp:1116-1179 | over every run with restarts and reconnections each farm counter is the sum over the miners modulo 2^32, and every id admitted names an entry |
| `Accounting.MinersCountTheirOutcomes` | libpoolprotocols/stratum/XcbStratumClient.cpp:1116-1179 | each counter of a miner is the number of outcomes of its kind reported for that miner, modulo 2^32 |
| `Accounting.ResponseCountsExactlyWhen` | libpoolprotocols/stratum/XcbStratumClient.cpp:1116-1179 | a response for a miner raises the counters of its kind by one if a solution of that miner or a later one was submitted in the session, and is ignored otherwise |
| `Accounting.RestartAddsEntries` | libethcore/Farm.cpp:133-199 | a farm stopped and started again has one new empty entry per device |
| `Accounting.StartedOnce` | libethcore/Farm.cpp:133-138 | a farm that was not stopped is given no new entries |
| `Wallet.AlphabetPos` | mine.sh:221-228 | digits below ten, letters from 10 to 35 |
| `Wallet.PositionIsIndex` | mine.sh:221-228 | the position is the place among the digits and the capital letters |
| `Wallet.SamePosition` | mine.sh:221-228 | two characters have the same position if and only if they are equal, case aside |
| `Wallet.ValidateWallet` | mine.sh:214-246 | accepts exactly when the rearranged address, written in decimal, is 1 modulo 97 |
| `Wallet.MiddleDecides` | mine.sh:214-246 | of two addresses that differ in one part of equal length only, the difference of the parts decides whether the residues agree |
| `Wallet.SubstitutionIsDetected` | mine.sh:214-246 | two accepted addresses do not differ in a single character, case aside, of the same class |
| `Wallet.BlindPairIsAccepted` | mine.sh:214-246 | an accepted address whose neighbours 1 and B are swapped and that is accepted again |
| `Wallet.SwapIsDetected` | mine.sh:214-246 | swapping neighbours in the body of an accepted address is accepted if and only if they are equal, case aside, or one of the pairs 1-B, 2-M, 3-X |

## Left out

- Sockets, DNS, TLS and timers: they appear only as events (connected, failed, bytes arrived, write done, disconnected).
- RandomY, ethash epoch contexts and CPU affinity: the RandomY hash is a function carried by the job.
- JSON, the messages of each stratum flavour and the choice of the job to dispatch from one transmission: events start from decoded messages.
- URI parsing, the API server, telemetry text, logging and the command line: user interface.
- The getwork and simulation clients: they repeat the queueing of the stratum client or stand in for it.
- Hash rate averaging, difficulty and boundary conversions in floating point.
- Selecting a pool by its text (libpoolprotocols/PoolManager.cpp:333-342): a search that ends in the modelled selection by index.
- Relaxed memory order: the two-thread models are sequentially consistent.
- Worker.WaitsEnd: says that the thread always has a move and that each change of state brings the end nearer, not that the scheduler gives it a turn or that `workLoop()` returns.
- Worker.KilledForGood: takes for granted that `workLoop()` returns when it should stop.
- NonceSegments.SetWork: the floating point `log2` of the source is the exact integer logarithm; miner counts for which it is negative or undefined (none, or more miners than nonces) are excluded.
- NonceSegments.AssignSegments: for hexadecimal extranonces without 0x; `Stoull` covers every other text, but the segments and suffixes that follow from it are not stated.
- HashGenerators.HashGenerator.Finish: rates from 1 to 200 bytes, those of a 1600-bit state; words are little-endian, as the source needs them to be.
- Search.SearchNonces: the number of batches until new work or a stop request is seen is a parameter; the flag itself is in `JobHandoff`.
- Autodetect.StratumClient.ConnectHandler: the login messages sent and the pending-state timeout (XcbStratumClient.cpp:398-424) are not modelled; the timeout only closes the socket, which is a failed attempt here.
- Autodetect.InvAlong: runs end with the report of the disconnection; handlers still posted then, such as a start_connect, run on in the source, on a client whose URI has been taken away and which the next rotation replaces.
- Autodetect.BoundedAttempts: a timeout that pops an address is an event only while the client is neither connecting nor disconnecting, as isConnected() demands, and only while an address is left, since popping an empty queue is undefined behaviour in the source; a host that does not resolve reports its disconnection before the first attempt.
- Failover.TriesInARowAreBounded: a failover timer whose handler is already queued when the connection drops is not covered.
- Failover.SwitchesAreCounted: the switch counter is unbounded here and 32 bits wide in the source; entries are distinct objects.
- Transmit.SenderKeeps: covers one connected period; the resets of disconnect_finalize() and of a new connection are not modelled.
- Pleas.DelayCoversOldest: the steady clock does not go back.
- Farms.Farm.SetWork: the epoch context, shuffling and start nonces (in `NonceSegments`) are left out, and a work package is its header.
- Farms.Farm.Start: starting and kicking the worker threads is in `Worker` and `JobHandoff`.
- Accounting.SharesAreConserved: a solution carries the index of a miner of a farm that was started, and time stamps are left out.
- Wallet.ValidateWallet: addresses of letters and digits with two check digits; what `bc` makes of other input is left out.
