# Verified models of the node's in-memory logic

Dafny models of seven pieces of logic that keep large invariants over mutable state or that refine a
simple mathematical object, with proofs of what they promise. `dafny verify dfyconfig.toml` checks all
of it.

- **Layered coin cache** (`CoinsSpec.dfy`, `CoinsExact.dfy`, `CoinsCache.dfy`). A write-back cache with
  DIRTY and FRESH flags and a circular list of flagged entries, over a database or another cache.
  `CoinsSpec` models a stack of caches as a value and shows that every run agrees with plain maps;
  `CoinsExact` says what each operation leaves in the cache itself. `CoinsCache` is the mutable cache
  with its linked list; each method has the effect that `CoinsSpec` says. The list links name entries
  by outpoint instead of by pointer.
- **Parallel check queue** (`CheckQueue.dfy`, `CheckQueueExact.dfy`). The master/worker protocol as
  atomic critical sections of any number of threads, with spurious wake-ups. The notification that
  follows `Add` may wake any one worker, whether it waits or not, or all of them.
- **Block tree and active chain** (`Chain.dfy`, with `SkipHeights.dfy` for the heights that skip pointers
  lead to and the length of searches, and `Bits.dfy` for their bit trick).
- **Multi-limb integers and compact targets** (`Limbs.dfy`, `Shifts.dfy`, `Uint.dfy`, `Compact.dfy`,
  `Target.dfy`). `Uint` is the in-place limb arithmetic for every width; `Compact` the number format as
  mathematics; `Target` the limb code of both directions of the format and of the block proof.
- **Base58 and Bech32** (`Positional.dfy`, `Base58.dfy`, `Base58Exact.dfy`, `Bech32.dfy`,
  `Bech32Text.dfy`, `Bech32Field.dfy`, `Bech32Errors.dfy`, `Bech32Prefix.dfy`, `Bech32Vectors.dfy`).
  `Bech32Field` and `Bech32Errors` prove the distance of the checksum: multiplication in GF(1024) is a
  linear map on ten bits, and the powers that are needed are given by their columns. `Bech32Prefix` is
  about the human readable part and the exact set of accepted texts, `Bech32Vectors` about the values
  that BIP 173 and BIP 350 print.
- **Compact block reconstruction** (`CompactBlocks.dfy`).
- **Address manager** (`AddrMan*.dfy`). `AddrManState` holds the state, the consistency conditions and
  the elementary changes; `AddrManSpec` and `AddrManOps` the operations as functions; `AddrManEffects`
  what each of them does, exactly; `AddrManRuns` the theorems over runs; `AddrManPending` which
  collisions stay pending; `AddrManEvictions` who leaves the tried table and who is forgotten;
  `AddrManAttempts` how failures are counted; `AddrMan` the mutable object with its bucket arrays;
  `AddrManCheck` the consistency check itself; `AddrManDisk`, `AddrManReading`, `AddrManRoundTrip`,
  `AddrManRebucket` and `AddrManRestore` the file format, read back under the same or another mapping
  of networks;
  `AddrManExamples` the states at which an expectation fails.

`Collections.dfy` holds what several modules share.

Hashes, clock readings, random outcomes, the block check and the facts about networks are parameters.
Ids, counts and times are unbounded integers; limbs, compact codes, checksum words and the 16-bit
indexes of compact blocks have their real widths. Bit vectors are used for Bech32 only.

Six results may surprise a reader of the code. Each has an exact condition and a failing input.

- `AddCoin` without permission to overwrite spoils the cache if the coin is unspent further down and not
  cached (`CoinsSpec.AddCoinSafeExactly`, `CoinsSpec.AddSpoils`).
- Where it throws instead, it has already taken the coin that is in the way off the memory total
  (`CoinsSpec.ThrowExactly`, `CoinsSpec.ThrowSpoils`).
- The mempool count of a partially downloaded block is never reset, so it is right exactly for an object
  whose count was zero (`CompactBlocks.MempoolCount`, `CompactBlocks.CountsTooMany`).
- An address evicted from the tried table is known right after its eviction, but a later eviction in the
  same resolution may take its only cell (`AddrManEvictions.EvictedStaysKnown`,
  `AddrManExamples.EvictedIsForgotten`). A condition on the state before the resolution rules this out
  (`AddrManEvictions.EvictedAllKnown`).
- Failed attempts that are dated before the last success are counted each time
  (`AddrManAttempts.AttemptTwice`, `AddrManExamples.CountedTwice`).
- `CheckAddrman` compares only the counters that exist, so it accepts a state in which a network with
  entries has no counter while another counter is idle (`AddrManRoundTrip.CheckedExactly`,
  `AddrManExamples.CheckMissesCounter`). No run reaches such a state (`AddrManRoundTrip.RunsPass`).

## Model

| member | source | states |
|---|---|---|
| `CoinsSpec.FetchCorrect` | src/coins.cpp:48-64 | pulling a coin into the top cache changes no layer's view and keeps the relation between layers; afterwards a coin of the view is cached |
| `CoinsSpec.GetCoinCorrect` | src/coins.cpp:66-70 | the answer is the plain map's answer for the top view and never a spent coin; no view changes |
| `CoinsSpec.AddCoinCorrect` | src/coins.cpp:72-111 | adding a spendable coin changes the top view in exactly that outpoint and no other view; unspendable coins change nothing; the relation between layers (a FRESH coin is absent below) survives |
| `CoinsSpec.AddCoinExactCondition` | src/coins.cpp:79-106 | when a non-overwriting add does not throw, the stack stays valid exactly if the coin is not unspent below or the cached entry is DIRTY |
| `CoinsSpec.AddCoinSafeExactly` | src/coins.cpp:72-111 | a non-overwriting add neither throws nor spoils the stack exactly if the view has no unspent coin there |
| `CoinsSpec.AddSpoils` | src/coins.cpp:72-111 | the failing input: a coin that is in the database only is added without permission to overwrite, and the stack is invalid |
| `CoinsSpec.ThrowExactly` | src/coins.cpp:79-85 | a throwing add changes no view, but leaves the memory total right exactly if the coin in the way counts for nothing |
| `CoinsSpec.ThrowSpoils` | src/coins.cpp:79-85 | the failing input: a cached coin that uses memory is added once more, and the memory total is wrong |
| `CoinsSpec.SpendCoinCorrect` | src/coins.cpp:130-152 | the coin that the view had is handed out (nothing, or the null coin, if it had none) and the top view loses exactly that outpoint, whether the entry is dropped (FRESH) or kept as a spent DIRTY one |
| `CoinsSpec.UncacheCorrect` | src/coins.cpp:274-287 | forgetting an entry changes no view; an entry that stays is a modified one |
| `CoinsSpec.WriteEntryCorrect` | src/coins.cpp:186-244 | one entry of a child written to its parent: if FRESH was used rightly there is no exception, and the parent's view takes the entry's value |
| `CoinsSpec.BatchWriteCorrect` | src/coins.cpp:183-248 | writing all flagged entries, in list order, overwrites the parent's view with them and keeps every layer below valid |
| `CoinsSpec.FlaggedSuffice` | src/coins.h:108-187 | overwriting the parent with only the flagged entries already gives the child's whole view |
| `CoinsSpec.FlushCorrect` | src/coins.cpp:250-259 | a flush gives the layer below the cache's own view, changes no other view, leaves the cache empty and never throws |
| `CoinsSpec.SyncCorrect` | src/coins.cpp:261-272 | a sync does the same to the views; it leaves no flagged entry and keeps exactly the unspent entries cached |
| `CoinsSpec.WriteAtCorrect` | src/coins.cpp:250-272 | a flush or sync at any depth of a stack of caches keeps the whole stack valid and changes only the view below that layer |
| `CoinsSpec.StepCorrect` | src/coins.cpp:48-287 | every operation does to the views what the plain-map operation does and answers the same |
| `CoinsSpec.RunCorrect` | src/coins.cpp:48-287 | for a stack of any depth, every run of get, add, spend, uncache and flush or sync at any layer never throws, gives the answers of plain maps and ends with their views |
| `CoinsSpec.PutSane` | src/coins.cpp:315-346 | writing an entry without losing its flags keeps the sanity conditions: only allowed flag combinations, the list holds exactly the flagged entries, the memory count is the true sum |
| `CoinsSpec.DropSane` | src/coins.cpp:315-346 | erasing an entry keeps the same conditions |
| `CoinsSpec.UsageCovers` | src/coins.cpp:315-346 | in a sane cache no coin uses more than the memory total, so taking it off does not go below zero |
| `CoinsCache.CoinsViewCache.TakeOff` | src/coins.cpp:79-81 | the subtraction itself: a total that was right does not go below zero |
| `CoinsCache.CoinsViewCache.AddFlags` | src/coins.h:132-144 | flagging an entry appends it to the circular list unless it is there already; all links stay mutual |
| `CoinsCache.CoinsViewCache.SetClean` | src/coins.h:180-187 | clearing the flags takes the entry out of the list and joins its neighbours |
| `CoinsCache.CoinsViewCache.FetchCoin` | src/coins.cpp:48-64 | has the effect of the specification's fetch on this cache and the caches below, and reports whether there is an entry |
| `CoinsCache.CoinsViewCache.GetCoin` | src/coins.cpp:66-70 | answers as the specification and has its effect |
| `CoinsCache.CoinsViewCache.AddCoin` | src/coins.cpp:72-111 | throws in exactly the specified case, and has the specified effect on list, flags, entries and memory count in either case |
| `CoinsCache.CoinsViewCache.SpendCoin` | src/coins.cpp:130-152 | has the effect of the specification's spend and moves the coin out |
| `CoinsCache.CoinsViewCache.Uncache` | src/coins.cpp:274-287 | has the effect of the specification's uncache; a right memory total stays at zero or above |
| `CoinsCache.CoinsViewCache.WriteEntry` | src/coins.cpp:186-244 | has the effect of writing one entry, or reports the misuse of FRESH in exactly the specified case |
| `CoinsCache.CoinsViewCache.NextAndMaybeErase` | src/coins.h:284-298 | the cursor moves along the list while entries behind it are erased or cleaned |
| `CoinsCache.CoinsViewCache.BatchWrite` | src/coins.cpp:183-248 | the cursor loop visits every flagged entry once and has the effect of the specified batch |
| `CoinsCache.CoinsViewCache.Flush` | src/coins.cpp:250-259 | has the effect of the specified flush on both caches |
| `CoinsCache.CoinsViewCache.Sync` | src/coins.cpp:261-272 | has the effect of the specified sync; the check for leftover flagged entries passes |
| `CoinsCache.CoinsViewDb.WriteEntry` | src/txdb.cpp:93-155 | the database stores unspent DIRTY coins and erases spent ones |
| `CoinsCache.NeverThrows` | src/coins.cpp:225-272 | on a valid stack neither the misapplied-FRESH nor the uncleared-entries exception is reachable |
| `CoinsExact.FetchExact` | src/coins.cpp:48-64 | fetching caches a visible coin without flags and changes no other entry |
| `CoinsExact.AddExact` | src/coins.cpp:86-106 | an added coin is DIRTY, and FRESH exactly if it was or if overwriting is not allowed and no change of the outpoint waits to be written |
| `CoinsExact.AddThrowsExactly` | src/coins.cpp:83-85 | an add throws exactly if overwriting is not allowed and an unspent coin is cached |
| `CoinsExact.SpendExact` | src/coins.cpp:130-152 | a FRESH entry is removed, any other becomes a DIRTY null coin |
| `CoinsExact.CreatedAndSpent` | src/coins.cpp:72-152 | a coin created and spent between two flushes leaves the entries and the list as they were, so nothing is written for it |
| `CoinsExact.UncacheExact` | src/coins.cpp:274-287 | an entry is forgotten exactly if it has no flag |
| `CoinsExact.WriteExact` | src/coins.cpp:191-244 | what a parent makes of a DIRTY entry: left out, removed, or taken over with the right flags; it throws exactly for a FRESH one over an unspent coin |
| `CoinsExact.WriteDbExact` | src/txdb.cpp:118-130 | the database erases spent DIRTY entries, stores unspent ones and ignores the rest |
| `CheckQueue.Queue.Add` | src/checkqueue.h:172-189 | the critical section appends the checks and counts them |
| `CheckQueue.Queue.Section` | src/checkqueue.h:81-127 | a critical section of the loop is the clean-up followed by waiting, returning or taking a batch, as the protocol's steps say |
| `CheckQueue.Queue.Execute` | src/checkqueue.h:129-134 | runs the batch until a check fails, or nothing if an error is already known |
| `CheckQueue.BatchSize` | src/checkqueue.h:118-122 | a batch has between one check and the whole queue, and no more than the maximum |
| `CheckQueue.RunBatchMeaning` | src/checkqueue.h:129-134 | a batch yields nothing exactly if all its checks pass, otherwise the result of one of them |
| `CheckQueue.StepInv` | src/checkqueue.h:72-189 | every step of any thread keeps: the open count is queued plus held checks, the idle and total counters count threads, the published result is right for the checks done, a waiting master has not missed its wake-up |
| `CheckQueue.AnswersAreRight` | src/checkqueue.h:72-137 | for any number of workers, any batch limit and any interleaving, every answer of a round is nothing exactly if all checks of that round pass, else the result of a failing check of that same round |
| `CheckQueue.WaitingMaster` | src/checkqueue.h:97-110 | while the master waits without having been notified, some worker still holds a batch |
| `CheckQueue.NoDeadlock` | src/checkqueue.h:82-127 | while Complete is running and no stop is requested, some thread can take a step |
| `CheckQueue.ProgressDecreases` | src/checkqueue.h:82-127 | every such step lowers a measure |
| `CheckQueue.CompleteTerminates` | src/checkqueue.h:164-169 | the threads take at most that many steps, and when none can take another, Complete has returned once, with a right answer for exactly the checks of its round |
| `CheckQueue.AfterReturn` | src/checkqueue.h:98-105 | once the master is out, the workers' remaining steps are bounded and record no further round |
| `CheckQueue.StopReaches` | src/checkqueue.h:191-194 | after the destructor's notification no worker waits |
| `CheckQueue.ShutdownTerminates` | src/checkqueue.h:191-198 | from then on the threads take a bounded number of steps, and when none can take another every worker has left the loop and can be joined |
| `CheckQueueExact.BatchSizeExact` | src/checkqueue.h:116-121 | a batch is the largest within the limit that leaves as much for every other thread, but at least one check |
| `CheckQueueExact.TakesLast` | src/checkqueue.h:122-126 | a batch is the end of the queue, in order; it is worked on exactly if no failure is known |
| `CheckQueueExact.StopsAtFailure` | src/checkqueue.h:129-134 | the first failure in a batch is the one reported |
| `CheckQueueExact.FirstFailureReturned` | src/checkqueue.h:84-105 | over every run, the failure that is published first is the answer of its round |
| `SkipHeights.GetSkipHeight` | src/chain.cpp:79-91 | the skip height is below the height |
| `SkipHeights.StepDecreases` | src/chain.cpp:101-116 | every choice of the loop between jumping and walking lowers a measure made of the highest bit in which the two heights differ and the ones below it |
| `SkipHeights.StepCountBound` | src/chain.cpp:87-118 | with all skip pointers set, a search from a height below 2^n takes at most (n * n + 12 * n + 4) / 4 steps, which is 136 for the 2^18 blocks for which the comment reports 110 in simulations |
| `Chain.BlockIndex.GetAncestor` | src/chain.cpp:93-123 | the jump-and-walk loop ends at the block that following predecessors reaches, for every block and height, and returns null exactly outside the range; if no skip pointer is missing, it takes the counted number of steps |
| `Chain.BlockIndex.BuildSkip` | src/chain.cpp:125-129 | the skip pointer becomes the ancestor at the skip height, and the tree with the new block again has the property that searches rely on, and no pointer is missing if none was |
| `Chain.AddBlock` | src/chain.cpp:125-129 | a block added on top of any block, or as a root, keeps both properties |
| `Chain.LcaHighest` | src/chain.cpp:163-180 | two blocks have the same ancestor at a height exactly up to the height of their last common one |
| `Chain.LcaSymmetric` | src/chain.cpp:163-180 | the last common ancestor does not depend on the order of the blocks |
| `Chain.LastCommonAncestor` | src/chain.cpp:163-180 | the loop with skips returns the last common ancestor, or null for separate trees |
| `Chain.CChain.SetTip` | src/chain.cpp:21-29 | starting from any valid or empty chain, the early stop leaves the tip's ancestor at every height |
| `Chain.CChain.FindFork` | src/chain.cpp:60-69 | null without an argument or a chain, else the last common ancestor of the argument and the tip |
| `Uint.BaseUint.Add` | src/arith_uint256.h:129-139 | sum modulo 2^BITS |
| `Uint.BaseUint.Subtract` | src/arith_uint256.h:141-145 | difference modulo 2^BITS |
| `Uint.BaseUint.Negate` | src/arith_uint256.h:71-78 | two's complement |
| `Uint.BaseUint.Invert` | src/arith_uint256.h:63-69 | complement: 2^BITS - 1 - x |
| `Uint.BaseUint.Increment` | src/arith_uint256.h:167-174 | x + 1 modulo 2^BITS, the carry stopping at the first limb that does not wrap |
| `Uint.BaseUint.Decrement` | src/arith_uint256.h:184-191 | x - 1 modulo 2^BITS |
| `Uint.BaseUint.ShiftLeft` | src/arith_uint256.cpp:13-28 | x * 2^shift modulo 2^BITS, for every shift |
| `Uint.BaseUint.ShiftRight` | src/arith_uint256.cpp:30-45 | floor of x / 2^shift, for every shift |
| `Uint.BaseUint.MultiplySmall` | src/arith_uint256.cpp:47-57 | product with a word modulo 2^BITS |
| `Uint.BaseUint.Multiply` | src/arith_uint256.cpp:59-73 | product modulo 2^BITS |
| `Uint.BaseUint.Divide` | src/arith_uint256.cpp:75-99 | exact floor division; refuses exactly a zero divisor; aligning the divisor loses no bit |
| `Uint.AlignFits` | src/arith_uint256.cpp:82-88 | shifting the divisor to the dividend's bit length never overflows |
| `Uint.LongDivisionStep` | src/arith_uint256.cpp:88-97 | one step of the long division keeps the division identity |
| `Uint.BaseUint.CompareTo` | src/arith_uint256.cpp:101-111 | the order of the limbs is the order of the numbers |
| `Uint.BaseUint.EqualTo` | src/arith_uint256.cpp:113-125 | equality with a 64-bit number |
| `Uint.BaseUint.BitLength` | src/arith_uint256.cpp:155-168 | the bit length of the number |
| `Shifts.ShlCorrect` | src/arith_uint256.cpp:13-28 | the limbs that the left-shift loop leaves are those of x * 2^shift modulo 2^BITS |
| `Shifts.ShrCorrect` | src/arith_uint256.cpp:30-45 | the limbs that the right-shift loop leaves are those of floor(x / 2^shift) |
| `Compact.EncodeApproximates` | src/arith_uint256.cpp:175-216 | for x > 0, decoding its code gives y <= x with 2^15 * (x - y) < y |
| `Compact.RoundTripExactlyCanonical` | src/arith_uint256.cpp:175-216 | encoding what a code without sign means gives the code back exactly if the code is canonical |
| `Compact.EncodeCanonical` | src/arith_uint256.cpp:195-216 | the code of every positive number is canonical |
| `Compact.OverflowExact` | src/arith_uint256.cpp:189-191 | the overflow test holds exactly if the code means 2^256 or more |
| `Compact.FieldsOf` | src/arith_uint256.cpp:177-188 | size, sign and mantissa are the three fields of the code |
| `Compact.DecodeMeaning` | src/arith_uint256.cpp:179-185 | every code stands for mantissa * 256^(size - 3), rounded down |
| `Compact.EncodeSigned` | src/arith_uint256.cpp:195-216 | the sign bit is set exactly for a negative number other than zero and changes nothing else |
| `Target.SetCompact` | src/arith_uint256.cpp:175-192 | the value is the code's meaning modulo 2^256; the overflow flag says that the meaning does not fit; the sign flag is the code's |
| `Target.GetCompact` | src/arith_uint256.cpp:195-216 | the limb computation gives the mathematical code of the value |
| `Target.CompactRoundTrip` | src/arith_uint256.cpp:175-216 | reading back a positive number's code sets neither flag and loses less than one part in 2^15 |
| `Target.GetBlockProof` | src/chain.cpp:131-144 | zero for a bad target, else floor(2^256 / (target + 1)), without dividing by zero |
| `Target.NotAllOnes` | src/chain.cpp:131-144 | no code means 2^256 - 1, so the divisor never wraps to zero |
| `Target.WorkIdentity` | src/chain.cpp:139-143 | the identity that turns 2^256 / (t + 1) into a computation without 2^256 |
| `Positional.EncodeSize` | src/base58.cpp:98-100 | length * 138 / 100 + 1 base58 digits hold every byte string |
| `Positional.DecodeSize` | src/base58.cpp:53-55 | length * 733 / 1000 + 1 bytes hold every base58 string |
| `Positional.DigitsOfNumber` | src/base58.cpp:89-127 | digits without leading zeros are determined by their number |
| `Base58Codec.DecodeOfEncode` | src/base58.cpp:40-127 | decoding an encoded byte string gives it back exactly if it fits the length limit, else fails |
| `Base58Codec.EncodeOfDecode` | src/base58.cpp:40-127 | encoding a decoded text gives the text back without its surrounding white space |
| `Base58Codec.MultiplyAdd` | src/base58.cpp:63-70 | the in-place carry loop multiplies the number in the buffer by the other base and adds a digit; nothing is carried out of the buffer, so the assertion after the loop never fails |
| `Base58Codec.EncodeBase58` | src/base58.cpp:89-127 | the printer with its real buffer computes the specified text |
| `Base58Codec.DecodeBase58` | src/base58.cpp:40-135 | the parser with its real buffer computes the specified result, with all refusals (the public wrapper's zero-byte test included) |
| `Base58Exact.AlphabetIs` | src/base58.cpp:19-20 | the digits are the ASCII alphanumerics without 0, I, O and l |
| `Base58Exact.AlphabetIncreases` | src/base58.cpp:19-20 | in the order of ASCII |
| `Base58Exact.SpacesAre` | src/util/strencodings.h:165-167 | white space is the blank and the characters from tab to carriage return |
| `Base58Exact.DecodeExactly` | src/base58.cpp:40-135 | the parser gives bytes back exactly for their printed form with white space around it, if they fit the limit, and refuses every other text |
| `Base58Exact.EncodeValue` | src/base58.cpp:89-127 | the text has a 1 for every leading zero byte and is the bytes' number in base 58 |
| `Bech32.CharsetOk` | src/bech32.cpp:22-35 | looking up the character of a symbol gives the symbol |
| `Bech32.CharsetRevOk` | src/bech32.cpp:22-35 | a character with a value is that symbol's character, up to case |
| `Bech32.FoldLinear` | src/bech32.cpp:130-216 | the remainder of a sum of symbol strings is the sum of the remainders |
| `Bech32.ChecksumVerifies` | src/bech32.cpp:326-353 | appending the created checksum makes the text verify as that encoding |
| `Bech32.ChecksumUnique` | src/bech32.cpp:326-353 | no other six symbols do |
| `Bech32.BurstDetected` | src/bech32.cpp:326-339 | at any length, a change confined to six consecutive symbols after the separator makes the checksum fail for that encoding |
| `Bech32.SingleErrorDetected` | src/bech32.cpp:326-339 | at any length, changing exactly one symbol after the separator makes the checksum fail for that encoding |
| `Bech32Errors.ThreeErrorsDetected` | src/bech32.cpp:130-145 | any change of up to three symbols within a window of 1023 symbols makes the checksum fail for that encoding |
| `Bech32Errors.Order` | src/bech32.cpp:155-168 | the primitive element of GF(1024) has order 1023 |
| `Bech32Errors.ValueStep` | src/bech32.cpp:171-215 | at each of the three consecutive powers 997, 998 and 999 a step of the checksum multiplies the value of the remainder and adds the symbol |
| `Bech32Errors.NoSolution` | src/bech32.cpp:166-169 | the three equations that unnoticed errors would satisfy have no solution but zero |
| `Bech32Text.PolyMod` | src/bech32.cpp:130-216 | the loop computes the remainder that the linear theory is about |
| `Bech32Text.PreparePolynomialCoefficients` | src/bech32.cpp:311-324 | computes the expansion that Bech32Prefix.ExpansionIs describes bit by bit |
| `Bech32Text.VerifyChecksum` | src/bech32.cpp:326-339 | the encoding whose constant is the remainder of the expansion, if any; by Bech32Prefix.PrefixChangeDetected and Bech32.SingleErrorDetected it notices a change of one character on either side of the separator |
| `Bech32Text.CreateChecksum` | src/bech32.cpp:341-353 | the six symbols whose appending to the data verifies with this human readable part |
| `Bech32Text.CheckCharacters` | src/bech32.cpp:287-309 | reports in order exactly the unprintable characters and the letters not in the case of the first letter; reports nothing exactly for valid texts |
| `Bech32Text.Encode` | src/bech32.cpp:357-371 | human readable part, separator, characters of data and checksum: the texts that the parser accepts, by Bech32Prefix.DecodeExactly |
| `Bech32Text.Decode` | src/bech32.cpp:373-400 | computes the specified result, with all refusals; the table is only read below 128 |
| `Bech32Text.DecodeOfEncode` | src/bech32.cpp:357-400 | decoding an encoding returns it exactly if the human readable part is non-empty and printable and the length limit holds, else it is refused |
| `Bech32Text.EncodeOfDecode` | src/bech32.cpp:357-400 | encoding a decoded text gives the text back in lower case |
| `Bech32Prefix.ExpansionIs` | src/bech32.cpp:311-324 | the expansion has the high three bits of every character, a zero, the low five bits of every character in the same order and the values; each character is put together again from its two parts |
| `Bech32Prefix.ExpansionInjective` | src/bech32.cpp:311-324 | human readable parts of one length with the same expansion are equal |
| `Bech32Prefix.PrefixChangeDetected` | src/bech32.cpp:311-339 | the checksum covers the human readable part: changing one of its characters makes it fail for the encoding that accepted it |
| `Bech32Prefix.TextPrefixChange` | src/bech32.cpp:373-400 | a text with one such character changed, other than in case, is not accepted for that encoding |
| `Bech32Prefix.DecodeExactly` | src/bech32.cpp:357-400 | the parser accepts exactly the texts that the printer makes, in small or in capital letters, within the limit and printable, and gives back what was printed |
| `Bech32Vectors.CharsetIs` | src/bech32.cpp:22-23 | the character of every symbol is the one that BIP 173 prints |
| `Bech32Vectors.Valid173` | src/bech32.cpp:373-400 | A12UEL5L, a valid text of BIP 173, is accepted as Bech32 with human readable part a |
| `Bech32Vectors.Valid350` | src/bech32.cpp:373-400 | A1LQFN3A, a valid text of BIP 350, is accepted as Bech32m with human readable part a |
| `AddrManState.CreateKeeps` | src/addrman.cpp:416-430 | a new entry without a cell keeps every other consistency condition |
| `AddrManState.SwapKeeps` | src/addrman.cpp:432-454 | exchanging two random positions keeps all conditions |
| `AddrManSpec.DeleteKeeps` | src/addrman.cpp:456-471 | forgetting an entry without references keeps all conditions: both indexes, the random order, the counters |
| `AddrManSpec.ClearNewKeeps` | src/addrman.cpp:473-489 | emptying a cell keeps all conditions, whether its entry survives or not |
| `AddrManSpec.MakeTriedKeeps` | src/addrman.cpp:491-548 | moving an entry to the tried table, with or without eviction, keeps all conditions |
| `AddrManSpec.MakeTriedEffect` | src/addrman.cpp:505-547 | the tried table changes in exactly one cell; the evicted entry is new again with one reference |
| `AddrManSpec.MakeTriedStay` | src/addrman.cpp:491-548 | no tried entry but the evicted one is touched |
| `AddrManSpec.MakeTriedForgets` | src/addrman.cpp:505-547 | moving an entry to the tried table forgets another one exactly if some entry is evicted to the only cell of the other |
| `AddrManSpec.InsertKeeps` | src/addrman.cpp:596-623 | giving an entry a reference, overwriting a worse one, or dropping the entry keeps all conditions and the limit of eight references |
| `AddrManOps.AddSingleKeeps` | src/addrman.cpp:550-624 | adding an address keeps all conditions whatever the clock and the random test say |
| `AddrManOps.GoodKeeps` | src/addrman.cpp:626-679 | recording a success keeps all conditions |
| `AddrManEffects.AddNewExact` | src/addrman.cpp:593-624 | an unknown address is added exactly if its cell for this source is free or holds an entry that is terrible or has more than one reference; then it has this cell, as announced less the penalty, with one reference, and the former occupant has one less or is forgotten; otherwise nothing is remembered of it |
| `AddrManEffects.AddKnownExact` | src/addrman.cpp:566-624 | a known address gets its time by the update interval, the union of the services, and one more reference exactly if the announcement is news, the entry is new with fewer than eight references, the random test passes and the cell is free or holds another entry that is terrible |
| `AddrManEffects.AnyAddedExact` | src/addrman.cpp:681-691 | a list is reported as adding exactly if some announcement of it is admitted in the state that those before it leave |
| `AddrManEffects.MakeTriedExact` | src/addrman.cpp:491-548 | both tables after a move: the entry has its tried cell and no new one, the evicted one has exactly the cell of its own source, and only what was there loses a cell |
| `AddrManEffects.GoodExact` | src/addrman.cpp:626-679 | the entry moves exactly if it is new and its cell is free or no test before eviction is asked for; otherwise no table changes and it is pending after a collision if fewer than ten were; the times, the attempts and the last success of all are those of a success in every case |
| `AddrManEffects.GoodUnknown` | src/addrman.cpp:626-637 | a success of an unknown address changes the time of the last success only |
| `AddrManEffects.AttemptExact` | src/addrman.cpp:693-711 | an attempt is dated always and counted exactly if it should be and the last counted one is before the last success of any address; nothing else changes |
| `AddrManEffects.ConnectedExact` | src/addrman.cpp:877-894 | the time moves exactly if it is more than twenty minutes back, so it is never further behind |
| `AddrManEffects.SetServicesExact` | src/addrman.cpp:896-910 | the services become the given ones and nothing else changes |
| `AddrManEffects.TerribleExact` | src/addrman.cpp:69-92 | when an entry is terrible, by the minute, ten minutes, thirty days, three failures and ten failures in a week |
| `AddrManRuns.GoodSound` | src/addrman.cpp:626-679 | recording a success, as the public operation does it, keeps all conditions; every pending id still is a new entry with an occupied tried cell |
| `AddrManRuns.ResolveSound` | src/addrman.cpp:912-973 | resolving collisions, in the order of the set while erasing from it, keeps all conditions |
| `AddrManRuns.SelectSound` | src/addrman.cpp:975-1001 | selecting a collision keeps all conditions; its lookup never meets an empty tried cell |
| `AddrManPending.SettledExactly` | src/addrman.cpp:918-965 | in its turn a pending id stays pending exactly if the tried entry in its way has not succeeded for four hours and was tried within the last minute, or was not tried for four hours while the pending one has waited forty minutes at most |
| `AddrManPending.TurnMovesIn` | src/addrman.cpp:943-963 | the turn moves the pending entry into the cell of the one that it replaces, as a success at that time, or changes nothing |
| `AddrManPending.ResolvePending` | src/addrman.cpp:912-973 | after a resolution an id is pending exactly if it was before and was undecided in its turn |
| `AddrManPending.PendingAlone` | src/addrman.cpp:912-973 | on the state before the resolution: if no earlier pending id wants the same cell, an id still known at its turn stays pending exactly if it is undecided at the start |
| `AddrManPending.SelectExact` | src/addrman.cpp:975-1001 | the answer is the tried entry that the chosen id collides with and the time of its last try, and nothing changes; an id that is not known any more is dropped instead |
| `AddrManRuns.RunSound` | src/addrman.cpp:416-1001 | every run of add, good, attempt, connected, set-services, resolve and select keeps all conditions; ids are never used again, entries keep their addresses and an occupied tried cell is never empty again |
| `AddrManEvictions.EvictionRule` | src/addrman.cpp:930-963 | the turn of one pending id takes an entry out of the tried table only if its last success is at least four hours ago and it failed a try within four hours but over a minute ago, or was not tried for four hours while the pending one waited over forty minutes; right after that it is known as a new entry with one reference |
| `AddrManEvictions.ResolveOneExact` | src/addrman.cpp:918-965 | in the turn of a pending id, a tried entry leaves the table exactly if the pending one meets that rule against it |
| `AddrManEvictions.TurnsResolve` | src/addrman.cpp:912-973 | a resolution is the sequence of the turns of the ids that were pending at its start |
| `AddrManEvictions.ResolveExact` | src/addrman.cpp:912-973 | over a whole resolution, a tried entry leaves the table exactly if some pending id, still known when its turn comes, meets the full rule with the times of the start; otherwise its times stay too |
| `AddrManEvictions.EvictedStaysKnown` | src/addrman.cpp:512-540 | an evicted entry is still known at the end of the resolution exactly if no later turn evicts an entry to the same cell |
| `AddrManEvictions.EvictedIsContested` | src/addrman.cpp:912-973 | only an entry that was tried or pending at the start, with another pending id for the same tried cell, is ever evicted |
| `AddrManEvictions.EvictedAllKnown` | src/addrman.cpp:912-973 | if those entries of the start have different home cells, every evicted entry is known at the end |
| `AddrManEvictions.TriedAllKnown` | src/addrman.cpp:912-973 | then every entry that was tried at the start is known at the end |
| `AddrManExamples.EvictedIsForgotten` | src/addrman.cpp:912-973 | the failing input: two pending entries whose victims share a home cell, and the first victim is forgotten |
| `AddrManEvictions.ResolveProtects` | src/addrman.cpp:935-942 | an entry that succeeded less than four hours before the clock reading at each pending id stays in the tried table with its times through a whole resolution |
| `AddrManEvictions.OnlyResolveEvicts` | src/addrman.cpp:550-1001 | an operation takes an entry out of the tried table exactly if it is a resolution in which some pending id, still known at its turn, meets the full rule |
| `AddrManRuns.RunRoutable` | src/addrman.cpp:550-590 | over every run only routable addresses get in |
| `AddrMan.AddrManImpl.Create` | src/addrman.cpp:416-430 | updates both maps, the random order and the counters as specified |
| `AddrMan.AddrManImpl.SwapRandom` | src/addrman.cpp:432-454 | has the specified effect; both ids are known |
| `AddrMan.AddrManImpl.Delete` | src/addrman.cpp:456-471 | has the specified effect |
| `AddrMan.AddrManImpl.ClearNew` | src/addrman.cpp:473-489 | has the specified effect on the bucket array; the reference count asserted positive is positive |
| `AddrMan.AddrManImpl.LeaveNewTable` | src/addrman.cpp:495-506 | the wrapping scan with early stop takes the entry out of every cell it has, so the asserted zero count is reached |
| `AddrMan.AddrManImpl.MakeTried` | src/addrman.cpp:491-548 | has the specified effect on both bucket arrays; all its assertions hold |
| `AddrMan.AddrManImpl.AddSingle` | src/addrman.cpp:550-624 | has the effect and result that AddrManEffects.AddNewExact and AddrManEffects.AddKnownExact pin down |
| `AddrMan.AddrManImpl.Add` | src/addrman.cpp:681-691 | the loop has the effect of adding the addresses in turn; by AddrManEffects.AnyAddedExact it reports whether any got a cell |
| `AddrMan.AddrManImpl.Good_` | src/addrman.cpp:626-679 | has the effect and result that AddrManEffects.GoodExact and AddrManEffects.GoodUnknown pin down |
| `AddrMan.AddrManImpl.Attempt` | src/addrman.cpp:693-711 | records the time and counts a failure if the last counted attempt is before the last success of any entry |
| `AddrManAttempts.AttemptTwice` | src/addrman.cpp:693-711 | of two attempts without a success between them both are counted exactly if the last counted attempt and the time of the first are before the last success |
| `AddrManAttempts.CountedOnce` | src/addrman.cpp:693-711 | in every run without a success whose attempts are not dated before the last one, an entry's attempts are counted once at most |
| `AddrManExamples.CountedTwice` | src/addrman.cpp:693-711 | the failing input: two attempts dated before the last success are both counted |
| `AddrMan.AddrManImpl.Connected` | src/addrman.cpp:877-894 | updates the time only if it is older than twenty minutes |
| `AddrMan.AddrManImpl.SetServices` | src/addrman.cpp:896-910 | replaces the services of a known entry |
| `AddrMan.AddrManImpl.ResolveCollisions` | src/addrman.cpp:912-973 | the loop over the set that it erases from has the specified effect, of which AddrManEvictions.ResolveExact and AddrManPending.ResolvePending say who leaves the tried table and who stays pending |
| `AddrMan.AddrManImpl.SelectTriedCollision` | src/addrman.cpp:975-1001 | returns the entry of the occupied tried cell; never looks up -1 |
| `AddrManCheck.CheckAddrman` | src/addrman.cpp:1063-1166 | returns 0 exactly if its demands are met: the entries, the two tables with their reference counts, the totals and the recorded counters agree, and the key is not null |
| `AddrManRoundTrip.CheckedExactly` | src/addrman.cpp:1063-1166 | the full conditions that every run keeps, with a key that is not null, are these demands together with three that the check does not look at: ids below the next one, no stale address in the index, a counter for every network with an entry |
| `AddrManExamples.CheckMissesCounter` | src/addrman.cpp:1155-1163 | the failing input: a state that passes the check although a network with an entry has no counter |
| `AddrManRoundTrip.RunsPass` | src/addrman.cpp:1063-1166 | no run from the start reaches a state that fails the check or one of the three other conditions, and all its addresses are valid |
| `AddrManCheck.CollectEntries` | src/addrman.cpp:1077-1108 | accepts exactly if every entry passes, and then has collected the tried ids, the reference counts and the counts per network |
| `AddrManCheck.WalkTried` | src/addrman.cpp:1115-1130 | accepts with nothing left exactly if cells and tried entries correspond one to one |
| `AddrManCheck.WalkNew` | src/addrman.cpp:1132-1145 | accepts with nothing left exactly if every cell holds a new entry in its position and every reference count is the number of cells |
| `AddrManRoundTrip.LoadAllNewOk` | src/addrman.cpp:280-290 | loading the written records of new entries rebuilds them with their new ids |
| `AddrManRoundTrip.LoadAllTriedOk` | src/addrman.cpp:292-315 | loading the written records of tried entries finds every cell free and rebuilds all of them |
| `AddrManDisk.PlaceAllOk` | src/addrman.cpp:344-372 | placing the bucket lists fills exactly the written cells; no entry is skipped or sent to another bucket |
| `AddrManRoundTrip.FileNumbers` | src/addrman.cpp:193-212 | the numbers written are the true ones, so the writer's assertions hold |
| `AddrManRoundTrip.NumbersFit` | src/addrman.cpp:264-277 | the numbers of a consistent state pass the reader's bounds |
| `AddrManRoundTrip.RoundTrip` | src/addrman.cpp:132-399 | reading back the file of a consistent manager with valid addresses succeeds exactly if its key is not null, whatever the reader's own key and the order of the maps; the result is sound under the written key and has the same entries, tables, reference counts and counters up to renaming ids, with times of attempts reset and the time of an entry cut to 32 bits |
| `AddrManRoundTrip.AcceptedIsSound` | src/addrman.cpp:231-399 | for every file whatever, a state that the reader accepts is sound under the file's key and all its addresses are valid |
| `AddrManReading.LoadAllTriedRead` | src/addrman.cpp:280-315 | for records with valid and different addresses, whatever cells they share: a tried record becomes an entry exactly if no tried record before it has its cell, and all conditions hold but for the new entries, which have no cell yet |
| `AddrManRebucket.Rebucketed` | src/addrman.cpp:280-399 | under another asmap checksum or bucket count, a file of such records within the bounds is accepted exactly if its key is not null; a new record is kept exactly if it is named before every other one with its home cell and then has this cell only, a tried one exactly if it is the first for its cell |
| `AddrManRestore.Restored` | src/addrman.cpp:231-399 | every file of such records within the bounds, whatever its bucket lists, is accepted exactly if its key is not null, and the result is sound; a new record that a list names is kept unless its home cell is taken, and if buckets are restored its cell in the named bucket is taken unless it has eight references; a new record that no list names is not kept, and every filled cell is one that was asked for |
| `AddrManRebucket.AcceptedNumbers` | src/addrman.cpp:264-277 | every accepted file has its numbers within the bounds, as many records as they say, and a key |
| `AddrManRebucket.ReadElsewhere` | src/addrman.cpp:132-399 | the file of a consistent manager, read under another asmap checksum or bucket count, is accepted exactly if the key is not null; the result is sound, keeps the records as above, and no new entry is lost whose home cell no other new record has |
| `CompactBlocks.SlotsIncrease` | src/blockencodings.cpp:62-79 | positions of prefilled transactions are distinct and increasing |
| `CompactBlocks.SlotInBounds` | src/blockencodings.cpp:68-77 | an accepted position is inside the block |
| `CompactBlocks.AcceptedExactly` | src/blockencodings.cpp:62-79 | the prefilled transactions are accepted exactly if none is null, they skip no more positions than there are short ids, and the last position fits 16 bits |
| `CompactBlocks.OpenBefore` | src/blockencodings.cpp:62-94 | before a prefilled position there are as many open ones as the indexes have skipped |
| `CompactBlocks.OpenCount` | src/blockencodings.cpp:62-94 | as many positions stay open as there are short ids |
| `CompactBlocks.ShortMapAt` | src/blockencodings.cpp:86-92 | the i-th short id leads to the i-th open position |
| `CompactBlocks.ShortMapSize` | src/blockencodings.cpp:107-110 | the size test detects exactly a repeated short id |
| `CompactBlocks.SearchedOk` | src/blockencodings.cpp:112-168 | the searches touch open positions only; what they fill in is a candidate with that position's short id |
| `CompactBlocks.SearchExact` | src/blockencodings.cpp:108-168 | what is available after the searches, position by position: with p transactions of the pool and q extra ones met before the early exits, an open position holds the first that was met for its short id if at most one of them was in the pool and all have one hash, and nothing otherwise |
| `CompactBlocks.ClashStaysOpen` | src/blockencodings.cpp:117-124 | two pool transactions met with the short id of a position leave it open |
| `CompactBlocks.OnlyOneMet` | src/blockencodings.cpp:148-158 | what is available in an open position has the hash of every transaction that was met for it |
| `CompactBlocks.MempoolCount` | src/blockencodings.cpp:112-168 | the count is the number of filled short-id positions exactly if the object started with count zero |
| `CompactBlocks.UseTwice` | src/blockencodings.cpp:48-229 | an object that is used for a second block counts on top of its first count |
| `CompactBlocks.CountsTooMany` | src/blockencodings.cpp:48-229 | the failing input: rebuilding a block of two transactions twice counts one position too many |
| `CompactBlocks.SearchFinds` | src/blockencodings.cpp:112-168 | a candidate that is the only one with a position's short id is found for it, early exits notwithstanding |
| `CompactBlocks.CompactDescribes` | src/blockencodings.cpp:20-30 | the compact form of every block with a coinbase describes it |
| `CompactBlocks.MakeCompact` | src/blockencodings.cpp:20-30 | the constructor's loop computes that form |
| `CompactBlocks.Rebuild` | src/blockencodings.cpp:48-229 | if no other candidate shares a short id with a block transaction, what is available merged with the missing transactions in order is the block |
| `CompactBlocks.PartiallyDownloadedBlock.InitData` | src/blockencodings.cpp:48-172 | says exactly when it refuses, fails or succeeds, what is then available in every position, and what is counted |
| `CompactBlocks.PartiallyDownloadedBlock.MapShortIds` | src/blockencodings.cpp:86-106 | the loop with its running offset computes the map without leaving the block or 16 bits |
| `CompactBlocks.PartiallyDownloadedBlock.FillBlock` | src/blockencodings.cpp:182-229 | what is available merged with the missing transactions in order; refuses too many with the object cleared, and too few with the header kept and the positions before the gap emptied; otherwise the verdict of the block check |
| `CompactBlocks.PartiallyDownloadedBlock.Collect` | src/blockencodings.cpp:190-200 | the loop runs out of missing transactions exactly if there are fewer than gaps, and then has emptied the positions before the first gap left |
| `CompactBlocks.Exchange` | src/blockencodings.cpp:48-229 | the whole exchange gives the block back whenever the first step succeeds, and says when it does |

## Left out

- Best-block hashes, `EmplaceCoinInternalDANGER`, error catching, cache reallocation and failed flushes of the coin cache.
- CoinsCache.CoinsViewCache.FetchCoin: the placeholder entry that is created and erased again on a miss is not shown as an intermediate state.
- Links of the coin cache's list are outpoints instead of addresses of map nodes, so stability of node addresses is not modelled.
- The database below the caches is a map; its batching, sizes and crash recovery are not modelled.
- Threads of the check queue are steps of a state machine; the mutex and the memory model are taken for granted.
- Block locators, `FindEarliestAtLeast` and proof-equivalent times of the chain; the predecessor and height of a block index are constants.
- Bitwise operators between wide integers, conversions to hexadecimal, double and 256-bit hashes.
- Base58 with a checksum, which is this codec around a hash.
- Error location in Bech32 texts (the GF(1024) tables and syndromes), a heuristic on top of the checksum.
- Detection of four scattered errors within 89 symbols, which the comment in src/bech32.cpp claims for this choice among the possible generators; three errors within 1023 symbols and bursts of six are proved.
- Characters above 127 in a human readable part given to the Bech32 printer, where the source shifts a possibly signed char; the parser refuses such texts either way.
- Random selection from the address manager (`Select_`, `GetAddr_`, `GetChance`), size queries, locking and logging.
- The format and version bytes of the address manager's file.
- AddrManRoundTrip.RoundTrip: is about a reader with the same asmap checksum and bucket count; AddrManRebucket.ReadElsewhere is about the others.
- AddrManRestore.Restored: is about records with valid and pairwise different addresses, as every writer leaves them, and so is AddrManRebucket.Rebucketed; for other files AddrManRoundTrip.AcceptedIsSound says that what is accepted is sound.
- Bech32Prefix.PrefixChangeDetected: is about human readable parts of fewer than 1022 characters, which keeps both symbols of a character within the 1023 that the code is made for.
- `Serialize` and `Unserialize` are functions on the state, one recursion per source loop; the final call of `CheckAddrman` is the condition that AddrManCheck.CheckAddrman decides.
- The bucket-size test on the hash map of short ids is a parameter; the count of extra transactions and sizes in bytes are statistics and not modelled.
- CompactBlocks.PartiallyDownloadedBlock.InitData: takes messages of at most 65535 transactions with 16-bit indexes; the message reader, which refuses others, is not modelled.
- Differential encoding of transaction indexes and the rest of message serialization.
- Block filters, amount and script compression, transport encryption, ban lists, executables and chain parameters.
