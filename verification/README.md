# Verified models of the Triangles node

Dafny 4.11 models of the self-contained cores of the node, with proofs. `dafny verify dfyconfig.toml`
checks everything.

Where the program changes state step by step there is a class or a method with the same loops and
branches, proved equal to a function on values; what the program promises is then proved of those
functions, for all inputs, all runs and all interleavings. What each function computes is also said
without it, in the fields, words, bytes, characters or numbers it works on. Randomness, hash functions,
compression and substitution layers, signatures and the outcome of disk operations are parameters, so the
theorems hold for all of them.

- **Address manager** (`IntSets`, `AddrTables`, `AddrSteps`, `AddrEffects`, `AddrCheck`, `AddrDisk`,
  `AddrRebucket`, `AddrImage`, `AddrSelect`, `AddrMan`): five redundant tables, the invariant behind the
  debug check, what each operation does to entries and buckets, the compressed on-disk form and its round
  trip, and which entry an eviction picks.
- **Check queue** (`CheckQueue`, `CheckQueueRuns`): a master and any number of workers, as atomic steps
  between lock points.
- **Hash engines** (`Words`, `Fugue`, `FugueEngine`, `Blake`, `BlakeClose`, `CubeHash`): fast forms against
  reference forms, buffering, padding and counters.
- **Signed checkpoints** (`Base64`, `Base64Text`, `SignedText`, `SignedLiteral`, `SignedCheckpoints`,
  `SignedScan`): the JSON printer and verifier, and the text of signatures.
- **Codecs** (`Positional`, `Mpi`, `MpiForm`, `Base58`, `Base58Codec`, `Der`, `DerForm`, `Mnemonic`,
  `MnemonicBits`, `MnemonicNumber`, `MnemonicText`): Base58, big-integer buffers and the compact
  form, lax DER, mnemonic phrases.
- **Ledger and recovery** (`SyncCheckpoints`, `UtxoRebuild`, `Recovery`, `RecoveryRuns`, `FeeEstimator`).

`Lists` holds what several modules do with sequences.

Some properties one would expect are false of the code. The code is modelled as it is; a lemma or method
gives the failing input or run, and another states exactly when the property holds:

- A worker's `fOk` (`src/checkqueue.h:40`) outlives its batch: `FailureSticks` and `Verdict`.
- `StartBatch` after `Quit` can meet a chunk in flight: `BatchAfterQuitUnderflows` and `BeginCounts`.
- `SelectTried` returns the place an entry was drawn from, not where it now stands
  (`src/addrman.cpp:136-143`): `TwoEntriesMiss`, `CanMissAll` and `EvictsOldest`.
- An image with another number of new buckets can overfill one of them (`src/addrman.h:334-338`):
  `CrowdedOverfills` and `RebucketedIsConsistent`.
- A new RocksDB starts with a version record of its own (`src/txdb-rocksdb.cpp:263-269`), so a copy found
  complete may differ from a source of another version: `NewerVersionDiffers` and `UnmarkedIsComplete`.
- The migration promises to leave LevelDB untouched (`src/init.cpp:1354-1357`), but opening one of an older
  version empties it (`src/txdb-leveldb.cpp:95-110`): `OlderSourceIsEmptied` and `SourceStays`.
- One reindex marker serves two backends (`src/init.cpp:1419`): `SwitchingBackendsLoadsPartial`,
  `CarefulIsSafe` and `MarkerRemoval`.
- The UTXO rebuild clears nothing first, although it prints that it does: `StaleEntryStays` and
  `RebuiltIsUnspent`.
- Sealing a height twice leaves the fee estimator's total too high for good: `SealTwice` and `TotalIsExact`.

Where comment and code differ the code is followed: `src/feeestimator.cpp:160-173` speaks of a 30th
percentile for six blocks, the code computes the 40th; `src/addrman.cpp:130-131` speaks of the least
recently tried entry, the code compares last successes.

## Model

| member | source | states |
|---|---|---|
| AddrTables.EmptyIsConsistent | src/addrman.h:371-380 | The constructor's empty tables satisfy the whole invariant: index, random order, tried and new placement, reference counts, tallies, times. |
| AddrTables.SwapRandomKeeps | src/addrman.cpp:106-124 | Exchanging two places of the random order keeps every clause, also while one reference is counted but not yet placed. |
| AddrTables.EnterKeeps | src/addrman.cpp:351-365 | A fresh entry, counted before its bucket holds it, keeps the weaker invariant that `ShrinkNew` needs. |
| AddrTables.RaiseKeeps | src/addrman.cpp:361-366 | Raising a reference count before the bucket is updated keeps the weaker invariant with that id pending. |
| AddrTables.UnrefKeeps | src/addrman.cpp:150-202 | Dropping a reference, and the entry with its last one, keeps the invariant, with or without a pending reference. |
| AddrTables.LinkKeeps | src/addrman.cpp:361-368 | Putting the pending id into its bucket turns the weaker invariant back into the full one; the bucket stays within 64. |
| AddrTables.PlaceTriedKeeps | src/addrman.cpp:204-229 | Promotion into a tried bucket with room keeps the invariant: no new bucket holds the id any more, and the tallies move by one. |
| AddrTables.ReplaceTriedKeeps | src/addrman.cpp:230-260 | Promotion by eviction keeps the invariant: the evicted entry is back in exactly one new bucket, which has room. |
| AddrTables.MakeTriedKeeps | src/addrman.cpp:204-260 | Whatever tried bucket, eviction and random draws the code picks, `MakeTried` keeps the invariant. |
| AddrTables.ReorderedSame | src/addrman.cpp:126-148 | A shuffled bucket without repeats has the same members and still no repeats. |
| AddrSelect.FirstOldest | src/addrman.cpp:134-145 | Of the first entries, the first with the least last success: none is older, and those before it are newer. |
| AddrSelect.EvictsOldest | src/addrman.cpp:126-148 | The entry at the position returned is the first oldest of those inspected if and only if the draw that fetched that one left it where it stood; no inspected entry is older than the evicted one if and only if the evicted one is no newer than that first oldest. |
| AddrSelect.EvictsDisplaced | src/addrman.cpp:136-143 | When the oldest entry was fetched from behind and its old place is not drawn again, the entry evicted is the one that stood at its new place before. |
| AddrSelect.CanMissAll | src/addrman.cpp:126-148 | In every bucket of eight or more entries some draws evict an entry that was never inspected. |
| AddrSelect.TwoEntriesMiss | src/addrman.cpp:126-148 | A bucket of two from which the younger entry is evicted. |
| AddrSteps.AddKeeps | src/addrman.cpp:313-369 | `Add_` keeps the tables consistent for every address, source, penalty, draw and victim. |
| AddrSteps.GoodKeeps | src/addrman.cpp:262-311 | `Good_` keeps the tables consistent if and only if the address is unknown or the time is positive. |
| AddrSteps.AttemptKeeps | src/addrman.cpp:371-388 | `Attempt_` keeps the tables consistent if and only if the address is unknown or the time is not negative. |
| AddrSteps.ConnectedKeeps | src/addrman.cpp:508-526 | `Connected_` keeps the tables consistent for every time. |
| AddrSteps.NewEntryHasBucket | src/addrman.cpp:289-305 | The search of `Good_` for a new bucket that holds the entry never fails, so its `nUBucket == -1` exit is unreachable. |
| AddrSteps.RandomOrderIsInjective | src/addrman.cpp:492-506 | Distinct places of the random order hold entries with distinct addresses. |
| AddrSteps.DrawnAreDistinct | src/addrman.cpp:492-506 | `GetAddr_` never hands out an address twice, for any draws. |
| AddrSteps.ApplyKeeps | src/addrman.cpp:262-388 | Each operation, with any choices the code can make, keeps the tables consistent. |
| AddrSteps.RunsStayConsistent | src/addrman.cpp:94-526 | Every state of every run of Add, Good, Attempt, Connected and GetAddr from the empty tables is consistent. |
| AddrEffects.ReferenceLands | src/addrman.cpp:359-368 | An announcement that earns a reference puts it into the new bucket that the address and the announcing source select, modulo 256. |
| AddrEffects.AddFills | src/addrman.cpp:359-368 | That bucket gains the id and, if it held 64 others, gives up one; no other bucket changes, and none when no reference is earned. |
| AddrEffects.UnknownEnters | src/addrman.cpp:351-358 | An unknown address gets the next id and an entry with the announced service, flags and source, the time less the penalty, no attempts and one reference. |
| AddrEffects.KnownRefreshed | src/addrman.cpp:321-350 | A repeated announcement adds its flags; the time moves only if it is later by more than an hour, or a day for an old one, plus the penalty; one reference more for a later time, below four, not tried, and with odds of one in 2, 4 or 8. |
| AddrEffects.OthersStay | src/addrman.cpp:313-369 | Every other entry keeps all its fields; the one given up loses one reference, or goes with its last. |
| AddrEffects.SuccessPromotes | src/addrman.cpp:262-311 | After a success the entry has its times set and no failed attempts, is in no new bucket, and stands in the tried bucket that its service selects, modulo 64. |
| AddrEffects.PromotedToRoom | src/addrman.cpp:204-229 | Promotion into a tried bucket with room adds the id at its end, takes it from every new bucket, and changes no other entry. |
| AddrEffects.PromotedByEviction | src/addrman.cpp:230-260 | Promotion into a full one exchanges one place; the entry evicted is new, with one reference, in the bucket its own source selects if that has room, or else in the one the promoted entry was found in. |
| AddrEffects.NothingToPromote | src/addrman.cpp:264-287 | Without a new entry of exactly this service, port included, no bucket changes. |
| AddrEffects.AttemptCounts | src/addrman.cpp:371-388 | An attempt sets the time and counts for exactly this service, and changes nothing else. |
| AddrEffects.SightingMoves | src/addrman.cpp:508-526 | A sighting moves the time of exactly this service, and only by more than twenty minutes. |
| AddrEffects.HandedOutCount | src/addrman.cpp:492-496 | The number handed out is the largest that is at most 2500 and at most 23 in a hundred. |
| AddrEffects.DrawExchanges | src/addrman.cpp:498-504 | Each draw exchanges the next place of the random order with the place drawn. |
| AddrEffects.TerribleWhen | src/addrman.cpp:39-59 | When an entry may be dropped, in seconds and attempts. |
| AddrCheck.Check | src/addrman.cpp:435-489 | The debug check, loop by loop, answers zero if and only if its clauses hold, for any tables. |
| AddrCheck.CheckEntries | src/addrman.cpp:440-462 | The pass over the entries finds a fault exactly when some entry fails its clauses. |
| AddrCheck.CheckTried | src/addrman.cpp:464-472 | The pass over the tried buckets finds a fault exactly when an id is repeated or not a tried entry. |
| AddrCheck.CheckNew | src/addrman.cpp:474-486 | The pass over the new buckets counts every reference down to what is left. |
| AddrCheck.ConsistentPasses | src/addrman.cpp:435-489 | Consistent tables pass the debug check. |
| AddrCheck.ConsistentIffPasses | src/addrman.cpp:435-489 | Tables are consistent if and only if they pass the debug check and satisfy what it leaves out: ids in range, no address without an entry, and the number, size and choice of buckets. |
| AddrDisk.ReadInvertsEncode | src/addrman.h:271-367 | Reading what was written gives consistent tables equal to the old ones up to renumbering: same key and tallies, every entry with its fields but `nLastTry`, the same members in every new and tried bucket; nothing is lost. |
| AddrDisk.ReadTables | src/addrman.h:327-366 | The reading loops compute the reading function, for any image. |
| AddrDisk.Write | src/addrman.h:287-326 | The writing loops, early exits included, write the encoding of consistent tables. |
| AddrDisk.RestoredIsConsistent | src/addrman.h:327-366 | What is read back satisfies the invariant. |
| AddrDisk.RoomForTried | src/addrman.h:345-363 | While the tried entries of consistent tables are read back, each finds its bucket with room. |
| AddrRebucket.RebucketedIsConsistent | src/addrman.h:327-366 | Consistent tables written with another number of new buckets are read back consistent if and only if every index in the bucket lists belongs to an entry and no bucket is selected by more than 64 new entries. |
| AddrRebucket.NothingLost | src/addrman.h:327-366 | Whatever the bucket lists say, every entry of such an image comes back with its fields but the last try, a new one with one reference. |
| AddrRebucket.CrowdedOverfills | src/addrman.h:334-338 | An image of 65 new entries that is read back with 65 entries in one bucket, so that the tables are not consistent. |
| AddrImage.ImageHolds | src/addrman.h:287-326 | What is written of consistent tables: the new and then the tried entries in ascending order of id, six fields each, and for each of 256 buckets the places of its members among the new entries, ascending. |
| AddrImage.AnyImageRead | src/addrman.h:327-366 | Any image with 256 bucket lists: a tried bucket takes the first 64 records that select it and the tally counts those taken; an index is counted as often as the lists name it, up to four, and put into each bucket that names it before the four are used up. |
| AddrImage.OtherImageRead | src/addrman.h:334-338 | Any image with another number of lists: each new record is in exactly the bucket that its own source selects. |
| AddrMan.AddressManager.Create | src/addrman.cpp:94-104 | The fields become those of the creation function. |
| AddrMan.AddressManager.SwapRandom | src/addrman.cpp:106-124 | Two places exchanged, back pointers included; the asserts hold. |
| AddrMan.AddressManager.SelectTried | src/addrman.cpp:126-148 | The bucket after all its redraws, in order, and the draw that fetched the oldest of the inspected entries; -1 for an empty bucket. |
| AddrMan.AddressManager.ShrinkNew | src/addrman.cpp:150-202 | One entry goes: a terrible one, or the oldest of four drawn; with its last reference it is deleted; the invariant survives with an uncounted reference pending. |
| AddrMan.AddressManager.MakeTried | src/addrman.cpp:204-260 | The fields become those of promotion with the choices the random draws made; from a full bucket the entry goes that the draws select. |
| AddrMan.AddressManager.FindBucket | src/addrman.cpp:289-305 | A new bucket that holds the id, or -1 if and only if there is none. |
| AddrMan.AddressManager.Good_ | src/addrman.cpp:262-311 | The fields become those of the specification step, with the eviction that the draws of a full tried bucket select. |
| AddrMan.AddressManager.Add_ | src/addrman.cpp:313-369 | The fields become those of the specification step, with the victim that a full bucket sheds: the first terrible entry, or the oldest of four drawn. What the step does is stated by the rows of `AddrEffects`. |
| AddrMan.AddressManager.GetAddr_ | src/addrman.cpp:492-506 | A partial shuffle of the random order and the addresses at its front. |
| AddrMan.AddressManager.Attempt_ | src/addrman.cpp:371-388 | The fields become those of the specification step. |
| AddrMan.AddressManager.Connected_ | src/addrman.cpp:508-526 | The fields become those of the specification step. |
| AddrMan.AddressManager.Check_ | src/addrman.cpp:435-489 | Zero for consistent fields, and the fields are as before. |
| AddrMan.AddressManager.Unserialize | src/addrman.h:327-366 | The fields become those read from the image. |
| CheckQueue.Queue.LoopHead | src/checkqueue.h:42-71 | Under the mutex: sleep, leave with the verdict, or take the first checks of the queue in order. |
| CheckQueue.HeadDoes | src/checkqueue.h:42-71 | When a thread sleeps, leaves or takes checks; the chunk is the front of the queue and the largest share that leaves as much for each worker and the master, up to the batch size, and at least one check. |
| CheckQueue.Queue.FinishChunk | src/checkqueue.h:80-89 | Counters after a chunk; the master is notified if and only if nothing is left to do. |
| CheckQueue.Queue.Add | src/checkqueue.h:110-126 | The checks go to the end of the queue and are counted. |
| CheckQueue.Queue.StartBatch | src/checkqueue.h:103-108 | Only the verdict and the count are reset. |
| CheckQueue.RunChunk | src/checkqueue.h:73-78 | The flag stays up if and only if it was up and every check of the chunk passes. |
| CheckQueueRuns.StepKeeps | src/checkqueue.h:33-140 | Every atomic step of every thread keeps the invariant, `StartBatch` when it finds `nTodo` zero. |
| CheckQueueRuns.RunsKeepInv | src/checkqueue.h:33-140 | In every interleaving in which `StartBatch` finds `nTodo` zero, spurious wake-ups and `Quit` included: `nTodo` is queued plus in flight, no counter goes below zero, checks are taken in the order they were added, each is queued, held or handed back; between batches the queue is empty, and without `Quit` `nTodo` is zero. |
| CheckQueueRuns.BeginCounts | src/checkqueue.h:103-108 | Between batches, after any such run: `StartBatch` keeps the count exact, and no run from there ever takes it below zero, if and only if `nTodo` is zero. |
| CheckQueueRuns.EachCheckHandedBack | src/checkqueue.h:42-89 | When `Wait` returns without `Quit`, every added check has been handed back as often as it was added. |
| CheckQueueRuns.Verdict | src/checkqueue.h:40-90 | Without `Quit`, `Wait` answers true if and only if every added check passes and no chunk was taken by a thread whose flag was already down; with no failure ever, it answers true. |
| CheckQueueRuns.SleepingMasterIsAwaited | src/checkqueue.h:42-65 | A master asleep without notification has a worker in flight. |
| CheckQueueRuns.LastChunkNotifies | src/checkqueue.h:80-89 | The thread that brings back the last chunk wakes the master, whose next step returns. |
| CheckQueueRuns.NeverStuck | src/checkqueue.h:42-89 | While the master waits, some thread has a step to do, or the master is notified. |
| CheckQueueRuns.WaitIsBounded | src/checkqueue.h:42-89 | A batch takes a bounded number of check and hand-back steps under every schedule. |
| CheckQueueRuns.FailureSticks | src/checkqueue.h:40-83 | A run in which a batch whose only check passes is answered false, because its worker's `fOk` fell in the batch before. |
| CheckQueueRuns.BatchAfterQuitUnderflows | src/checkqueue.h:103-139 | A run in which `StartBatch` after `Quit` resets the count under an in-flight chunk and `nTodo` then goes below zero. |
| Fugue.CaseIsRenamed | src/fugue.c:866-913 | The words named by each of the three cases are those of the reference round under a shift. |
| Fugue.CaseIsRound | src/fugue.c:413-438 | In every phase, a case of the engine is one reference round of the logical state, for any substitution layer. |
| Fugue.TixInput | src/fugue.c:413-420 | The input word replaces word 0 and is xored into word 8. |
| Fugue.TixWords | src/fugue.c:413-420 | Words 1 and 4 take in words 24 and 27. |
| Fugue.TixMoreWords | src/fugue.c:413-420 | Words 7 and 22 take in word 30 and the old word 0. |
| Fugue.TixOthers | src/fugue.c:413-420 | The other words stay. |
| Fugue.CmixWords | src/fugue.c:431-438 | Words 0, 1 and 2 take in words 4, 5 and 6. |
| Fugue.CmixHighWords | src/fugue.c:431-438 | So do words 18, 19 and 20. |
| Fugue.CmixOthers | src/fugue.c:431-438 | The other words stay. |
| Fugue.SmixWords | src/fugue.c:440-511 | The substitution layer replaces words 0 to 3 and nothing else. |
| Fugue.RorWords | src/fugue.c:956-961 | After a rotation by three, word i is the word three places below. |
| Fugue.SubRoundWords | src/fugue.c:866-874 | What goes into the substitution layer in one sub-round, from the words before it. |
| Fugue.SubRoundHighWords | src/fugue.c:866-874 | Words 18 to 20 after a sub-round. |
| Fugue.SubRoundOthers | src/fugue.c:866-874 | Every other word moves three places up. |
| Fugue.RoundMoves | src/fugue.c:866-881 | A round has four sub-rounds: a word that nothing is mixed into ends twelve places up. |
| Fugue.PackBytes | src/fugue.c:697-720 | The first of four message bytes is the highest byte of the word. |
| Fugue.KeptBits | src/fugue.c:947 | Of the byte of extra bits the first n are kept. |
| Fugue.PaddedShape | src/fugue.c:918-951 | After message and extra bits come fewer than four zero bytes up to a whole word, and the number of bits in eight bytes, the highest first. |
| FugueEngine.EngineRuns | src/fugue.c:863-916 | The three cases together carry out the reference round. |
| FugueEngine.Context.Update | src/fugue.c:697-740 | After any update the logical state is the reference state of all words absorbed so far; the pending bytes, the phase and the bit counter are those of the whole message. |
| FugueEngine.Absorbed | src/fugue.c:697-740 | How many words are absorbed: a full pending word waits for more input, and an empty update counts as more. |
| FugueEngine.Tail | src/fugue.c:918-951 | Padding and length laid out in the buffer, for every number of pending bytes and extra bits. |
| FugueEngine.RealignIsRot | src/fugue.c:952-954 | Moving the last words to the front undoes the renaming. |
| FugueEngine.Context.Close | src/fugue.c:933-954 | The realigned words are the reference state over message bits, zero padding and 64-bit length. |
| FugueEngine.Digest | src/fugue.c:863-954 | Any split of a message into chunks, empty ones included, gives the reference state of the padded message. |
| Blake.Engine.Update | src/blake.c:800-836 | An update computes the feeding function: whole blocks absorbed, the rest pending. |
| Blake.FeedFeed | src/blake.c:800-836 | Two updates are one update with both pieces, so chunks do not matter. |
| Blake.UpdateAll | src/blake.c:800-836 | Any list of chunks has the effect of their concatenation. |
| BlakeClose.TailIsPadding | src/blake.c:852-886 | Bit for bit, what `close` appends is a one, the fewest zeros, the mark bit and the length. |
| BlakeClose.PaddingFills | src/blake.c:852-886 | Message and padding fill whole 512-bit blocks with the fewest zeros. |
| BlakeClose.PadBytes | src/blake.c:854-855 | The last byte, for each number of extra bits: these bits, a one, and zeros. |
| BlakeClose.CountsAre | src/blake.c:856-866 | Every block of the specification is compressed under the message bits up to its end, or zero when it has none. |
| BlakeClose.TickCounts | src/blake.c:827-829 | The two counter words go up by 512 with carry, modulo 2^64. |
| BlakeClose.SetCounts | src/blake.c:856-866 | What `close` stores in the counter words becomes, after the engine's own addition, the true bit count, or zero for a block without message bits, in every wrap-around case. |
| BlakeClose.BlocksCount | src/blake.c:800-836 | Whole blocks are compressed under the counts of the specification. |
| BlakeClose.Close | src/blake.c:838-889 | The final chaining value is that of the specification over the padded message, one or two last blocks included. |
| CubeHash.MacroIsRound | src/cubehash.c:267-463 | A macro whose word tables follow the swaps is a reference round with all four swaps performed. |
| CubeHash.HalfRoundWords | src/cubehash.c:267-314 | Word by word, the first half of the reference round: sums, rotations by seven, and the swaps eight and two places off. |
| CubeHash.RoundWords | src/cubehash.c:315-364 | Word by word, the second half: rotations by eleven, and the swaps four and one places off. |
| CubeHash.EngineArithmetic | src/cubehash.c:267-530 | The engine rotates words of 32 bits to the left by seven and eleven places, for sixteen rounds. |
| CubeHash.EvenTables | src/cubehash.c:267-364 | The words named by ROUND_EVEN follow the swaps of one round. |
| CubeHash.OddTables | src/cubehash.c:366-463 | The words named by ROUND_ODD follow the swaps of the next round and end in place. |
| CubeHash.EvenOddIsTwoRounds | src/cubehash.c:267-463 | ROUND_EVEN then ROUND_ODD equals two reference rounds, for every state and any word arithmetic. |
| CubeHash.SixteenRounds | src/cubehash.c:465-530 | On 32-bit words, SIXTEEN_ROUNDS is sixteen reference rounds from every state. |
| CubeHash.RunRounds | src/cubehash.c:465-530 | Any number of pairs of macros, eight in SIXTEEN_ROUNDS, are twice as many reference rounds. |
| Base64.EncodeBase64 | src/util.cpp:629-672 | The loop with its bit buffer computes the encoding of any bytes. |
| Base64.DecodeBase64 | src/util.cpp:680-761 | The loop and its final test deliver the leading sextets as bytes and say when the text is invalid. |
| Base64.DecodesIff | src/util.cpp:680-761 | A text decodes to some bytes if and only if it starts with their one encoding and no character of the alphabet comes next. |
| Base64.DecodeEncode | src/util.cpp:629-761 | Decoding inverts encoding. |
| Base64Text.EncodedGroups | src/util.cpp:629-672 | Group by group, as RFC 4648 has it: 24 bits, the highest first, cut into four letters; one or two bytes at the end are filled with zero bits and padding characters. |
| SignedText.FindsSegment | src/checkpointpublisher.cpp:254-267 | A search for a quoted key finds the first text between two quotes that equals it. |
| SignedText.StringField | src/checkpointpublisher.cpp:254-267 | What the string extractor returns for a field of a document cut at its quotes. |
| SignedCheckpoints.EntryRoundTrip | src/checkpointpublisher.cpp:231-267 | A printed entry reads back as itself. |
| SignedCheckpoints.BodySplits | src/checkpointpublisher.cpp:195-227 | The printed array splits back into the printed objects. |
| SignedCheckpoints.RoundTrip | src/checkpointpublisher.cpp:137-374 | Any non-empty list of good entries, published with 65 bytes that recover the trusted key from its canonical message, is accepted and read back exactly. |
| SignedCheckpoints.TextRoundTrip | src/checkpointpublisher.cpp:137-374 | The same for any text of the signature that the verifier accepts and that holds no quote. |
| SignedCheckpoints.SignatureLength | src/key.cpp:307-309 | A text that passes as a signature has at least 88 characters, because its base64 form must be of 65 bytes. |
| SignedCheckpoints.SerializeInjective | src/checkpointpublisher.cpp:116-128 | The canonical message determines the list. |
| SignedCheckpoints.AcceptedIsSigned | src/checkpointpublisher.cpp:269-374 | For any text: accepted entries are well formed and not empty, and the trusted signer signed exactly their canonical message. |
| SignedCheckpoints.MessageDecides | src/checkpointpublisher.cpp:269-374 | Two accepted documents carry the same entries if and only if they carry the same message. |
| SignedScan.ExtractJsonString | src/checkpointpublisher.cpp:254-267 | The scanning loop computes the extractor function. |
| SignedScan.ExtractJsonInt | src/checkpointpublisher.cpp:231-249 | The digit loop, with 32-bit wrap-around, computes the extractor function. |
| SignedScan.ExtractJsonObjectArray | src/checkpointpublisher.cpp:195-227 | The loop that matches braces computes the extractor function. |
| SignedScan.SerializeEntriesForSigning | src/checkpointpublisher.cpp:116-128 | The printing loop computes the canonical message. |
| SignedLiteral.SerializeMore | src/checkpointpublisher.cpp:116-128 | One entry more goes behind the others after a semicolon, as height, hash and time with colons between. |
| SignedLiteral.SerializeFirst | src/checkpointpublisher.cpp:116-128 | The first entry stands alone, without a semicolon. |
| SignedLiteral.DecimalDigits | src/checkpointpublisher.cpp:121-125 | Numbers are printed in decimal, the highest digit first, without leading zeros. |
| SignedLiteral.DigitsRead | src/checkpointpublisher.cpp:241-246 | A run of digits of any length is read as its value modulo 2^32, with a sign. |
| SignedLiteral.IntField | src/checkpointpublisher.cpp:231-249 | An integer field: the quoted name, any blanks, tabs and colons, then its digits. |
| SignedLiteral.TextField | src/checkpointpublisher.cpp:254-267 | A string field: the same before a quote, then the text up to the next quote. |
| SignedLiteral.ObjectText | src/checkpointpublisher.cpp:176-178 | The text printed for one entry. |
| SignedLiteral.DocumentText | src/checkpointpublisher.cpp:170-184 | The text of the whole document around the lines of its entries. |
| SignedLiteral.BodyLines | src/checkpointpublisher.cpp:175-181 | Each entry on a line of its own after four blanks, with a comma on every line but the last. |
| SignedLiteral.FirstReason | src/checkpointpublisher.cpp:269-330 | The first test that fails names the reason: fields, trusted address, signature of 65 bytes, entries. |
| SignedLiteral.EntriesDecide | src/checkpointpublisher.cpp:330-374 | Then the verdict: a bad entry if some object is not acceptable, a mismatch if their canonical message is not the signed one, and acceptance of exactly what is read of them. |
| SignedScan.BuildSignedCheckpointsJson | src/checkpointpublisher.cpp:137-187 | Errors exactly for missing parts; otherwise the document of the entries sorted newest first, which are the given ones when they were so ordered. |
| SignedScan.OneOrder | src/checkpointpublisher.cpp:161-166 | A strictly descending list is the only descending order of its entries. |
| SignedScan.VerifySignedCheckpoints | src/checkpointpublisher.cpp:269-374 | The verifier, check by check, base64 and the length of the signature included, computes the verdict function. |
| SyncCheckpoints.AncestorAtHeight | src/checkpoints.cpp:240-263 | A block is an ancestor if and only if walking down to its height reaches it. |
| SyncCheckpoints.Checkpoints.ValidateSyncCheckpoint | src/checkpoints.cpp:228-268 | True if and only if the current checkpoint is a proper ancestor of the received one; marked invalid if and only if the two are incomparable; null parents are never met. |
| SyncCheckpoints.DecisionIsAncestry | src/checkpoints.cpp:228-268 | Accepting, ignoring and marking invalid are exactly the three ways two checkpoints can lie. |
| SyncCheckpoints.Checkpoints.AcceptPendingSyncCheckpoint | src/checkpoints.cpp:286-327 | The new state for every outcome of validation, disk and best-chain switch. |
| SyncCheckpoints.PendingDecided | src/checkpoints.cpp:286-327 | When the pending checkpoint becomes the current one, when it is dropped, and when it is held invalid, in terms of ancestry and of what the disk does. |
| SyncCheckpoints.Checkpoints.WriteSyncCheckpoint | src/checkpoints.cpp:270-284 | Memory changes only when the database did. |
| SyncCheckpoints.Checkpoints.AutoSelectSyncCheckpoint | src/checkpoints.cpp:330-337 | The first block below the tip that is old and deep enough, or the root. |
| SyncCheckpoints.StepMovesForward | src/checkpoints.cpp:286-327 | A step keeps the checkpoint or moves it to a proper descendant, and disk and memory agree. |
| SyncCheckpoints.RunMovesForward | src/checkpoints.cpp:228-327 | Over any run, new blocks and failures included, the checkpoint only moves to descendants. |
| UtxoRebuild.Rebuild.ProcessTx | src/init.cpp:1563-1601 | One transaction: its outputs are written, then its inputs erased. |
| UtxoRebuild.Rebuild.Run | src/init.cpp:1545-1620 | The loop over the blocks computes the final slot of every outpoint, also when it stops early: at the first block that cannot be read, genesis aside, or at the first request to stop. |
| UtxoRebuild.LastTouchDecides | src/init.cpp:1563-1601 | For any chain, the last transaction that touches an outpoint decides its slot. |
| UtxoRebuild.CreatedIffUnspent | src/init.cpp:1545-1620 | For a valid chain, an output that is not empty is in the database, as the chain made it, if and only if it is never spent, whatever was there before. |
| UtxoRebuild.RebuildIsExact | src/init.cpp:1535-1612 | The database ends up as exactly the outputs that some transaction creates and none spends if and only if every entry it held before belongs to an outpoint of the chain: nothing is cleared first. |
| UtxoRebuild.SpentIsGone | src/init.cpp:1590-1599 | On a valid chain no input of a transaction is left in the database, coinstakes included; only a coinbase's inputs are passed over. |
| UtxoRebuild.RebuiltIsUnspent | src/init.cpp:1535-1612 | The database is exactly the outputs, not empty, that no input names, with value, script, height, the two flags and time, if and only if every entry it held before stands for an output of the chain. |
| UtxoRebuild.LastUseDecides | src/init.cpp:1563-1601 | On any chain: the last transaction that makes or names an outpoint decides, and its input wins over its output. |
| UtxoRebuild.EveryTransactionPlaced | src/init.cpp:1545-1567 | All transactions of all blocks but the one at height zero, in order, each with the height of its block. |
| UtxoRebuild.StaleEntryStays | src/init.cpp:1535-1612 | A chain of one transaction and a stale entry that survives the rebuild. |
| Recovery.ContainedSameSize | src/chaindb_migrate.cpp:49-74 | A copy contained in its source with as many records is its source. |
| Recovery.MigrationKeeps | src/chaindb_migrate.cpp:78-261 | Each step, crashes and lost records included, keeps an unfinished copy marked, and made of source records and of its own version record. |
| Recovery.BootDecides | src/init.cpp:1359-1417 | A copy is started exactly when there is a source, no complete copy is in the way unless it is forced, and it was asked for or RocksDB was chosen without a complete database. |
| Recovery.LoadDecides | src/init.cpp:1418-1473 | An unfinished copy is not opened; an unfinished reindex is refused without another reindex, which needs the block files and leaves its marker first. |
| RecoveryRuns.MigrationRun | src/chaindb_migrate.cpp:78-261 | So does every run, with crashes, lost records and restarts at any point and any arguments. |
| RecoveryRuns.UnmarkedIsComplete | src/chaindb_migrate.cpp:190-251 | In every run, a step that takes the migration marker off a directory leaves the source as it was, and the directory equal to it if and only if the two version records agree; they do when the source is of the version asked for. |
| RecoveryRuns.NewerVersionDiffers | src/txdb-rocksdb.cpp:263-269 | A run in which the version record of a newer source is lost on the way, and the copy, which differs, is loaded as complete. |
| RecoveryRuns.SourceStays | src/txdb-leveldb.cpp:90-112 | A start with RocksDB leaves the LevelDB directory alone at every step, except that opening a source of an older version empties it. |
| RecoveryRuns.OlderSourceIsEmptied | src/txdb-leveldb.cpp:95-110 | A run in which a source of an older version is emptied, and the empty copy is loaded as complete. |
| Recovery.CopyIsWhole | src/chaindb_migrate.cpp:49-76 | A copy with as many records as its source equals it if and only if their version records agree; they do when the source is of the version asked for. |
| Recovery.ReindexKeeps | src/init.cpp:1418-1473 | Every step keeps every unfinished reindex marked, except that removing the marker does so if and only if the other backend's directory is not itself left over from a reindex. |
| RecoveryRuns.FixedKeeps | src/init.cpp:1359-1473 | With one backend every step keeps that backend's unfinished reindex marked. |
| RecoveryRuns.OneBackendIsSafe | src/init.cpp:1359-1479 | Over any number of startups and crashes with one backend and any other arguments, normal loading never meets a database that a reindex or a migration left unfinished. |
| RecoveryRuns.CarefulIsSafe | src/init.cpp:1359-1479 | The same with backends switched at will, as long as a start that finds the reindex marker keeps the backend of the start before and does not ask to migrate the LevelDB it rebuilds. |
| RecoveryRuns.MarkerRemoval | src/init.cpp:1463-1473 | After any run, careful or not: once a reindex has removed the marker, some run that is careful from then on loads a half-rebuilt database if and only if the other backend's directory is left over from a reindex and, for RocksDB, carries no migration marker. |
| RecoveryRuns.SwitchingBackendsLoadsPartial | src/init.cpp:1418-1473 | A run with two backends in which the only reindex marker is removed by the other backend's reindex, and normal loading then opens the half-rebuilt database. |
| FeeEstimator.PerKb | src/feeestimator.cpp:54-60 | The fee per thousand bytes, rounded up. |
| FeeEstimator.SortCounts | src/feeestimator.cpp:121-137 | Sorting leaves the number of samples below and up to any value unchanged. |
| FeeEstimator.PutCounts | src/feeestimator.cpp:83-86 | Sealing a block changes the number of stored samples by its own and by those it replaces. |
| FeeEstimator.EstimateIsOrderStatistic | src/feeestimator.cpp:173-192 | The sample chosen is the order statistic at the rank taken; `EstimateIsPercentile` says which rank. |
| FeeEstimator.EstimateIsPercentile | src/feeestimator.cpp:140-199 | The fee is the one sample at percentile 90 for one block, ten less for each block more, ten from nine on, or the floor; zero targets mean six blocks; it is zero with fewer than ten blocks or fifty samples. |
| FeeEstimator.OnePercentile | src/feeestimator.cpp:173-192 | There is only one such sample. |
| FeeEstimator.SamplesInOrder | src/feeestimator.cpp:121-137 | The samples are those of all records, one record after the other. |
| FeeEstimator.SampleCounts | src/feeestimator.cpp:39-63 | A transaction's fee for a thousand bytes, rounded up, joins its block's samples; another block's first one drops what was not sealed. |
| FeeEstimator.SealedWindow | src/feeestimator.cpp:69-118 | After sealing, the records are those of the last `maxBlocks` heights, with the sorted samples in place of what the height held. |
| FeeEstimator.ResizedWindow | src/feeestimator.cpp:216-228 | After resizing, those of the new window below the highest record. |
| FeeEstimator.EstimateFloor | src/feeestimator.cpp:140-199 | The estimate is zero or at least the minimum fee; zero means too few blocks or samples. |
| FeeEstimator.EstimateFalls | src/feeestimator.cpp:140-199 | The estimate never rises with the target, for targets of at least one. |
| FeeEstimator.Estimator.EstimateFee | src/feeestimator.cpp:140-199 | The answer is the estimate computed afresh from all stored blocks, whatever the cache held. |
| FeeEstimator.Estimator.EndBlock | src/feeestimator.cpp:69-96 | The accumulated block is sealed under its height and the window pruned, or nothing happens; the cache and the total stay true. |
| FeeEstimator.Estimator.PruneOldBlocks | src/feeestimator.cpp:99-118 | Exactly the records from the lowest height of the window on stay. |
| FeeEstimator.Estimator.RecordTransaction | src/feeestimator.cpp:39-63 | The sample joins those of its block, or starts a new block. |
| FeeEstimator.Estimator.SetMaxBlocks | src/feeestimator.cpp:216-228 | The window is pruned from its highest block. |
| FeeEstimator.TotalDrifts | src/feeestimator.cpp:83-113 | After any series of calls the running total exceeds the stored samples by all that was ever sealed over. |
| FeeEstimator.TotalIsExact | src/feeestimator.cpp:83-113 | After any series of calls the running total is the number of stored samples if and only if no call sealed a height that still had samples. |
| FeeEstimator.SealTwice | src/feeestimator.cpp:39-96 | A run: two blocks of one transaction sealed at one height, one sample stored and two counted. |
| Positional.ConvertInverts | src/base58.h:27-121 | Changing base there and back, leading zeros kept, is the identity. |
| Base58.DecodeEncode | src/base58.h:27-121 | Decoding inverts encoding for every byte string, with any white space around the text. |
| Base58.EncodeDecode | src/base58.h:27-121 | Encoding inverts decoding for every string over the alphabet. |
| Base58.DecodesIff | src/base58.h:77-121 | What decodes is white space, characters of the alphabet and white space, up to the first NUL. |
| Base58.EncodedLength | src/base58.h:42-46 | The text never exceeds n * 138 / 100 + 1 characters. |
| Base58.CheckRoundTrip | src/base58.h:134-162 | Decoding with checksum inverts encoding with checksum. |
| Base58.CheckAcceptsOnlyEncodings | src/base58.h:134-162 | A string over the alphabet passes the checksum if and only if it is the encoding of what it decodes to. |
| Base58.AlphabetIs | src/base58.h:24 | The alphabet: digits and letters without 0, O, I and l. |
| Base58.AlphabetInOrder | src/base58.h:24 | Their places follow their character codes, from zero to 57. |
| Base58.EncodedNumber | src/base58.h:27-65 | The text is the bytes' number in base 58 behind one '1' for every leading zero byte. |
| Base58.CheckedText | src/base58.h:134-141 | With a checksum the text stands for the bytes and the first four bytes of their hash. |
| Base58.CheckedBytes | src/base58.h:144-162 | A text passes as some bytes exactly when it stands for them and those four bytes. |
| Base58Codec.EncodeBase58 | src/base58.h:27-65 | The division loop, the leading zeros and the reversal compute the encoding. |
| Base58Codec.DecodeBase58 | src/base58.h:77-121 | The multiplication loop, the sign-byte trimming and the leading zeros compute the decoding. |
| Base58Codec.TrimmedForm | src/base58.h:105-110 | Without its sign byte a big integer's byte form is its digits. |
| Mpi.MpiRoundTrip | src/bignum.h:307-340 | Reading the byte form of any integer gives the integer. |
| Mpi.EmittedValue | src/bignum.h:192-208 | The hand-built form, leading zeros dropped and sign placed, decodes to the exact number. |
| Mpi.SetInt64 | src/bignum.h:174-216 | The buffer built for any 64-bit signed number, the smallest included, decodes to it. |
| Mpi.SetUint64 | src/bignum.h:234-260 | The buffer built for any 64-bit number decodes to it. |
| Mpi.SetUint256 | src/bignum.h:262-289 | The buffer built for any 256-bit number decodes to it. |
| Mpi.GetLow | src/bignum.h:218-232 | The lowest bytes of the magnitude: the magnitude itself whenever it fits. |
| Mpi.CompactIdempotent | src/bignum.h:342-369 | Going through the compact form twice is going through it once. |
| Mpi.CompactLoss | src/bignum.h:342-369 | Going through the compact form loses less than the weight of the third byte of the form, and nothing when there are at most three. |
| Mpi.CompactMonotone | src/bignum.h:342-369 | The compact form, and going through it, keep the order of numbers. |
| Mpi.CompactFits | src/bignum.h:363-368 | A form of at most 255 bytes has a compact form in 32 bits. |
| MpiForm.FormIs | src/bignum.h:307-340 | The byte form: the sign in the highest bit, the magnitude highest byte first, and no byte too many. |
| MpiForm.GetCompactIs | src/bignum.h:355-369 | The compact form of a positive number: its size times 2^24 and its highest 24 bits, shifted up if it has fewer than three bytes. |
| MpiForm.GetCompactNegative | src/bignum.h:355-369 | A negative number has the same with bit 23 set. |
| MpiForm.SetCompactIs | src/bignum.h:342-353 | The number of any compact form: 23 bits of magnitude shifted by the size, and the sign. |
| Der.AcceptsExactly | src/crypto_ecdsa.cpp:42-135 | The reader accepts exactly the inputs of a grammar: sequence tag, a length nobody checks, two integers with short or long lengths of any padding, anything after. |
| Der.EncodingParses | src/crypto_ecdsa.cpp:42-135 | For every input of the grammar the answer depends on the two contents alone. |
| Der.CompactIsValues | src/crypto_ecdsa.cpp:109-134 | The answer is the two numbers if and only if both are below the order of the curve; otherwise a signature that never verifies. |
| Der.DerRoundTrip | src/crypto_ecdsa.cpp:42-135 | Every pair of numbers below the order, written in strict DER, reads back as itself, whatever follows. |
| Der.ParseDerLax | src/crypto_ecdsa.cpp:42-135 | The reader with its moving position computes the parsing function and never reads out of bounds. |
| Der.LengthAt | src/crypto_ecdsa.cpp:73-85 | A length field; its accumulator stays below 2^56. |
| Der.RightAligned | src/crypto_ecdsa.cpp:109-124 | Leading zeros stripped and the rest placed at the end of 32 bytes, when it fits. |
| Der.Import | src/crypto_ecdsa.cpp:355-389 | The key reader, check by check, computes the import function. |
| Der.ImportInvertsExport | src/crypto_ecdsa.cpp:324-389 | Import inverts export in both layouts for every valid key and refuses every other. |
| DerForm.ShortLength | src/crypto_ecdsa.cpp:42-135 | A length below 128 is its own byte. |
| DerForm.LongLength | src/crypto_ecdsa.cpp:42-135 | A long length is the value of the bytes that follow, leading zeros and all, if it is below 2^56. |
| DerForm.SignatureRead | src/crypto_ecdsa.cpp:42-135 | Two tagged integers in a tagged sequence read as their values, highest byte first, if both are below the order. |
| DerForm.ImportsExactly | src/crypto_ecdsa.cpp:355-389 | A key is read exactly from a template with one to three bytes of outer length that holds a valid key. |
| Mnemonic.GeneratedPasses | src/hdwallet.cpp:63-132 | The indices of any entropy pass the check and carry that entropy, for any hash function. |
| Mnemonic.PassesIffGenerated | src/hdwallet.cpp:96-132 | Indices pass if and only if they encode some entropy, and then exactly one; for 12, 15, 18, 21 and 24 words. |
| MnemonicNumber.PhraseNumber | src/hdwallet.cpp:63-94 | Read in base 2048 the words are the entropy, of four thirds of a byte a word, followed by the first bits of its hash, one for every three words. |
| MnemonicText.WordIndex | src/hdwallet.cpp:36-46 | Binary search finds the place of a word, or -1 if and only if it is not in the list. |
| MnemonicText.SplitJoin | src/hdwallet.cpp:48-60 | Words joined by blanks split back into the words. |
| MnemonicText.SplitWords | src/hdwallet.cpp:48-60 | The scanning loop computes the splitter. |
| MnemonicText.GapsSeparate | src/hdwallet.cpp:48-60 | A word ends at any run of blanks, tabs and line ends, which may also come before it. |
| MnemonicText.JoinMore | src/hdwallet.cpp:84-93 | Words are printed in order with one blank between them. |
| MnemonicText.GenerateMnemonic | src/hdwallet.cpp:63-94 | The bit loops print the phrase of the entropy; any strength but 128 means 256. |
| MnemonicText.CheckMnemonic | src/hdwallet.cpp:96-132 | The bit buffer loops answer true if and only if the text is accepted. |
| MnemonicText.GeneratedAccepted | src/hdwallet.cpp:63-132 | The phrase of any entropy is accepted, whatever the hash function. |
| MnemonicText.AcceptedIsOnePhrase | src/hdwallet.cpp:96-132 | Text is accepted if and only if its words are the phrase of some entropy, and then of exactly one. |
| MnemonicBits.SetOf | src/hdwallet.cpp:113-118 | Setting a clear bit of the buffer sets that bit of the row and no other. |
| MnemonicBits.BitOf | src/hdwallet.cpp:84-89 | Shift and mask read the bit at its place in the row. |

## Left out

- `Select_` and `GetChance` of the address manager: floating point and a loop that ends with probability one.
- The byte layout of addresses, keys and integers inside the address manager's stream: an image is a list of records.
- An image with more bucket lists than there are new buckets: the reader takes a reference past its table (`src/addrman.h:363`) and never uses it.
- The width of ids and counters of the address manager; `nTime` is kept as an unsigned 32-bit value, service flags as a set.
- `CCheckQueueControl`: it calls `StartBatch`, `Add` and `Wait` in order. Whether a sleeping worker is ever woken is not modelled, only that the master needs none.
- Checks are values that know their answer; a check that throws or never ends is not modelled.
- Fugue-224, 256 and 384: the same shape with other tables. The final rounds of `fugue4_close` rotate the words as the reference does and are not modelled; nor are the tables of `SMIX`.
- BLAKE-384 and 512: the same code on wider words. The compression functions and the output bytes are not modelled.
- CubeHash: the word tables of the macros are kept as written, and a loop over a table stands for the sixteen lines of a pass. Buffering and the final rounds are not modelled.
- Groestl, BMW, Hamsi and ECHO.
- Signed checkpoints: address decoding and key recovery are one predicate on address, message and the 65 bytes of the signature. The in-memory cache and the download are left out.
- The rest of `src/base58.h`: version bytes and address classes.
- Big-number arithmetic itself: big integers are integers.
- DER: the curve check is a comparison with the order for signatures and a predicate for keys; the rest of the key templates after the key is any bytes.
- Mnemonic seeds, key derivation, and a random source that fails.
- Sync checkpoints: relaying, resetting and sending. A block's hash is its key in the index.
- UTXO rebuild: a write to the database that fails, and progress output.
- Recovery: creating a directory with its marker and version record, opening the source of a migration, and removing a tree during migration are single steps; an interrupted removal during a reindex is modelled.
- Fee estimator: 64-bit overflow of a fee times a thousand, the width of the counters, and locking.
- Networking, wallet, consensus and database wrappers are not part of this model.
