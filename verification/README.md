# kestrel64: a verified model of its core

kestrel64 emulates a console whose processors run on threads of the host, and promises that what the guest sees
depends on guest time alone, never on how fast the host is. This project models the parts of its core where that
promise, or a bit-exact format, is hard to keep, and proves that they keep it.

| files | what they model |
|---|---|
| `arithmetic` | the laws of multiplication and division that several of the others use |
| `bitstream`, `huffman`, `deflate`, `inflate`, `grammar`, `streams`, `sample` | the DEFLATE decoder, a specification of RFC 1951 as an encoder, and the proof that the decoder accepts exactly what the encoder writes, up to two exactly described departures |
| `little_endian`, `rewind_codec`, `rewind_sink`, `rewind_literals`, `rewind_engine` | the rewind tape: one delta decoder, two encoders (one of them overwriting the old snapshot as it goes, and which bytes it copies), the bounded tape, whole runs |
| `dma_spec`, `dma_copy`, `dma_regs`, `dma_log`, `dma_run`, `dma_time`, `rdp_snapshot` | deferred DMA: what the registers ask for, the log, its payload ring and page index, settling, whole interleavings against a machine that defers nothing, exactly when the interleaving does not show, and the command-list copy that races with the log |
| `pace`, `sp_barrier` | division by a reciprocal, conversion between the two clocks, the barrier that holds the CPU behind the signal processor, end-of-task interrupts |
| `rdp_queue` | the display processor's job queue: producer, worker, wake-ups, generations of command buffers |
| `dp_schedule`, `dp_engine` | the display processor's timetable: a ring of dated spans, cursors, the read pointer, the prediction of the next change |
| `ai_dac`, `vi_beam` | the audio and video deadlines |
| `sp_signals`, `sp_run` | the undo log of SP_STATUS signal writes, and whole runs of it under any interleaving |
| `fat_volume`, `fat_dir`, `fat_card`, `fat_reader` | the synthetic FAT32 volume over a host folder, and an independent reader of it |

**How to read it.** Code that updates state is a class with the source's fields, or a method with the source's
loops, proved against functions that say what the result means; the theorems are about those functions and over
whole runs (`DmaRun.Run`, `DmaTime.RunInGuestTime`, `RdpQueue.Run`, `RewindEngine.Run`, `SpBarrier.Run`,
`ViBeam.Vi.Run`, `SpRun.Run`, `AiDac.LooksLeaveNoTrace`, `FatReader.ThereAndBack`). A class's `Valid()` is the
invariant that every operation keeps. `hide` in a proof only keeps it quick, and no proof relies on Dafny's automatic
induction. Numbers are unbounded naturals except where width is the point; machine widths are written out as
remainders.

**Where the code is not quite what it promises**, the condition is proved and a concrete input given:

- a dynamic DEFLATE block with an over-subscribed distance tree is accepted, because the result of building that tree
  is ignored, and one with 31 or 32 distance lengths, which RFC 1951, section 3.2.7, allows, is refused
  (`DeflateStreams.ProgramIsFormat`, `DeflateStreams.AcceptedStreams`; `DeflateStreams.OverfullTreeIsAccepted`,
  `DeflateStreams.ManyDistancesAreRefused`);
- reciprocal division is one too high when the operand times the rounding is exactly 2^79 and the operand is one short
  of a multiple of the divisor (`Pace.PaceDiv.DivIs`, `Pace.TooHigh`), although the comment at
  src/core/memory.hpp:1494-1498 calls the fast path exact there too; which divisors are affected is told from the
  divisor alone (`Pace.PaceDiv.SharpIsExact`), and the console's own are not (`Pace.StockIsSharp`);
- with the default lead of 512 operations (src/core/memory.cpp:5208-5216) the CPU can be past the instant with which the
  signal processor stamps a transfer, although the comment at src/core/memory.hpp:517-519 says that it never is: loads
  are not stopped, only stores that reach RDRAM. Such a transfer takes place at once, and a load that has gone by its
  instant has missed it (`DmaTime.LateTransfer`, on an interleaving that `SpBarrier.RunsAhead` reaches). The host does
  not show exactly when no late transfer brings, to a byte that the CPU has looked at since, anything but what it found
  or left there (`DmaTime.GuestTimeIff`, `DmaTime.InterleavingsAgree`); without a lead there is no late one
  (`DmaTime.AheadPasses`, `SpBarrier.Rcp.LooksAreBehind`);
- when DPC_END moves back, what is painted can differ from what was launched, either because a span is joined to one
  that runs the other way or because its copy goes under a job that is still being painted
  (`RdpQueue.Run`, `RdpQueue.SubmissionKeeps`, `RdpQueue.JoiningKeeps`; `RdpQueue.OpposedEndLosesCommands`,
  `RdpQueue.SecondCopyUnderLiveJob`);
- a scan cursor that outlives a reset of the timetable can skip a span (`DpSchedule.CursorIsSound`;
  `DpSchedule.StaleCursor`);
- when 256 spans are still to come and all that are seen have ended, an idle DPC_CURRENT reads the end of the newest span
  instead of the last one seen, which the ring no longer holds (`DpEngine.Engine.CurrentIs`; `DpEngine.LappedRing`);
- a look at the audio DAC voids the fraction of a byte left when the queue ran dry (`AiDac.PlaySplit`;
  `AiDac.LookCanMatter`);
- a signal-processor write reaches through pending CPU writes for the signals that it flips and for no others
  (`SpSignals.FlipIsSeen`; `SpSignals.SettingWhatIsSetIsNotSeen`).

The whole project: `dafny verify dfyconfig.toml`.

## Model

| member | source | states |
|---|---|---|
| `BitStream.Bits.Get` | src/core/archive.cpp:14-23 | The next `need` bits of the least-significant-bit-first stream as a number, and exactly those are consumed; if the stream ends first, 0, nothing consumed that a later reader could see, and a sticky error. With `Valid`, fewer than 8 bits are held between reads. |
| `BitStream.Bits.Align` | src/core/archive.cpp:24 | The reader stands at the next byte boundary of the stream: whole bytes already fetched are given back. |
| `BitStream.LsbBitsAreRead` | src/core/archive.cpp:20-22 | Reading n bits gives v exactly when the bits there are v written least significant bit first. |
| `BitStream.TakeLow` | src/core/archive.cpp:20-21 | Masking and shifting the accumulator takes the first m bits of the stream and leaves the following ones. |
| `Huffman.Build` | src/core/archive.cpp:35-50 | A table is built exactly for the length lists that have some code and whose Kraft sum (symbol by symbol) is at most 1; the counts are right in every case, the symbols sorted by (length, symbol) when it is built and all zero otherwise. |
| `Huffman.CheckKraft` | src/core/archive.cpp:40-45 | The running `left` test, length by length, decides over-subscription as defined by the Kraft sum over the symbols. |
| `Huffman.FillSymbols` | src/core/archive.cpp:46-48 | Every symbol with a code lands in its own slot of the table. |
| `Huffman.DecodesCanonicalCodes` | src/core/archive.cpp:52-64 | RFC 1951, section 3.2.2: for a list that is not over-subscribed, symbol s is read with l bits if and only if l is its length and the next l bits are its canonical code. |
| `Huffman.NoLevel` | src/core/archive.cpp:52-64 | When no length up to the end of the stream, or up to 15, opens a code, nothing is decoded. |
| `Huffman.CodesInOrder` | src/core/archive.cpp:35-64 | The two rules of RFC 1951, section 3.2.2: codes of one length follow one another in the order of the symbols, and a shorter code, however it is continued, comes before a longer one. |
| `Huffman.Decode` | src/core/archive.cpp:52-64 | The loop reads exactly the symbol of the specification and its bits, and -1 when there is none or the stream ends; its table index is never out of range, not even with a table that could not be built. |
| `Inflate.LengthBases` | src/core/archive.cpp:66 | The table of length bases is the closed form of RFC 1951, section 3.2.5. |
| `Inflate.DistanceBases` | src/core/archive.cpp:68 | The table of distance bases likewise. |
| `Inflate.ExtraTables` | src/core/archive.cpp:67-69 | Both tables of extra bits likewise. |
| `DeflateStreams.LengthRangesTile` | src/core/archive.cpp:66-67 | The first 28 length symbols with their extra bits cover 3 to 258 once each and in order; symbol 285 is a second name for 258. |
| `DeflateStreams.DistanceRangesTile` | src/core/archive.cpp:68-69 | The 30 distance symbols cover 1 to 32768 once each and in order. |
| `Inflate.CopyBack` | src/core/archive.cpp:184-185 | The copy from a fixed start appends, one by one, the byte `d` places back, also where it overlaps what it has just written. |
| `DeflateStreams.CopyIsPeriodic` | src/core/archive.cpp:184-185 | Byte k of a match is byte k mod d of the last d bytes before it. |
| `Inflate.Stored` | src/core/archive.cpp:115-124 | A stored block is accepted exactly when its header and bytes fit and the two lengths are complements; it appends its bytes and leaves the reader behind them. |
| `Inflate.ReadLens` | src/core/archive.cpp:153-166 | The run-length coded list of code lengths: refused on a bad symbol, a repetition of nothing or one that overruns the total, and otherwise the list that the symbols spell. |
| `Inflate.ReadTrees` | src/core/archive.cpp:143-169 | The two trees of a dynamic block, accepted whether or not the distance tree could be built. |
| `Inflate.Tokens` | src/core/archive.cpp:171-186 | Literals and matches to the end-of-block code, with every refusal of the source (no code, symbol out of range, truncated, distance beyond the output). |
| `Deflate.FixedTreesAreGood` | src/core/archive.cpp:128-141 | The fixed trees of RFC 1951, section 3.2.6, have codes and are not over-subscribed. |
| `Deflate.CodeLengthOrder` | src/core/archive.cpp:148 | The order of the code-length symbols: 16, 17, 18, 0, and then by turns up from 8 and down from 7. |
| `DeflateStreams.Dealt` | src/core/archive.cpp:149-150 | The i-th length of a header goes to the i-th symbol of that order, and the symbols left over have none. |
| `Deflate.RepeatRangesTile` | src/core/archive.cpp:159-164 | RFC 1951, section 3.2.7: runs of 3 to 138 zeros have one spelling each with the symbols 17 and 18, and 3 to 6 repetitions of the last length one with 16. |
| `Deflate.FixedCodes` | src/core/archive.cpp:128-141 | The lengths and the codes of both fixed trees, symbol by symbol, as RFC 1951, section 3.2.6, lists them. |
| `Inflate.Inflate` | src/core/archive.cpp:107-194 | On every input it terminates, never indexes out of range, and returns true with prior + output exactly when the block-by-block specification does. |
| `DeflateGrammar.TokenIsRead` | src/core/archive.cpp:172-183 | A token is read from bit p if and only if its code (symbols, extra bits) stands there; both directions, for every pair of usable trees. |
| `DeflateGrammar.WrittenTokensRun` | src/core/archive.cpp:171-186 | The body written for a list of tokens is read back and appends the LZ77 expansion of the list. |
| `DeflateGrammar.RunTokensWereWritten` | src/core/archive.cpp:171-186 | Conversely, whatever body is accepted is the code of some list of tokens with that expansion. |
| `DeflateGrammar.WrittenLensRun` | src/core/archive.cpp:153-166 | A list of code lengths written with literal lengths and the three repetition symbols is read back. |
| `DeflateGrammar.RunLensWereWritten` | src/core/archive.cpp:153-166 | Conversely, whatever list is accepted was written so. |
| `DeflateGrammar.HeaderIsRead` | src/core/archive.cpp:144-152 | The header of a dynamic block, with any number of distance lengths from 1 to 32, is read back from its code by a reader that follows the format. |
| `DeflateGrammar.HeaderWasWritten` | src/core/archive.cpp:144-152 | Conversely, whatever header such a reader accepts is the code of one. |
| `DeflateGrammar.WrittenBlockRuns` | src/core/archive.cpp:115-186 | A valid stored, fixed or dynamic block, of RFC 1951, sections 3.2.3 to 3.2.7 (with 1 to 32 distance lengths), is read back with its meaning by a reader that follows the format. |
| `DeflateGrammar.BlockWasWritten` | src/core/archive.cpp:115-186 | Conversely, whatever block such a reader accepts is a valid one. |
| `DeflateStreams.WrittenStreamRuns` | src/core/archive.cpp:111-193 | Every sequence of valid blocks, encoded, is accepted by the format's reader and appends exactly the expansion of the blocks. |
| `DeflateStreams.RunStreamWasWritten` | src/core/archive.cpp:111-193 | Conversely, from every stream it accepts a list of valid blocks is recovered that encodes to it. |
| `DeflateStreams.FormatIsExact` | src/core/archive.cpp:111-193 | The format's reader accepts o up to bit q if and only if some sequence of valid RFC 1951 blocks stands there and means o. |
| `DeflateStreams.ProgramIsFormat` | src/core/archive.cpp:147-168 | The program is that reader except on two kinds of streams: where it meets an over-subscribed distance tree (line 168) the format has no stream, and where it meets a header of 31 or 32 distance lengths (line 147) the program refuses. |
| `DeflateStreams.AcceptedStreams` | src/core/archive.cpp:107-194 | On every byte string: what the program accepts and is not valid meets an over-subscribed distance tree, what is valid and not accepted meets a header of more than 30 distance lengths, and both conversely. |
| `DeflateStreams.ManyDistancesAreValid` | src/core/archive.cpp:147 | A concrete dynamic block with 32 distance codes of five bits, as fixed blocks have them, is valid and means nothing added. |
| `DeflateStreams.ManyDistancesAreRefused` | src/core/archive.cpp:147 | Wherever it stands the program refuses it. |
| `DeflateStreams.OverfullIsWritable` | src/core/archive.cpp:167-168 | A concrete dynamic block with three one-bit distance codes can be written. |
| `DeflateStreams.OverfullTreeIsAccepted` | src/core/archive.cpp:167-168 | Wherever that block stands the program accepts it, and no list of valid blocks is written so. |
| `DeflateStreams.BitsAreBytes` | src/core/archive.cpp:14-23 | Every string of bits stands at the front of some string of bytes, so both blocks occur as input. |
| `DeflateSample.ZeroByte` | src/core/archive.cpp:142-194 | Thirteen bytes of a file whose one block brings its own trees, with repetitions of zeros in their lengths; both readers make one zero byte of them. |
| `DeflateStreams.NineLetters` | src/core/archive.cpp:107-194 | The four bytes 4B 84 01 00 as they stand in a file: fixed codes, a literal, an overlapping match and the end, in the bit order of the format; both readers make nine letters a of them. |
| `LittleEndian.U32RoundTrip` | src/core/rewind.hpp:49-53 | A 32-bit number written is read back. |
| `LittleEndian.U64RoundTrip` | src/core/rewind.hpp:52-54 | A 64-bit number likewise. |
| `LittleEndian.U64BackAgain` | src/core/rewind.hpp:52-54 | And every eight bytes are those of the number they spell. |
| `LittleEndian.BytesAre` | src/core/sdcard.hpp:104-105 | The least significant byte comes first. |
| `RewindCodec.RecordsReplay` | src/core/rewind.hpp:98-111 | Applying encoded records behind the header copies and pastes exactly what the records say. |
| `RewindCodec.DeltaRestores` | src/core/rewind.hpp:91-112 | Any delta that rebuilds `was` from `cur`, applied to `cur`, gives `was`; for snapshots above 2^31 bytes it is refused. |
| `RewindCodec.ApplyDelta` | src/core/rewind.hpp:91-112 | The loop computes the specified decoder on every input, well formed or not, with every bounds check and the refusal of an empty record. |
| `RewindCodec.DecoderIsExact` | src/core/rewind.hpp:91-112 | The decoder gives a snapshot if and only if it has at most 2^31 bytes and records that rebuild it, none of them empty, stand at the front of the delta behind its length; both directions, for every byte string. |
| `RewindCodec.MakeDelta` | src/core/rewind.hpp:60-87 | For any two snapshots of any lengths it terminates and its output is a delta from the new one back to the old one, with no empty record: applied to the new one it gives the old one (above 2^31 bytes it is refused); its literals are exactly the differing words and the tail past the last whole common word. |
| `RewindSink.EqualRun` | src/core/rewind.hpp:145-149 | n equal bytes at once do what n single equal bytes do, also across the gap of 16 that closes a record. |
| `RewindSink.DifferentRun` | src/core/rewind.hpp:151-155 | The same for different bytes. |
| `RewindSink.ScanIsConsistent` | src/core/rewind.hpp:126-183 | After any k bytes, the records so far, the open runs and the bytes held back rebuild the first k bytes of the old snapshot out of the new state. |
| `RewindSink.FinishedRebuilds` | src/core/rewind.hpp:175-182 | For every new state of the old one's length, the finished records rebuild the old snapshot. |
| `RewindLiterals.CopiedIffWorth` | src/core/rewind.hpp:118-155 | A byte of the old snapshot is copied into the delta if and only if it differs or lies in an equal run of fewer than 16 bytes between two that differ; every other byte is left to a header. |
| `RewindSink.DeltaSink.Feed` | src/core/rewind.hpp:156-174 | A piece is added to what has been fed, overwriting the snapshot in place, and the fields are those of the byte-by-byte scan of all pieces joined; a piece that does not fit sets the overflow for good. |
| `RewindSink.DeltaSink.Finish` | src/core/rewind.hpp:175-182 | True exactly when as many bytes came as the snapshot holds; then the snapshot is the new state and the output leads back from it, and both depend only on the pieces joined. |
| `RewindEngine.CaptureState` | src/core/savestate.cpp:422-432 | A snapshot is the header and the fields in visiting order. |
| `RewindEngine.StateAt` | src/core/savestate.cpp:422-432 | Every byte of every field is behind the header and the fields before it. |
| `RewindEngine.CaptureDelta` | src/core/savestate.cpp:434-450 | The size is counted before the first byte is overwritten: with another size it fails and the snapshot is untouched, otherwise the snapshot becomes the new state and the delta leads back to the old one. |
| `RewindEngine.ForgetOldest` | src/core/rewind.cpp:90-94 | Dropping the oldest delta loses the oldest snapshot and no other, and the size on the books falls by its length. |
| `RewindEngine.Engine.Configure` | src/core/rewind.cpp:21-38 | Any change of settings empties the tape; when on, the budget is the megabytes asked for but at least 8, and the interval at least one field. |
| `RewindEngine.SettingsAre` | src/core/rewind.cpp:32-34 | The budget is whole megabytes, at least 8 and at least those asked for, and no other number; the interval at least one field, and what was asked for unless that is 0. |
| `RewindEngine.Engine.Push` | src/core/rewind.cpp:86-95 | The delta goes to the young end and the oldest go until `used`, always the sum of the sizes, is within the budget, and not one more than needed. |
| `RewindEngine.Engine.OnField` | src/core/rewind.cpp:48-84 | Exactly when it is on and `interval` fields have passed, the state is put on the tape, in place or (first time, or changed size) by comparing whole snapshots: the tape then decodes to the snapshots before and the new one, less the k oldest, which had to go for the budget and no more; the delta leads from the new snapshot to the one before. |
| `RewindEngine.Engine.StepBack` | src/core/rewind.cpp:97-109 | One step back restores exactly the previous snapshot; a refused one changes nothing. A tape that decodes is never found corrupt. |
| `RewindEngine.TapeIsYoungEnd` | src/core/rewind.cpp:40-109 | Along any run of fields, steps back, resets and changed settings the tape decodes to the young end of the snapshots taken and not undone. |
| `RewindEngine.SteadyPace` | src/core/rewind.cpp:48-52 | Left alone, the engine takes a snapshot of every `interval`-th field and of no other. |
| `RewindEngine.BackTo` | src/core/rewind.cpp:97-109 | n accepted steps back on a tape of more than n snapshots all succeed and leave the snapshot that was n before the live one. |
| `RewindEngine.RecordingFits` | src/core/rewind.cpp:86-95 | After every recording the deltas are within the budget and the newest snapshot is on the tape. |
| `RewindEngine.Run` | src/core/rewind.cpp:21-109 | Every run goes step by step as described: whether each event has its effect is decided by the settings, the fields since the last snapshot, the machine's verdict and the length of the tape, and what it does to the tape; from an empty tape it ends at the young end of the history. |
| `DmaSpec.LandAt` | src/core/memory.cpp:2164-2192 | A byte of RDRAM after a transfer is the one the transfer's rows put there, the last row winning, or the old one. |
| `DmaSpec.LandAllAt` | src/core/memory.cpp:2281-2300 | After a list of transfers it is the one the last transfer that hits it put there. |
| `DmaSpec.ApartCommutes` | src/core/memory.hpp:640-648 | A transfer that meets none of the pending ones can be carried out before or after them. |
| `DmaSpec.DueIsStamped` | src/core/memory.cpp:4398-4439 | With stamps in order, the entries applied by instant t are exactly those stamped up to t. |
| `DmaCopy.SpRowsToRam` | src/core/memory.cpp:2164-2192 | The immediate path, chunk by chunk around the 4 KB signal-processor memory and cut at the end of the chips, leaves in RDRAM exactly the specified transfer. |
| `DmaCopy.SpRowsToRing` | src/core/memory.cpp:2249-2264 | The logged path puts the same bytes, row by row, into the payload ring across its wrap and touches nothing pending. |
| `DmaCopy.RingRowsToRam` | src/core/memory.cpp:2281-2300 | Landing a logged transfer out of the ring leaves in RDRAM what the immediate path would have. |
| `DmaRegs.DramAddress` | src/core/memory.cpp:2104 | The RDRAM address is 24 bits of which the low three do not count. |
| `DmaRegs.MemAddress` | src/core/memory.cpp:2100-2102 | Bit 12 of the memory address chooses the memory, and of the 12 bits below it the low three do not count. |
| `DmaRegs.LengthWord` | src/core/memory.cpp:2086-2091 | The length word: rows of the least multiple of 8 above the low field, one more of them than the middle field, and a gap that is the high field without its low three bits. |
| `DmaRegs.WhatMoves` | src/core/memory.cpp:2086-2192 | A write of SP_WR_LEN from the numbers in the three registers to bytes: byte j of row i comes from the chosen memory, round its 4 KB, and goes to its place in RDRAM. |
| `DmaRegs.NothingElseMoves` | src/core/memory.cpp:2164-2192 | And nothing goes to any other address. |
| `DmaRegs.WhereItEnds` | src/core/memory.cpp:2198-2199 | Where the two address registers stand afterwards, as numbers. |
| `DmaLog.MarkPages` | src/core/memory.hpp:631-637 | Every page of the transfer's span, and no other, gains or loses one. |
| `DmaLog.UncountedIsClear` | src/core/memory.hpp:640-659 | A page the index counts nothing on is written by no pending entry. |
| `DmaLog.Journal.LogApply` | src/core/memory.cpp:4398-4439 | Applying the log up to the clock, in order: from then on nothing that the clock has passed is still to land (`CaughtUp`), what is left is what is stamped later, and the index, the rings and the count of pending transfers stay exact (`Valid`). |
| `DmaLog.Journal.Settle` | src/core/memory.hpp:640-648 | Before an access at clock t to [lo, hi): every byte there shows exactly the entries stamped up to t, though the rest of the log may still wait. |
| `DmaLog.Journal.SettleSlow` | src/core/memory.cpp:4380-4396 | The same on the path behind the shortcut: page by page over a short stretch, or the whole log. |
| `DmaLog.Journal.CpuRead` | src/core/memory.hpp:640-648 | A load returns what the guest sees at that instant. |
| `DmaLog.Journal.CpuWrite` | src/core/memory.hpp:640-648 | A store is not overwritten by transfers that came before it, and is by later ones. |
| `DmaLog.Journal.MakeRoom` | src/core/memory.cpp:2237-2242 | The signal processor waits exactly when 0x1000 entries are pending or the payload would not fit 0x100000 bytes, and then until the CPU has emptied the log, which is when its clock has passed the newest entry, whatever the clock of the waiter says, and then there is room. |
| `DmaLog.Journal.SpDmaLogPush` | src/core/memory.cpp:2210-2278 | A transfer stamped no earlier than those before it, and behind the CPU's clock or not, is logged unless it exceeds a quarter of the ring or lands on what is being drawn; logged, it is the last pending entry, with the bytes of that moment, and the address registers move on; refused, nothing has changed. |
| `DmaLog.Journal.LogOther` | src/core/memory.cpp:4281-4288 | The entries that do not touch RDRAM go through the same ring, late or not. |
| `DmaLog.Journal.PagesAny` | src/core/memory.hpp:652-659 | A negative answer means that no pending entry writes there. |
| `DmaLog.Journal.SpDmaNow` | src/core/memory.cpp:2081-2203 | The synchronous path: everything before it has landed, then the transfer does, at its instant or, if the CPU is past that, at once. |
| `DmaLog.Journal.SpWrLen` | src/rsp/rsp.cpp:797-832 | A write of SP_WR_LEN, logged or not: the guest sees RDRAM with that transfer on top of all earlier ones from its instant on, and never before; from the CPU's clock on if that has passed the instant. |
| `DmaLog.AppendedReach` | src/core/memory.cpp:2264-2277 | Once it and the others are due, the transfer that was logged last has landed last. |
| `DmaLog.ReachLater` | src/core/memory.cpp:4398-4439 | Applying the log in two stretches is the same as applying it in one. |
| `DmaLog.AppendedThenReach` | src/core/memory.cpp:4281-4288 | Whatever part of the log the clock has passed before an entry is logged, the guest sees the same from then on; with the stamp ahead of the clock or behind it. |
| `DmaRun.Run` | src/core/memory.cpp:2081-2300 | For every interleaving of loads, stores, retires that drain the log, transfers, other log entries and writes to the signal processor's memory, in which each side's instants do not decrease, however far either runs ahead and however late the log is applied: every load and the final state are those of a machine in which each transfer takes place at its own instant, or at once if the CPU's clock has passed that when it is logged. Instants and the CPU's clock follow from the steps of the two sides, the waits included. |
| `DmaTime.GuestTimeIff` | src/core/memory.cpp:4376-4396 | A run is at every moment one in guest time (what the CPU has found is what two dated programs, merged by instant, let it find, and so is RDRAM) if and only if each transfer, when it is logged, brings no byte other than those that loads since its instant found there before any store and the last store since left there. |
| `DmaTime.InterleavingsAgree` | src/core/memory.hpp:612-626 | Two runs of the same program of the CPU and the same program of the signal processor, interleaved by the host in any way, find the same bytes everywhere and leave the same RDRAM, provided no late transfer is noticed in either. |
| `DmaTime.UntouchedPasses` | src/core/memory.cpp:4376-4396 | Nor is one whose bytes the CPU has not looked at from its instant on. |
| `DmaTime.AheadPasses` | src/core/memory.hpp:1118-1137 | None is noticed when every transfer is stamped after all that the CPU has looked at, which a barrier without a lead ensures (`SpBarrier.Rcp.LooksAreBehind`). |
| `DmaTime.RunInGuestTime` | src/core/memory.hpp:612-626 | So every such run of the rings and registers: if all its late transfers pass unnoticed, each load gives RDRAM after the CPU's own stores and every entry that is ever stamped with its instant or an earlier one. |
| `DmaTime.EndsAsPushed` | src/core/memory.cpp:4398-4439 | With no other writer of RDRAM, it ends as if every transfer had been carried out at once in the order of the pushes, late ones included. |
| `DmaTime.LateTransfer` | src/core/memory.cpp:5208-5216 | The CPU loads at 300, the signal processor, still at 2, then sends other bytes there: the load gives the old ones, and in guest time the new. |
| `RdpSnapshot.SpDmaOverlay` | src/core/memory.cpp:3231-3246 | The part of a logged transfer inside the window, and nothing else, is put over the copy. |
| `RdpSnapshot.WindowIs` | src/core/memory.cpp:3210-3212 | The window is 24 bits of each address, cut at the last chip. |
| `RdpSnapshot.RaceIsOverlaid` | src/core/memory.cpp:3205-3228 | Whatever prefix of the pending entries the copy saw at a byte, putting all of them over it gives what RDRAM holds after all of them. |
| `RdpSnapshot.Snapshot` | src/core/memory.cpp:3205-3228 | The span snapshot equals [current, end) of the RDRAM obtained after every pending entry, even if the CPU applies any prefix of them, byte by byte, while the copy runs; the rest of the buffer stays. |
| `Pace.PaceDiv.Set` | src/core/memory.hpp:1501-1510 | A zero divisor counts as 1; the multiplier is 0 exactly when it does not fit 64 bits, otherwise the rounded-up 2^79/d with the last safe operand. |
| `Pace.PaceDiv.DivIs` | src/core/memory.hpp:1512-1515 | For every operand and divisor the result is x / d, or one more exactly when x*e is 2^79 and x is one short of a multiple of d. |
| `Pace.PaceDiv.SharpIsExact` | src/core/memory.hpp:1500-1515 | A divisor divides exactly for every operand if and only if it has no multiplier, e is 0, e does not divide 2^79, 2^79/e exceeds the last fast operand, or 2^79/e is not one short of a multiple of the divisor. |
| `Pace.PaceDiv.ExactBelow` | src/core/memory.hpp:1512-1515 | With any divisor d, operands below 2^79/d divide exactly. |
| `Pace.PaceDiv.Fits` | src/core/memory.hpp:1512-1515 | The product fits 128 bits and the quotient 64. |
| `Pace.TooHigh` | src/core/memory.hpp:1512-1515 | The exception is real: 2^63 / 102961 comes out one too high. |
| `Pace.StockIsSharp` | src/core/memory.hpp:1517-1522 | The console's own ratio, 65536 to 43691, has no exception. |
| `Pace.CeilAbove` | src/core/memory.hpp:1222-1229 | A rounded-up conversion is above o exactly when the cycles are above the rounded-down conversion of o. |
| `Pace.Clocks.SetPaceRatio` | src/core/memory.hpp:1519-1522 | Both divisors are set, zero standing for 1. |
| `Pace.Clocks.Adjoint` | src/core/memory.hpp:1222-1229 | The same of the two conversions as they are computed, with the fast division. |
| `Pace.Clocks.AdjointBelow` | src/core/memory.hpp:1222-1229 | And at any clock ratio, while the products stay below 2^79 over the divisors. |
| `Pace.Clocks.OpsAreLeast` | src/core/memory.hpp:1222-1226 | A number of cycles in operations: the least that lasts as long at the ratio. |
| `Pace.Clocks.CyclesAreMost` | src/core/memory.hpp:1227-1230 | A number of operations in cycles: the greatest that lasts no longer at the ratio. |
| `SpBarrier.Rcp.ThresholdIs` | src/core/memory.cpp:5219-5222 | The clock is before the barrier if and only if the raw cycle count has reached the threshold. |
| `SpBarrier.Rcp.AfterKick` | src/core/memory.cpp:5407-5421 | A cycle of a task lies strictly after its launch, so the end of a task of at least one cycle does too. |
| `SpBarrier.Rcp.InstantIs` | src/core/memory.hpp:1231-1233 | The instant of a cycle of a task in the ratio alone: the first operation that lasts as long as the whole cycles up to the launch and those of the task together. |
| `SpBarrier.Rcp.Kick` | src/core/memory.cpp:5541-5568 | A launch publishes an end still outstanding (early if it was not due), takes the instant and the cycle base, raises the barrier and voids the shortcut. |
| `SpBarrier.Rcp.EndArm` | src/core/memory.cpp:5407-5441 | The deadline armed at the end of a task is never in the past, and is a function of the launch and the task's cycles. |
| `SpBarrier.Rcp.BarrierWait` | src/core/memory.cpp:5224-5227 | The remembered barrier value skips only questions that would have been answered yes. |
| `SpBarrier.Rcp.Retire` | src/core/memory.cpp:5508-5539 | The CPU goes on exactly when no task runs or its clock is before the barrier; an end that is due is raised there and then, and no other. |
| `SpBarrier.Rcp.Allow` | src/core/memory.hpp:1236-1273 | The CPU's allowance reaches to its limit or to the nearest of the barrier and the armed deadline, and past neither. |
| `SpBarrier.Run` | src/core/memory.cpp:5224-5539 | For every interleaving of launches, cycles, ends, questions and CPU advances within the allowance, each of which takes place exactly when it can: the clock never exceeds both the launch and barrier + lead, no deadline is born in the past, every end is dated by its launch and its cycles, and every interrupt not pre-empted by a launch is raised at that instant. |
| `SpBarrier.Rcp.LooksAreBehind` | src/core/memory.cpp:5224-5227 | Whatever the CPU has done, or may do before it asks again, it does less than the lead after the instant of any cycle that the task has still to do; without a lead, before it. |
| `SpBarrier.RunsAhead` | src/core/memory.cpp:5208-5216 | At the default lead of 512 and the console's ratio: the CPU stands at operation 500 when the task it launched at 0 is at operation 2. |
| `SpBarrier.EmptyTaskIsLate` | src/core/memory.cpp:5407-5421 | What the first cycle (the BREAK's own) is good for: without one the deadline would lie before the launch if and only if (launch * den mod num) / den exceeds the lead. |
| `RdpQueue.JoiningKeeps` | src/core/memory.cpp:3303-3327 | Joining a span to the last waiting one paints the same addresses in the same order as queueing it, if and only if the two do not run in opposite directions. |
| `RdpQueue.Recorded` | src/core/memory.cpp:3269-3333 | A submission leaves the commands of every live job as they were submitted and adds its own behind them. |
| `RdpQueue.LaunchedIs` | src/core/memory.cpp:3205-3220 | What a span launches, address by address: the byte in RDRAM then, zero past the last chip, and of a span in the signal processor's memory the address alone. |
| `RdpQueue.Rdp.Submit` | src/core/memory.cpp:3249-3347 | DPC_END: the span's commands are in the buffer of the current generation and nothing else in the buffers has changed, the job is joined or queued, also as the live jobs are counted, the books are right (`Valid`), and a notification is owed exactly if the worker waits. |
| `RdpQueue.SubmissionKeeps` | src/core/memory.cpp:3269-3327 | A submission leaves what is still to be painted as it was and adds its own span at the end, if and only if it does not run against the job that it lengthens and its copy brings back every byte that a live job still reads; for lists that move back too. |
| `RdpQueue.OpposedEndLosesCommands` | src/core/memory.cpp:3308-3310 | START 0, END 16, END 8: half of what was launched is never painted. |
| `RdpQueue.SecondCopyUnderLiveJob` | src/core/memory.cpp:3275 | START 0, END 16, the worker begins, END 8, END 16: the job being painted paints what was launched later. |
| `RdpQueue.Rdp.Enter` | src/core/memory.cpp:3453-3465 | The worker takes the oldest job, or sleeps exactly when there is none. |
| `RdpQueue.Rdp.Finish` | src/core/memory.cpp:3466-3497 | The job is painted from its generation's buffer and leaves the books; what is painted and still to be painted, taken together, stays. |
| `RdpQueue.Rdp.FreshStart` | src/core/memory.cpp:1683-1713 | A fresh START never switches to a generation with live jobs: the lowest free one is taken, or everything is painted first. |
| `RdpQueue.Rdp.Drain` | src/core/memory.cpp:3526-3542 | The wait for an idle engine ends, with nothing live and everything owed painted. |
| `RdpQueue.Run` | src/core/memory.cpp:3249-3498 | For every interleaving of producer and worker, spurious wake-ups and lists that move back included: pending count, per-generation counts, busy flag and barrier equal what is live and the worker never sleeps un-notified on a non-empty queue. What is painted or still to be painted is at every moment everything launched, in order, each command as RDRAM held it at its launch, if and only if every END so far met no waiting span that runs the other way and disturbed no live job; then all of that is painted at the end, as it is when no END moves back. |
| `RdpQueue.OwedIff` | src/core/memory.cpp:3269-3327 | The if-and-only-if of such a run: each END adds exactly its own commands to what is to be painted when it is clean and something else when it is not. |
| `DpSchedule.CountIs` | src/core/memory.hpp:915-921 | The count of spans is the one number with all stamps before it passed and the next one not. |
| `DpSchedule.ScanFwd` | src/core/memory.hpp:915-921 | The loop from a cursor, trimmed to the last 256 spans and restarted when the sequence was reset below it. |
| `DpSchedule.CursorIsSound` | src/core/memory.hpp:915-921 | A scan from a cursor equals one from max(0, sub-256) afresh if and only if it skips nothing still to come. |
| `DpSchedule.CursorLater` | src/core/memory.hpp:915-927 | The answer of one question is a good cursor for every later instant. |
| `DpSchedule.CursorPushed` | src/core/memory.cpp:4121-4238 | It stays one when a span is appended, also when that overwrites the oldest slot. |
| `DpSchedule.StaleCursor` | src/core/memory.hpp:915-921 | A cursor that outlives a reset of the sequence can be wrong: a concrete timetable. |
| `DpEngine.Engine.ScheduleSpan` | src/core/memory.cpp:4121-4162 | A span starts when launched or when the engine is free, ends after its cost and is seen from its launch (the CPU's own) or one operation later; what was scheduled stays. |
| `DpEngine.Engine.ScheduleReload` | src/core/memory.cpp:4094-4119 | A reload is an empty span that costs nothing; closing stamps stay non-decreasing. |
| `DpEngine.Engine.Count` | src/core/memory.hpp:915-927 | For any history of questions with non-decreasing instants, per reader, and a growing timetable, the cursor form gives what a scan afresh gives. |
| `DpEngine.Engine.CompletedAreEnded` | src/core/memory.hpp:925-927 | `dpCompletedAt` counts exactly the spans that have ended, while the ring still holds all that have not. |
| `DpEngine.Engine.CurrentFor` | src/core/memory.cpp:4941-4970 | DPC_CURRENT, from the cursors: the register while no span is seen, the end of the last span seen when all that are seen have ended (the ring holding it), and otherwise inside the first that has not ended (`Reads`). |
| `DpEngine.Engine.StatusFor` | src/core/memory.cpp:4973-4997 | With all that the ring has lost seen and ended, busy exactly if some span is seen and has not ended, and END_VALID exactly if two are. |
| `DpSchedule.InsideIs` | src/core/memory.cpp:4953-4967 | Inside an open span the pointer is at the last whole 8-byte word whose share of the span's time has gone, and at its start before the engine gets to it. |
| `DpEngine.Engine.CurrentIs` | src/core/memory.cpp:4941-4970 | What is read of a ring that has lost only spans long over is what is read of the spans of the whole run. |
| `DpEngine.Engine.OpenIs` | src/core/memory.cpp:4973-4997 | While all that the ring has lost are seen: the two counts differ by the number of spans that are seen and have not ended, if and only if all that the ring has lost have ended. |
| `DpEngine.LappedRing` | src/core/memory.cpp:4969 | With the last ended span out of the ring and 256 still to come, the end of the newest is read. |
| `DpEngine.Engine.NextChangeAt` | src/core/memory.hpp:1078-1100 | The next change through the cursors is the function of the timetable and the instant alone. |
| `DpSchedule.SharesReach` | src/core/memory.hpp:1093-1096 | The prediction and the pointer are adjoint: n bytes have gone by y exactly if y is no earlier than the predicted instant. |
| `DpSchedule.PointerHolds` | src/core/memory.hpp:1088-1098 | Before its next step an open span's pointer does not move. |
| `DpSchedule.NothingChanges` | src/core/memory.hpp:1078-1100 | DPC_CURRENT and the busy bits are constant from now up to the next change, and for ever when there is none. |
| `DpSchedule.ChangeIsOne` | src/core/memory.hpp:1078-1100 | At the next change a span is seen, ends, or the open span's pointer moves: the prediction is never early. |
| `DpSchedule.ChangeIsLater` | src/core/memory.hpp:1078-1100 | There is no next change exactly when every span has been seen and has ended. |
| `DpSchedule.StatusChanges` | src/core/memory.hpp:1078-1100 | Asked for the busy bits only: until that instant no span is seen or ends, and then one does. |
| `DpSchedule.PointerAdvances` | src/core/memory.cpp:4963-4967 | Inside an open span the read pointer is monotone, in whole 8-byte words from the start, and stays below the end. |
| `AiDac.DrainSplit` | src/core/memory.cpp:2909-2918 | Bytes drain the same whether they come at once or in two parts, across any number of buffers. |
| `AiDac.DrainFinishes` | src/core/memory.cpp:2909-2918 | The first buffer ends exactly when as many bytes have gone as it had left. |
| `AiDac.PlaySplit` | src/core/memory.cpp:2889-2922 | A look on the way changes neither queue, remainder nor the number of interrupts; the fraction of a byte is the same too, if and only if the queue did not run out on the way, was empty to begin with, or no fraction is left. |
| `AiDac.SpeedIs` | src/core/memory.cpp:2903-2906 | Four bytes a sample at 32000 samples a second, or at the whole number that the clock gives divided by one more than the register. |
| `AiDac.SilencePlaysNothing` | src/core/memory.cpp:2899-2901 | With nothing queued no time plays anything, and the fraction is void. |
| `AiDac.PlaysItsBytes` | src/core/memory.cpp:2894-2917 | A look drains exactly the whole bytes that the time and the fraction before it pay for, or all there are; a buffer raises one interrupt. |
| `AiDac.EndsWhenDue` | src/core/memory.hpp:1773-1783 | A look at t finds a buffer ended if and only if t is no earlier than the predicted instant, so consecutive buffers lose no fraction of a byte. |
| `AiDac.LooksDoNotMatter` | src/core/memory.cpp:2889-2922 | Over whole runs of looks, queued buffers and rate changes, looks make no difference as long as the queue does not run dry with a fraction left. |
| `AiDac.LookCanMatter` | src/core/memory.cpp:2889-2922 | When it does run dry they can: at the reset rate, 1,562,500 operations a field and 60 fields a second, one look moves the next interrupt from 11719 to 11860. |
| `AiDac.Ai.Serve` | src/core/memory.cpp:1824-1863 | A run of looks, AI_LEN and AI_DACRATE writes with no gap above four fields is the run of the specification. |
| `AiDac.LooksLeaveNoTrace` | src/core/memory.cpp:2889-2922 | Two DACs with the same writes, one of them looked at in between, end alike, as long as the queue stays fed and no gap exceeds four fields. |
| `AiDac.Ai.Tick` | src/core/memory.cpp:2889-2922 | One look over any stretch (a jump of more than four fields counts as four, a step back as none) is the specified drain, and the deadline is armed for the buffer then playing. |
| `AiDac.Ai.TimeCounted` | src/core/memory.cpp:2898-2902 | A look accounts for the time since the last one, but for no more than four fields. |
| `AiDac.Ai.WriteLen` | src/core/memory.cpp:1824-1853 | A buffer queued: the DAC is brought up to date first, then the buffer goes in if there is room and it is not empty, and the deadline is that of the buffer that plays. |
| `AiDac.QueuedPlaysLast` | src/core/memory.cpp:1832-1842 | A buffer goes behind those that are queued, unless two are; what plays goes on playing. |
| `AiDac.Ai.WriteRate` | src/core/memory.cpp:1863 | What has played so far played at the old rate; the deadline is re-armed for the new one. |
| `ViBeam.LineIsNext` | src/core/memory.hpp:1749-1757 | The beam has passed the programmed line again by x exactly if x is no earlier than the predicted instant, and not twice before it. |
| `ViBeam.FieldIsNext` | src/core/memory.hpp:1749-1757 | The same for the end of a field. |
| `ViBeam.EventIsNext` | src/core/memory.hpp:1749-1757 | A look at x after one at `now` finds something exactly if x >= the armed deadline; up to it, at most one of each. |
| `ViBeam.LineAtInterrupt` | src/core/memory.hpp:133-136 | For a line inside the frame, non-interlaced, with at least one operation per half-line, V_CURRENT at the interrupt is the programmed line or one less, and which of the two is decided by divisibility. |
| `ViBeam.RegistersAre` | src/core/memory.hpp:117 | Ten bits of VI_V_SYNC count, 0 and 1 standing for 525, and nine of VI_INTR; a field of no operations counts as one. |
| `ViBeam.BeamAt` | src/core/memory.hpp:133-136 | The half-line the beam is on is the one whose share of the field has begun and not ended; interlaced, the low bit is that of the field's number. |
| `ViBeam.OffsetAt` | src/core/memory.cpp:2830-2832 | The instant of the programmed half-line in a field, between two bounds. |
| `ViBeam.CrossingsCount` | src/core/memory.cpp:2830-2838 | The two counts are of the instants Offset + k * Field and (k + 1) * Field. |
| `ViBeam.Vi.Tick` | src/core/memory.cpp:2820-2883 | One interrupt exactly if one of the line's instants lies between the last look and this one, one field exactly if a field ended between them, and the deadline for the next. |
| `ViBeam.Vi.Program` | src/core/memory.cpp:1803-1811 | A write of VI_INTR or VI_V_SYNC re-arms the deadline from the last look on. |
| `ViBeam.Vi.Run` | src/core/memory.cpp:2820-2883 | A run from any state that looks at every deadline, and wherever else it likes, and reprograms the line when it likes, raises MI_VI once for each time the beam passes the line then programmed and closes as many fields as go by. |
| `ViBeam.LinesAddUp` | src/core/memory.cpp:2836-2837 | With the line left alone that is the number of crossings between the first and the last look. |
| `ViBeam.FromPowerOn` | src/core/memory.cpp:2820-2883 | From power-on: floor(T/field) fields, and every crossing after instant 0 (line 0 at instant 0 is none). |
| `SpSignals.PastIsStamped` | src/core/memory.cpp:4848-4857 | What leaves the ring at instant t is exactly what is stamped up to t. |
| `SpSignals.ApplyWrites` | src/core/memory.cpp:1505-1532 | Each signal by itself: cleared if its clear bit is there alone, set if its set bit is, unchanged otherwise. |
| `SpSignals.QuantisedIs` | src/core/memory.cpp:1544 | A stamp is the least multiple of the quantum that is no earlier than the write. |
| `SpSignals.WriteIsSeen` | src/core/memory.cpp:1533-1547 | A CPU write is invisible before its stamp and from then on the register is seen as it left it. |
| `SpSignals.UndoWithout` | src/core/memory.cpp:1538-1539 | Signals taken out of every pending mask stay as they are and the others are turned back as before. |
| `SpSignals.FlipIsSeen` | src/core/memory.cpp:1538-1539 | A signal the signal processor flips is seen at once, at every instant, and no pending CPU write undoes it. |
| `SpSignals.SettingWhatIsSetIsNotSeen` | src/core/memory.cpp:1538-1539 | Its write that leaves the live bit as it is does not cancel a pending CPU write: a concrete case. |
| `SpSignals.UndoIsFold` | src/core/memory.cpp:4848-4857 | Turning the register back over the pending entries gives it as after exactly the writes before them. |
| `SpSignals.Signals.CpuWrite` | src/core/memory.cpp:1533-1547 | The register changes at once: what is cleared and not set is clear, what is set and not cleared is set, the rest stays (`Written`); it is seen changed from the next quantum on; with a free slot nothing else changes for any instant. |
| `SpSignals.Signals.RspWrite` | src/core/memory.cpp:1533-1539 | The register changes likewise; the flipped bits are seen at every instant, the others as before. |
| `SpSignals.Signals.AtKick` | src/core/memory.cpp:4781-4787 | From the instants of the writes on, a task started now sees them all. |
| `SpSignals.Signals.UpTo` | src/core/memory.cpp:4799-4806 | The writes made by `upto`, and no others, are seen from `now` on; what each entry of the ring becomes. |
| `SpSignals.Signals.StatusForRsp` | src/core/memory.cpp:4848-4857 | The register with exactly the writes stamped up to `now`; with at most 32 pending and only CPU writes, that is the fold of the first writes since the start. |
| `SpRun.SeesIsFold` | src/core/memory.cpp:4848-4857 | With the CPU alone writing, what is to be seen at t is the register with exactly the writes whose instant, rounded up to the quantum, is at most t. |
| `SpRun.Run` | src/core/memory.cpp:1521-1548 | For every run of CPU writes, the signal processor's own writes, its reads, its fetches that bring writes forward, and launches, in which no write finds 32 pending: each read gives the register as it is to be seen at that instant; a signal that a CPU write cleared, or set, is so found from the write's instant on until another write sets, or clears, it (`Obeyed`). |
| `SpRun.ClearStays` | src/core/memory.cpp:1505-1548 | Signals that a CPU write clears are seen clear from its instant on, rounded up to the quantum, until some write sets them. |
| `SpRun.SetStays` | src/core/memory.cpp:1505-1548 | Signals that are set likewise. |
| `SpRun.FetchShows` | src/core/memory.cpp:4799-4806 | A fetch brings forward exactly the writes made by then: seen with it is what was to be seen by one who knows them. |
| `SpRun.InterleavingsAgree` | src/rsp/rsp.cpp:716-726 | A read waits until the CPU's clock has reached the last edge of the quantum, and no longer: that is enough. However the host interleaves the CPU's writes with the reads and fetches, as long as they keep that rendezvous, every read gives the same. |
| `FatVolume.FindExtent` | src/core/sdcard.hpp:280-286 | The search by halving finds the run that holds a cluster, or none exactly when no run does. |
| `FatVolume.EntryInside` | src/core/sdcard.hpp:309-319 | The entry of a cluster on a run is the next cluster, and of the last one 0x0FFFFFFF; all clusters are numbered from 2 on and below the marks that end a chain (`ReservedEntries` for the two entries before them). |
| `FatVolume.ChainIsRun` | src/core/sdcard.hpp:309-319 | From the first cluster of a run the table leads through exactly that run, in order, to an end mark; no other list is a chain from there. |
| `FatVolume.RunsAreDisjoint` | src/core/sdcard.hpp:234 | No cluster is on two chains. |
| `FatVolume.FreeIsUnowned` | src/core/sdcard.hpp:316 | A cluster reads as free exactly when it is on none. |
| `FatDir.Checksum` | src/core/sdcard.hpp:142-146 | The loop computes the long-name checksum of the FAT32 specification. |
| `FatDir.RotateIs` | src/core/sdcard.hpp:144 | A step, bit by bit: an 8-bit rotation to the right by one, and an addition that wraps. |
| `FatDir.OneCharacterShows` | src/core/sdcard.hpp:142-146 | What the sum is for: two names that differ in one character have different sums, each step being a bijection. |
| `FatDir.ReadmeSum` | src/core/sdcard.hpp:142-146 | The checksum of README~1.TXT is 107. |
| `FatDir.LongSlotReads` | src/core/sdcard.hpp:261-266 | Unit k of part n of a long name is read where a reader of the format looks for it: the name, one zero, then filler. |
| `FatDir.PartsAre` | src/core/sdcard.hpp:258 | Just enough parts of thirteen units. |
| `FatDir.LongSlotIs` | src/core/sdcard.hpp:259-268 | A part of a long name byte by byte, at the offsets of the FAT specification. |
| `FatDir.ShortSlotIs` | src/core/sdcard.hpp:206-213 | A short entry byte by byte: the directory bit or the archive bit, no times, the first of January 2026 as every date. |
| `FatDir.EntryIsRead` | src/core/sdcard.hpp:254-272 | An entry written with its long-name parts is read back whole by an independent decoder, which ends at a zero and skips free slots (`MarksAre`): long name, short name, attribute, first cluster and size. |
| `FatDir.AllAreRead` | src/core/sdcard.hpp:253-273 | So is a list of them, with nothing running over from one to the next. |
| `FatDir.DirIsRead` | src/core/sdcard.hpp:240-274 | The bytes of a directory area are read back as exactly its entries, ending at the end mark. |
| `FatDir.WriteDir` | src/core/sdcard.hpp:240-274 | The loops write the entries into an area of the computed size, never past it, and what is read from it is those entries. |
| `FatCard.Allocate` | src/core/sdcard.hpp:221-235 | The first pass gives every node the clusters its bytes need, in a run of its own, one after another in node order from cluster 2. |
| `FatCard.ClustersAre` | src/core/sdcard.hpp:232 | Just enough clusters for the bytes. |
| `FatCard.TableSectorsAre` | src/core/sdcard.hpp:237 | A table just long enough for all clusters and the two before them. |
| `FatCard.DirFits` | src/core/sdcard.hpp:226-233 | The entries of a directory and the end mark take exactly the size computed from the names alone, and fit its clusters. |
| `FatCard.SdCard.BuildVirtual` | src/core/sdcard.hpp:215-278 | For every host tree whose clusters FAT32 can number, the volume shows that tree; it has 65589 clusters or 1024 more than are needed, whichever is more, so that it counts as FAT32. |
| `FatCard.SdCard.VirtualSector` | src/core/sdcard.hpp:288-332 | Every sector is the one the volume specifies: boot sector, information sector, either table copy, directory or file bytes, zeros. |
| `FatCard.TableIsOnDisk` | src/core/sdcard.hpp:309-319 | Both copies of the table on the volume hold every entry. |
| `FatCard.ByteAlongChain` | src/core/sdcard.hpp:321-331 | Byte p along a run is byte p of its node, and zero past its end. |
| `FatCard.NodeComesBack` | src/core/sdcard.hpp:288-332 | Following the table from any node's first cluster gives a chain as long as the node needs, with its bytes along it. |
| `FatCard.FileComesBack` | src/core/sdcard.hpp:321-331 | Cut to its size that is the host file. |
| `FatCard.DirComesBack` | src/core/sdcard.hpp:321-327 | A directory read along its chain decodes to its entries. |
| `FatCard.KidIsFound` | src/core/sdcard.hpp:253-273 | Entry j behind the dots is child j: its name, first cluster and size. |
| `FatCard.DotsLead` | src/core/sdcard.hpp:246-252 | The two dot entries of a directory lead to itself and to its parent, 0 standing for the root. |
| `FatCard.RootIsAtTwo` | src/core/sdcard.hpp:296 | The root is where the boot sector says, and is not empty. |
| `FatCard.SdCard.Read` | src/core/sdcard.hpp:56-67 | Inside the card, what was last written there or else the volume; refused outside. |
| `FatCard.SdCard.Write` | src/core/sdcard.hpp:68-76 | A written sector reads back and no other sector changes; refused outside. |
| `FatReader.BootSays` | src/core/sdcard.hpp:290-300 | The boot sector gives a reader the sectors of a cluster, the reserved sectors, the copies and length of the table, and the root. |
| `FatReader.BootIs` | src/core/sdcard.hpp:288-300 | The boot sector, every field where the FAT specification has it. |
| `FatReader.InfoIs` | src/core/sdcard.hpp:302-306 | The information sector: three marks, and both hints unknown. |
| `FatReader.SpareCopies` | src/core/sdcard.hpp:286-307 | Sectors 6 and 7 are copies of 0 and 1. |
| `FatReader.ClusterIsOnCard` | src/core/sdcard.hpp:236-239 | Every cluster has its entry in the table, and all its sectors are on the card. |
| `FatReader.ReadChain` | src/core/sdcard.hpp:308-331 | A reader that follows the table on the card, sector by sector, gets the bytes of a node's clusters. |
| `FatReader.Open` | src/core/sdcard.hpp:240-274 | A path of child numbers from the root leads through the directories on the card to an entry for the host's node, or nowhere exactly when the host has none. |
| `FatReader.ReadPath` | src/core/sdcard.hpp:288-332 | Through the card's sectors alone, starting at the boot sector, every path gives the host's own file bytes or names. |
| `FatReader.ThereAndBack` | src/core/sdcard.hpp:215-332 | From any host folder whose clusters FAT32 can number to the card and back: for every path, what the reader finds is what the host has. |

## Left out

- Inflate.Inflate: the text of the error is not modelled, only that there is one; what has been appended before an error is not specified beyond its being an extension of the input buffer.
- BitStream.Bits.Get: the 32-bit accumulator is a natural; the invariant that fewer than 8 bits are held between reads is what keeps it in 32 bits.
- Zip and gzip containers, the CRC-32 table, ROM headers: one-branch parsing around the decoder.
- RewindSink.DeltaSink.Finish: record lengths are written modulo 2^32, as in the source; that the delta leads back is stated for snapshots up to 2^31 bytes (`RewindCodec.DeltaRestores` says what happens above).
- RewindEngine.Engine.OnField: states above 2^31 bytes are excluded (the decoder refuses them); the list of savestate fields is any list of byte strings, and whether the machine accepts a restored state is a parameter.
- Savestate field list, version migrations and the reading direction of the visitor: a generic list of fields gives sizes and bytes.
- DmaLog.Journal.SpWrLen: whether the span is being drawn is a parameter; the read-back value of the length registers, statistics, watchpoints and the byte-by-byte diagnostic copy are not modelled. The two parallel arrays of the log are arrays of records.
- SP_RD_LEN (RDRAM to signal processor) and the other entries of the log: register writes and dated views go through the same ring as entries that do not touch RDRAM.
- DmaRun.Run: a wait is one step, at whose end the CPU's clock is anywhere from where the wait asks for it on; the barrier that stops stores before they reach RDRAM (src/core/memory.cpp:5349-5405) and the wall-clock waiver are off, so a store may be as late as a load.
- DmaTime.GuestTimeIff: what the signal processor reads out of RDRAM is not part of it; of a look and a transfer at the same instant the transfer counts as the first. That a stamp comes after at least one cycle of the task is assumed where the barrier is used (`SpBarrier.Rcp.LooksAreBehind`).
- RdpSnapshot.Snapshot: the bytes the racing copy reads are any that `Raced` allows, each byte having seen some prefix of the pending entries; host memory models weaker than that are not considered.
- SpBarrier.Run: parking, the lead granted for a rendezvous, and the wall-clock waiver are off, and the lead of the barrier equals the delay with which ends are dated (the default); a task ends with its BREAK, which takes a cycle (src/rsp/rsp.cpp:2400-2449), and one that the CPU halts before that is left out; the barrier steps and the CPU's allowance are single steps, and spinning is a question asked again.
- SpBarrier.Rcp.ThresholdIs: stated for clock ratios whose divisors divide exactly (`Pace.PaceDiv.SharpIsExact`; the console's own do, and at any ratio all is exact while products stay small, `Pace.Clocks.AdjointBelow`); 64-bit wrap of guest clocks and products is not modelled.
- Display-processor jobs: what a job paints is its commands as bytes, not their effect (of commands in the signal processor's memory only the addresses); the two-generation setting (which the source itself counts as unsafe), the list of full-sync instants used by the narrower barrier, and job fields that only carry dates are left out.
- RdpQueue.Run: what an END that is not clean paints instead is not described beyond its differing from what was launched.
- DpEngine.Engine.ScheduleSpan: the cost of a span is a parameter already in CPU operations; clock counters, full-sync deadlines, the published painting area and the statistics are left out, and so is the reset of the timetable with its thread-local cursors, beyond `DpSchedule.StaleCursor`.
- DpEngine.Engine.StatusFor: only the busy and END_VALID bits; the remaining bits are those of the register, and the hang of the strict-hazard option is left out.
- AiDac.Ai.Tick: samples are counted, not heard; buffer addresses are left out, and a field of zero operations is excluded.
- AiDac.LooksLeaveNoTrace: stated for looks at most four fields apart (the clamp on longer jumps is `Ai.From`, which `Ai.Tick` uses) and for queues that do not run dry with a fraction left over.
- ViBeam.Vi.Tick: scan-out, the origin of each field and the bandwidth counters are left out; during a run VI_INTR and VI_V_SYNC can change, the length of a field cannot.
- SpSignals.Signals.StatusForRsp: only SIG0 to SIG7; HALT, BROKE, the interrupt bits and the re-launch decisions on a late CLEAR_HALT are left out, although the entries that record one take their slots.
- SpRun.InterleavingsAgree: writes of the signal processor keep their place among the CPU's (they go through the DMA log and are applied by the CPU at their instant, src/rsp/rsp.cpp:784-795), and a fetch its `upto`; with a lead the latter is wherever the CPU's clock is, so there the host can show.
- FatCard.SdCard.BuildVirtual: the scan of the host folder, UTF-16 conversion and the making of short aliases give the names (uniqueness of aliases is not claimed); cluster numbers are naturals below the marks that end a chain.
- FatCard.SdCard.Read: an image file instead of a folder, missing host files and short reads are host I/O and left out.
- Threads, mutexes, condition variables and spin counts as mechanisms: each critical section is one step and the steps interleave freely.
- Environment switches are at their defaults.
- Interpreters, recompilers, rasterisers, the cost model, peripherals, cheats, movies and the user interface.
