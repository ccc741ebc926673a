# Verified models of the player's codec engines

This project models three engines that the music player decodes with and proves what they promise.
Each engine uses a clever representation; the model has the representation, in the imperative form
of the source, beside a plain specification, and proves that the two agree on every input.

**Vorbis entropy coding and floor 1** (`stb_vorbis/stb_vorbis.c`). `VorbisTree` states the code of
section 3.2.1 of the Vorbis I specification (every entry takes the lowest free block of its length)
and proves the invariant of the free-leaf slots that the source calls not totally trivial:
`compute_codewords` succeeds exactly when the Kraft sum is at most 1, and its result is that code.
`VorbisCodewords`, `VorbisCodebook` and `VorbisSetup` are the table builders on their arrays,
`VorbisPages` and `VorbisPacket` are pages, packets and the bit accumulator, on the bytes of the
file, and `VorbisDecode` proves the two-stage decoder right symbol by symbol and, with it, the round
trip for whole packets. `Floor1` and `Floor1Curve` prove the amplitude unwrap to be a bijection over
whole point lists and the incremental line drawer to equal the division form. `VorbisArena` is the
two-ended setup memory, with its 32-bit sizes. `Floor1Example` is one floor from its coded values to
its curve; `VorbisLost` and `VorbisPacketExamples` are inputs on which things go wrong.

**Inflate** (`tinfl/miniz_tinfl.c`). `InflateCode` is the canonical code of RFC 1951,
`InflateTables`, `InflateNodes` and `InflateBuild` the lookup table with its tree, and the bound on
its size. `InflateLogic` is inflating as a machine on the whole bit stream and the whole output.
`InflateStream` (bit buffer, read-ahead, giving back), `InflateWindow` (wrapping output) and
`InflateEngine` (the coroutine's actions, both Huffman paths) refine it, and `InflateDecompress`
concludes that the result does not depend on how calls cut input and output, truncated streams
included; `InflateHoles` and `InflateCutting` show that its one condition cannot be dropped.
`InflateFormat`, `InflateDynamic` and `InflateBlocks` are the writing side: every sequence of stored
blocks, blocks with the fixed code and blocks with their own tables, raw or in a zlib envelope, is
inflated to what it means. `InflateRfc` holds the constants, headers and codes against what RFC 1951
says of them. `InflateCallback` carries the refinement to the 32 KiB window loop and
says exactly when it succeeds; `InflateDelivered` applies that to streams that are written; `Adler`
is the checksum with deferred remainders.

**Monkey's Audio** (`src/audio/ape_decoder.c`, `src/audio/ape_demux.c`). `ApeRange` and `ApeEntropy`
are the range decoder and the value formats, safe for every byte string; `ApeCoding` constructs, for
every block of residuals, bytes that decode to it, and `ApeReach` says exactly which values the
older format carries. `ApeFilter`, `ApePredictorBuffer` and `ApePredictor` prove the overlapping
sliding buffers to be plain queues and every stage to be invertible, and `ApeBounds` how large
residuals can become. `ApeAdaptation` proves what filters and predictor adapt to, and `ApeBytes` and
`ApeExamples` are bytes, blocks and the numbers they decode to. `ApeLossless` and `ApeFrame` conclude that 16-bit recordings are reproduced
from samples to bytes to samples: every stereo recording in both formats, every mono recording in
the newer one, and in the older one those in frames of up to 2^21 samples (`ApeMonoDrift` is a
longer one that no bytes decode to). `ApeFile` bounds what an encoding takes and lays out files that
hold a given recording. `ApeFlags` are frames with flags: silence and
pseudo-stereo. `ApeFilterBank`, `ApeEntropyDecoder` and `ApeFrameDecoder` are the stages on
the decoder's own storage, and show that nothing carried over from an earlier frame matters.
`ApeDemux` and `ApeDecoder` are the frame table, reading and seeking, with `ApeSeekExample` as a
seek that fails and `ApeLongFrame` as a frame that does not fit.

`Bits`, `Words`, `ApeWords`, `Integers` and `Options` are shared vocabulary: bit strings and the
numbers they stand for, C's fixed-width arithmetic, optional results.

## Findings

The code is modelled as it is. Where a property one might expect fails, there is an input on which
it fails and a condition under which it holds; unless said otherwise the condition is exact.

- `stb_vorbis/stb_vorbis.c:1142`, `stb_vorbis/stb_vorbis.c:1173-1178`. In a dense Vorbis codebook a
  codeword of at most 10 bits at entry 32767 or later is never decoded: the accelerator stops there
  and the sorted index leaves short codewords out. `VorbisDecode.Decode` returns a symbol if and
  only if it is not one of these and its codeword is loaded in full; `VorbisLost` is an accepted
  codebook that loses its last symbol, whose codeword has one bit.
- `stb_vorbis/stb_vorbis.c:1634-1646`. A Vorbis codeword of more than 25 bits can be lost, depending
  on the bit phase; shorter ones never are (`VorbisDecode.LongCodewordsDependOnPhase`).
  `VorbisLost.DecodeLadder` is an accepted codebook and a packet on which one is.
- `stb_vorbis/stb_vorbis.c:1601-1608`. A read of more than 24 bits that runs out after the first 24
  returns those 24 instead of 0; `VorbisPacket.PacketReader.GetBits` states the value in every case,
  and `VorbisPacketExamples.ReadShort` is a packet of three bytes.
- `stb_vorbis/stb_vorbis.c:1545`. A packet that is still open at a page's end, before a page that
  does not continue it, is over for one read only: the error leaves `last_seg` unset and the reader
  at the next packet's first segment. The end lasts if and only if no such page follows
  (`VorbisPacket.PacketReader.NextSegment` for one step, `VorbisPacket.PacketReader.FlushPacket` for
  the whole packet). In `VorbisPacketExamples.ReadUnmarked` the Huffman accumulator is filled from
  the next packet. If it was `get_bits` that met the end, `valid_bits` is -1 and the next
  `prep_huffman` shifts by it, which C does not define, if and only if a byte is left
  (`VorbisPacket.PacketReader.PrepHuffman`; `VorbisPacketExamples.ReadCut`).
- `stb_vorbis/stb_vorbis.c:1548`. A page that continues a packet without a single lacing value,
  which Ogg allows, makes `next_segment` take the first lacing value that an earlier page has left
  in the table. It happens if and only if the packet runs into such a page
  (`VorbisPacket.PacketReader.FlushPacket`); `VorbisPacketExamples.ReadBare` is a packet whose last
  byte is then read out of a page header.
- `stb_vorbis/stb_vorbis.c:1754-1756`. `DECODE` with a sparse book looks into `sorted_values` even
  when that table was never allocated: if and only if the book has no used entry
  (`VorbisDecode.Decode`). Such a book is accepted from four entries on
  (`stb_vorbis/stb_vorbis.c:3802`); `VorbisLost.DecodeEmpty` is one.
- `stb_vorbis/stb_vorbis.c:950-978`, `stb_vorbis/stb_vorbis.c:3893`, `stb_vorbis/stb_vorbis.c:3938`.
  The setup memory takes sizes as `int`, from products of up to 42 bits. A single request keeps the
  bounds if and only if the truncated size, and for a block to keep the sum, is not negative
  (`VorbisArena.KeepInside`, `VorbisArena.BorrowInside`). An accepted codebook leaves all blocks
  right if and only if the bytes it keeps, a number computed from its header, and those kept before
  are an `int` together (`VorbisArena.BookRight`). `VorbisArena.SetupWide` sets up a book after
  which `setup_offset` is negative.
- `tinfl/miniz_tinfl.c:349`, `tinfl/miniz_tinfl.c:426-512`. Inflate accepts a literal/length table
  with at most one code. Bits that begin with no code then yield a literal 0 and use no bits on the
  careful path (`InflateEngine.Inflator.SymbolStep`), so that zeros are put out without end, but
  fail on the fast path (`InflateEngine.Inflator.FastStep`): the result depends on how the input is
  cut. Such tables are exactly the accepted ones that do not fill the code space
  (`InflateHoles.HolesIffIncomplete`, `InflateHoles.IncompleteIffFew`). Where no block uses one, the
  cutting does not matter (`InflateDecompress.ChunkIndependent`); for every one of them there is a
  stream on which it does: fed byte by byte it goes on, given at once it fails
  (`InflateCutting.CuttingMatters`, and `InflateCutting.OneCodeExample` for a concrete one). A
  stream that some way of calling decompresses to its end is beyond that danger whatever its tables
  (`InflateDecompress.DoneIsIndependent`). The same gap in distance and code-length tables does not
  depend on the cutting.
- `tinfl/miniz_tinfl.c:612`. `MZ_ASSERT(!num_bits)` after the last block holds if and only if the
  block does not end a whole byte or more before the input of the current call begins
  (`InflateEngine.Inflator.AlignAndGiveBack`). It fails on the stream of
  `InflateHoles.AssertionFails`, given in two pieces: fifteen bits are asked for where no distance
  code begins, and not used. Without such bits it always holds.
- `tinfl/miniz_tinfl.c:516-536`. Symbols that RFC 1951 says never occur are not refused: 286 and 287
  are matches without a byte, 30 and 31 mean a distance of 0, which is refused without a window and
  reaches back a whole window with one (`InflateRfc.NeverOccur`).
- `src/audio/ape_decoder.c:903`. A failed `ape_seek_to_pcm_frame` leaves the reading position as it
  was. The samples still to be read are left as well if the frame's bytes are missing, more than
  three of them are to be skipped, or they hold no header; otherwise those that the entropy decoder
  has written over are lost. `ApeDecoder.ApeDecoder.Seek` states the buffers in every case;
  `ApeSeekExample.Compare` is a file on which a failed seek changes what is read next.
- `src/audio/ape_decoder.c:228-255`. In the APE value format before 3990 an encoder can produce
  exactly the values in (-2^30, 2^30] (`ApeReach.Reach3900`), and no bytes at all decode to -2^31
  (`ApeReach.NeverDecoded`); in the newer format it can produce all 32-bit values. 16-bit stereo
  samples never need more (`ApeFrame.SixteenCodable`). 16-bit mono samples can: predictions are not
  cut to 32 bits there (`src/audio/ape_decoder.c:503-508`), and `ApeMonoDrift.NotCodable` is a
  recording whose residuals grow out of the range. Up to 2^21 samples in a frame they do not
  (`ApeFrame.MonoSixteenCodable`); that condition is not exact: how much longer a frame may be is
  between that and the 52 320 020 samples of the recording, which no bytes decode to
  (`ApeMonoDrift.NotDecodable`).
- `src/audio/ape_decoder.c:762-767`. The sample buffers are sized for `blocksperframe`, while a
  frame table whose last frame is longer is accepted and its frame decoded into them. Every write
  stays in its channel's part if and only if the frame is at most 2^31 - 1 blocks long and fits the
  rounded size: for stereo `blocksperframe` rounded up to a multiple of 8, for mono twice that, and
  nothing from 2^32 - 7 on, where the rounding wraps to 0 (`ApeFrameDecoder.FitsIffInside`).
  `ApeLongFrame.LastFrameTooLong` is a file that is opened and played beyond its buffers. Reading
  and seeking are proved for all files whose frames fit (`ApeDecoder.Playable`).

## Model

| member | source | states |
|---|---|---|
| Words.BitReverseIsPos | stb_vorbis/stb_vorbis.c:1010-1017 | the five masked swaps read a 32-bit word with its bit order turned round, for every word |
| VorbisTree.DeepCannotCover | stb_vorbis/stb_vorbis.c:1110-1117 | free leaves that get strictly lower as they get deeper can never cover a whole block of one depth: the fact behind "it seems true" |
| VorbisTree.DeepestIsLowest | stb_vorbis/stb_vorbis.c:1110-1118 | the first non-empty slot at or above the wanted depth holds the numerically lowest free aligned block of that length |
| VorbisTree.NoLeafNoBlock | stb_vorbis/stb_vorbis.c:1116-1117 | when the search finds no slot, there is no free block of that length anywhere |
| VorbisTree.SplitSlots | stb_vorbis/stb_vorbis.c:1118-1127 | one round keeps the slot invariant: one free leaf per depth, strictly decreasing codes, used and free intervals tiling the 32-bit space, every slot that is filled was empty |
| VorbisTree.SplitLowest | stb_vorbis/stb_vorbis.c:1118-1120 | the block given to an entry is the lowest one free at that moment (section 3.2.1 of the Vorbis I specification) |
| VorbisTree.TakeEntry | stb_vorbis/stb_vorbis.c:1105-1128 | slots and Kraft sum after a used entry: what is free and what is taken always add up to the code space |
| VorbisTree.NoLeafOverflows | stb_vorbis/stb_vorbis.c:1117 | a failed search means that the lengths so far exceed the code space |
| VorbisTree.SpecCodeUnique | stb_vorbis/stb_vorbis.c:1086-1130 | the lengths determine the code: two assignments of lowest free blocks agree on every used entry |
| VorbisTree.SpecCodeIffKraft | stb_vorbis/stb_vorbis.c:1086-1130 | such an assignment exists exactly when the Kraft sum of the used lengths is at most 1 |
| VorbisTree.CodesApart | stb_vorbis/stb_vorbis.c:1086-1130 | blocks of different used entries never overlap |
| VorbisMatch.StoredCode | stb_vorbis/stb_vorbis.c:1120 | the stored word is the codeword read with its first bit least significant, and reversing it again gives the code |
| VorbisMatch.MaskIffPrefix | stb_vorbis/stb_vorbis.c:1699 | masking the accumulator to a codeword's length gives the stored word exactly when the codeword is a prefix of the bits |
| VorbisMatch.MaskIffInterval | stb_vorbis/stb_vorbis.c:1666-1681 | the same test by order: exactly when the reversed accumulator lies in the codeword's interval |
| VorbisMatch.PrefixFree | stb_vorbis/stb_vorbis.c:1086-1130 | at most one codeword begins any bit string |
| VorbisCodewords.AddEntry | stb_vorbis/stb_vorbis.c:1075-1084 | a dense book stores the code at the symbol, a sparse book packs code, length and symbol at the count |
| VorbisCodewords.Propagate | stb_vorbis/stb_vorbis.c:1121-1127 | the leaves below the split leaf go into exactly the slots down to the entry's depth, all of which were empty (the assert) |
| VorbisCodewords.TakeLeaf | stb_vorbis/stb_vorbis.c:1105-1128 | one round of the main loop keeps slots, stored codes and the Kraft balance, or shows that the lengths are oversubscribed |
| VorbisCodewords.ComputeCodewords | stb_vorbis/stb_vorbis.c:1086-1130 | returns TRUE exactly when the Kraft sum is at most 1; then every used entry holds the lowest free block in order, bit-reversed, in the dense or the sparse layout |
| VorbisCodebook.BinarySearch | stb_vorbis/stb_vorbis.c:1210-1220 | the halving loop ends between the last key not above the code and the first one above it, in the builder and in the decoder |
| VorbisCodebook.Qsort | stb_vorbis/stb_vorbis.c:1197 | the first `count` elements are ascending and a permutation of what they were; the others stay |
| VorbisCodebook.FillKeys | stb_vorbis/stb_vorbis.c:1186-1195 | the keys are the reversed stored words of the included entries, in order, and nothing else |
| VorbisCodebook.SortedKeys | stb_vorbis/stb_vorbis.c:1186-1198 | strictly increasing codes, a permutation of the included ones, and the sentinel 0xffffffff |
| VorbisCodebook.Locate | stb_vorbis/stb_vorbis.c:1209-1221 | the search for an entry's own key finds it at its only place: the assert never fires |
| VorbisCodebook.ComputeSorted | stb_vorbis/stb_vorbis.c:1179-1230 | sorted keys with each entry's symbol (and length, in a sparse book) beside its own key |
| VorbisCodebook.KeysDistinct | stb_vorbis/stb_vorbis.c:1186-1195 | different included entries have different keys |
| VorbisCodebook.PlacedIsIndexed | stb_vorbis/stb_vorbis.c:1179-1230 | the sorted tables are a faithful index: every place holds the code of its symbol, every included symbol has exactly one place |
| VorbisSetup.MarkSlot | stb_vorbis/stb_vorbis.c:1146-1151 | exactly the table entries whose low bits are the codeword get the slot |
| VorbisSetup.ComputeAccelerated | stb_vorbis/stb_vorbis.c:1134-1154 | each of the 1024 entries names the short codeword among the first 32767 slots that begins its bits, or is -1 |
| VorbisSetup.CountEntries | stb_vorbis/stb_vorbis.c:3816-3826 | the number of used entries |
| VorbisSetup.Setup | stb_vorbis/stb_vorbis.c:3802-3874 | the sparse-to-dense decision and the three table builders: succeeds exactly when the lengths fit, and then all tables describe the one code they determine |
| VorbisPages.HeaderRead | stb_vorbis/stb_vorbis.c:1431-1469 | a page header that is written is parsed back: continued flag, lacing values, and where the body begins |
| VorbisPages.PacketRoundTrip | stb_vorbis/stb_vorbis.c:1539-1573 | every packet, whatever its length, wherever on a page it begins, cut onto continued pages anywhere and followed by other packets, is read back from the bytes of the file; it ends properly, and the reader is left behind its last byte |
| VorbisPacket.PacketReader.CapturePattern | stb_vorbis/stb_vorbis.c:1431-1438 | succeeds exactly at the four bytes OggS; otherwise everything up to and including the first wrong byte is used up |
| VorbisPacket.PacketReader.StartPage | stb_vorbis/stb_vorbis.c:1444-1501 | on the bytes of the file: succeeds exactly if a page header is there with all its lacing values; then flag, lacing values and place in the file are the page's, while the table keeps older values beyond them; after a failure exactly the bytes looked at are used up |
| VorbisPacket.PacketReader.StartPacket | stb_vorbis/stb_vorbis.c:1503-1516 | at a page's end the next page is entered, and refused if it continues a packet; the state after it in full |
| VorbisPacket.PacketReader.NextSegment | stb_vorbis/stb_vorbis.c:1539-1558 | entering a segment, over page boundaries, neither loses nor invents a byte of the packet, unless the lacing value is taken from a page that has none; then it is the one an earlier page has left. Without a segment left, the packet is over for good if and only if no page that fails to continue it follows |
| VorbisPacket.PacketReader.Get8PacketRaw | stb_vorbis/stb_vorbis.c:1563-1573 | returns the packet's bytes in order, joined over segments and continued pages, then EOP, which lasts if and only if the packet ends properly; what it returns in the remaining case too |
| VorbisPacket.PacketReader.FlushPacket | stb_vorbis/stb_vorbis.c:1592-1595 | over a whole packet: a stale lacing value is taken if and only if the packet runs into a page without any; otherwise the bytes passed over are the rest of the packet, place and lacing values left are those behind it, and the packet is over for good if and only if it ends properly |
| VorbisPacketExamples.ReadWritten | stb_vorbis/stb_vorbis.c:1503-1595 | from start_packet to the end of a written packet, on a page of its own or after others: its bytes, and then the packet that follows |
| VorbisPacketExamples.ReadBare | stb_vorbis/stb_vorbis.c:1539-1558 | a packet of 256 bytes whose second page has no lacing values: after its first 255 bytes the one read is the first one of a page header |
| VorbisPacketExamples.ReadUnmarked | stb_vorbis/stb_vorbis.c:1545-1640 | a packet that the next page does not continue: EOP once, and then the accumulator is loaded with the next packet's byte |
| VorbisPacketExamples.ReadCut | stb_vorbis/stb_vorbis.c:1545-1643 | in the same file: get_bits finds the packet over, and then prep_huffman would shift by -1 |
| VorbisPacketExamples.ReadShort | stb_vorbis/stb_vorbis.c:1601-1608 | a read of 32 bits from the packet 01 02 03 returns 0x030201, and the packet is over |
| VorbisPacket.PacketReader.GetBits | stb_vorbis/stb_vorbis.c:1599-1628 | returns exactly the next n bits, first bit least significant; with fewer left the packet is over and every later call returns 0. The shift is defined if and only if it is not one of 32 bits with 32 held; at most 7 bits are left held unless more were held before |
| VorbisPacket.PacketReader.GetLong | stb_vorbis/stb_vorbis.c:1605-1610 | reads of more than 24 bits in two parts; if only the second part fails, the first 24 bits are still returned |
| VorbisPacket.PacketReader.Fill | stb_vorbis/stb_vorbis.c:1611-1620 | the byte loop adds whole bytes above the held ones until there are enough, or the packet is over |
| VorbisPacket.PacketReader.PrepHuffman | stb_vorbis/stb_vorbis.c:1634-1647 | loads bytes while at most 24 bits are held and the packet lasts, leaving the unread bits as they were; with valid_bits at -1 the shift is defined if and only if no byte is left |
| VorbisPacket.LoadedEnough | stb_vorbis/stb_vorbis.c:1634-1647 | afterwards at least 25 bits are held, or all that are left |
| VorbisDecode.FastHit | stb_vorbis/stb_vorbis.c:1720-1722 | a slot found in the accelerator is a used symbol whose codeword begins the accumulator |
| VorbisDecode.FastComplete | stb_vorbis/stb_vorbis.c:1720-1722 | a short codeword among the first 32767 slots that begins the accumulator is found there |
| VorbisDecode.SearchHit | stb_vorbis/stb_vorbis.c:1666-1684 | the binary search lands on the one included symbol whose codeword begins the accumulator, when there is one |
| VorbisDecode.LinearSearch | stb_vorbis/stb_vorbis.c:1695-1712 | the scan of a small dense book returns the symbol whose codeword begins the accumulator, or -1 when no codeword does |
| VorbisDecode.SearchSlot | stb_vorbis/stb_vorbis.c:1666-1684 | reversal, search and the step from sorted index to slot |
| VorbisDecode.FindSlot | stb_vorbis/stb_vorbis.c:1661-1713 | whichever second stage is picked finds the symbol |
| VorbisDecode.DecodeScalarRaw | stb_vorbis/stb_vorbis.c:1656-1713 | the second decoding stage: the symbol's bits are used exactly if all of them are held, otherwise the accumulator is emptied and -1 returned |
| VorbisDecode.DecodeRaw | stb_vorbis/stb_vorbis.c:1717-1729 | both stages: symbol s comes out if and only if it is reachable and its codeword fits the loaded bits |
| VorbisDecode.Decode | stb_vorbis/stb_vorbis.c:1754-1756 | the same for symbols; not reachable are exactly short codewords of dense books at entry 32767 or later. The table of symbols is there to be read if and only if the book is dense or has a used entry |
| VorbisDecode.DecodeFirst | stb_vorbis/stb_vorbis.c:1754-1756 | one written symbol comes back and its bits are gone |
| VorbisDecode.DecodeRun | stb_vorbis/stb_vorbis.c:1717-1756 | Huffman round trip: any sequence of reachable symbols with codewords of at most 25 bits, written to a packet before any tail, is decoded to itself and exactly its bits are used |
| VorbisDecode.LongCodewordsDependOnPhase | stb_vorbis/stb_vorbis.c:1634-1646 | a codeword length is always loaded in full, whatever the bit phase, if and only if it is at most 25 |
| VorbisLost.DecodeLadder | stb_vorbis/stb_vorbis.c:1717-1756 | an accepted book with codewords of up to 26 bits, and a packet of two of its symbols: the first one comes back, the second one, of 26 bits, does not |
| VorbisLost.LostFits | stb_vorbis/stb_vorbis.c:1070-1131 | 32767 codewords of 20 bits and one of a single bit make an accepted book |
| VorbisLost.LostUnreachable | stb_vorbis/stb_vorbis.c:1142-1165 | however its tables were built, the one-bit codeword of its last symbol is in none of them |
| VorbisLost.DecodeLost | stb_vorbis/stb_vorbis.c:1718-1753 | and no packet that continues with that codeword decodes to the symbol |
| VorbisLost.DecodeEmpty | stb_vorbis/stb_vorbis.c:1754-1756 | a sparse book of four unused entries is set up, and every decode reads a table that is not there |
| VorbisDecode.CompleteCovers | stb_vorbis/stb_vorbis.c:1671-1688 | in a complete code every 32-bit window begins with an assigned codeword |
| VorbisArena.KeepInside | stb_vorbis/stb_vorbis.c:950-961 | a block from the front that is granted keeps 0 <= setup_offset <= temp_offset <= length if and only if its truncated size, and the offset with it, are not negative as ints |
| VorbisArena.BorrowInside | stb_vorbis/stb_vorbis.c:969-978 | a block from the back that is granted keeps them if and only if its truncated size is not negative |
| VorbisArena.KeepRight | stb_vorbis/stb_vorbis.c:950-961 | a granted block is as large as the caller asked, rounded to whole words, if and only if its end is an int; a refusal is always right: there is no room |
| VorbisArena.BorrowRight | stb_vorbis/stb_vorbis.c:969-978 | the same for a temporary block, if and only if its size is at most 0x7ffffff8 |
| VorbisArena.AllRight | stb_vorbis/stb_vorbis.c:950-987 | over any run of requests whose sizes and sums fit, the two offsets are exactly the sums of what is kept and what is lent out, and stay in bounds |
| VorbisArena.BlocksApart | stb_vorbis/stb_vorbis.c:950-987 | after any run of requests in which sizes and sums fit an int, the live blocks lie inside the buffer and are pairwise disjoint |
| VorbisArena.ReturnUndoes | stb_vorbis/stb_vorbis.c:969-987 | giving back the latest temporary block undoes taking it, whatever was truncated |
| VorbisArena.Arena.SetupMalloc | stb_vorbis/stb_vorbis.c:950-961 | the offsets are those of the request, size truncated to int and sum wrapped |
| VorbisArena.Arena.TempMalloc | stb_vorbis/stb_vorbis.c:969-978 | likewise from the back |
| VorbisArena.Arena.TempFree | stb_vorbis/stb_vorbis.c:980-987 | gives back the latest temporary block |
| VorbisArena.Arena.SetupCodebook | stb_vorbis/stb_vorbis.c:3764-3950 | over all the requests of one codebook (sparse, sparse turned dense, dense, empty, any lookup type): it succeeds if and only if its data are accepted and every request is served; if all blocks were right before, they are right after it if and only if what is kept stays an int |
| VorbisArena.BookRight | stb_vorbis/stb_vorbis.c:3769-3950 | that condition on the header: what an accepted book keeps is its BookBytes, its temporary blocks are all given back, and blocks are right afterwards if and only if the sum stays an int |
| VorbisArena.BookOffsets | stb_vorbis/stb_vorbis.c:3769-3950 | said of the offsets: setup_offset moves by exactly what the book keeps if and only if the sum is an int, and then temp_offset is back where it was and both are in bounds |
| VorbisArena.TablesFit | stb_vorbis/stb_vorbis.c:3790-3876 | the bytes that a book keeps are room for exactly the tables it is set up with |
| VorbisArena.SmallBook | stb_vorbis/stb_vorbis.c:3769-3950 | at most 2^27 values and a buffer of at most 2^30 bytes are enough for that |
| VorbisArena.WideAccepted | stb_vorbis/stb_vorbis.c:3764-3950 | 917504 entries of length 20 with 4096 dimensions, ordered, lookup type 2, are an accepted book |
| VorbisArena.WideServed | stb_vorbis/stb_vorbis.c:950-987 | in a buffer of 12 000 000 bytes all its requests are served, and leave setup_offset negative |
| VorbisArena.SetupWide | stb_vorbis/stb_vorbis.c:3764-3950 | so the book is set up, and the next block would begin before the buffer |
| VorbisArena.Arena.Tables | stb_vorbis/stb_vorbis.c:3769-3872 | the requests up to the sorted tables, in order, or a refusal among them; temporary blocks are given back in reverse order |
| VorbisArena.Arena.Lookup | stb_vorbis/stb_vorbis.c:3877-3950 | the requests for the multiplicands, including the empty sparse book that has none |
| Floor1.PredictBetween | stb_vorbis/stb_vorbis.c:1935-1943 | between its two points the prediction lies between their amplitudes |
| Floor1.UnwrapInRange | stb_vorbis/stb_vorbis.c:3246-3264 | the amplitude is in [0, range) if and only if the coded value is |
| Floor1.WrapUnwrap | stb_vorbis/stb_vorbis.c:3246-3264 | for every prediction the coded value can be recovered from the amplitude |
| Floor1.UnwrapWrap | stb_vorbis/stb_vorbis.c:3246-3264 | and every amplitude in range has a coded value |
| Floor1.ZeroIsPrediction | stb_vorbis/stb_vorbis.c:3265-3268 | the value 0 is the prediction itself |
| Floor1.Outward | stb_vorbis/stb_vorbis.c:3246-3264 | larger values name amplitudes further from the prediction; of two equally far ones the lower comes first |
| Floor1.WrapIsRank | stb_vorbis/stb_vorbis.c:3246-3268 | so the value of an amplitude is the number of amplitudes in range that come before it in that order: there is only one such map |
| Floor1.UnwrapOne | stb_vorbis/stb_vorbis.c:3246-3268 | the branches on room, highroom and parity compute that map |
| Floor1.PredictionInRange | stb_vorbis/stb_vorbis.c:3238-3244 | a point's prediction from points in range is in range |
| Floor1.AmplitudesInRange | stb_vorbis/stb_vorbis.c:3238-3269 | over the whole point list: all amplitudes are in range if and only if all coded values are |
| Floor1.CodedAmplitudes | stb_vorbis/stb_vorbis.c:3238-3269 | lists of coded values are recovered from their amplitudes |
| Floor1.AmplitudesCoded | stb_vorbis/stb_vorbis.c:3238-3269 | every list of amplitudes in range has a list of coded values |
| Floor1.UnwrapAll | stb_vorbis/stb_vorbis.c:3237-3269 | the loop rewrites finalY in place to those amplitudes and sets step2_flag exactly for used points |
| Floor1.DrawnPoints | stb_vorbis/stb_vorbis.c:3239-3269 | a point that departs from its prediction is drawn, and so are the two points it was predicted from; one that is not drawn has the amplitude predicted for it |
| Floor1.LargestRange | stb_vorbis/stb_vorbis.c:3209-3210 | the number of amplitudes is the largest for which amplitude times multiplier stays in a byte, for each of the four multipliers |
| Floor1Curve.Neighbors | stb_vorbis/stb_vorbis.c:1303-1312 | the closest earlier points below and above, or index 0 where there is none |
| Floor1Curve.DistinctIffStrict | stb_vorbis/stb_vorbis.c:4022-4026 | comparing adjacent sorted points refuses exactly the lists with two equal x |
| Floor1Curve.Setup | stb_vorbis/stb_vorbis.c:4007-4034 | accepted exactly if all points are distinct; then every point from the third on lies between its neighbours and no earlier point is closer |
| Floor1Curve.OnLineStep | stb_vorbis/stb_vorbis.c:2070-2077 | one step of the error accumulator keeps 0 <= err < adx and the balance with the product that the division form divides |
| Floor1Curve.OnLineIsPredict | stb_vorbis/stb_vorbis.c:2034-2081 | that balance means that y is the division form's value (sections 9.2.6 and 9.2.7 of the Vorbis I specification) |
| Floor1Curve.DrawLine | stb_vorbis/stb_vorbis.c:2034-2081 | at every x in [x0, min(x1, n)) the value drawn is predict_point's, for either sign of slope; nothing else is written |
| Floor1Curve.LineThroughPoint | stb_vorbis/stb_vorbis.c:3082-3099 | the curve passes through every point that is drawn |
| Floor1Curve.LineInTable | stb_vorbis/stb_vorbis.c:3082-3105 | between points that index the table the curve does too, so the mask never matters |
| Floor1Curve.KeptPoints | stb_vorbis/stb_vorbis.c:3082-3099 | drawn points come in order of x, start at 0, and amplitude times multiplier is at most 255 |
| Floor1Curve.DoFloor | stb_vorbis/stb_vorbis.c:3080-3107 | every place below n/2 gets the curve's value: lines between drawn points, then the last amplitude |
| Floor1Curve.MarkUnused | stb_vorbis/stb_vorbis.c:3275-3279 | unused points are marked with -1, the others keep their amplitude |
| Floor1Example.AmplitudesAre | stb_vorbis/stb_vorbis.c:3238-3269 | four coded values, 10, 20, 3, 0, at points 0, 8, 4, 6 are the amplitudes 10, 20, 13, 16 |
| Floor1Example.CurveIs | stb_vorbis/stb_vorbis.c:3080-3107 | with multiplier 2 and the last point not drawn, the ten places of the curve |
| Floor1Example.DrawFloor | stb_vorbis/stb_vorbis.c:3075-3107 | from points and coded values through setup, unwrap and drawing to those ten places |
| ApeRange.Shift | src/audio/ape_decoder.c:142-154 | taking in a byte keeps low < range and multiplies the range by 256, for every input |
| ApeRange.Normalize | src/audio/ape_decoder.c:142-154 | ends with range above 2^23 and low < range <= 2^31 |
| ApeRange.Cul | src/audio/ape_decoder.c:156-166 | the divisor is at least 128 for every total up to 2^16: no division by zero |
| ApeRange.CulBound | src/audio/ape_decoder.c:156-166 | the number found exceeds the total by at most 511 |
| ApeRange.Take | src/audio/ape_decoder.c:173-177 | reading a number keeps the decoder safe for every byte string |
| ApeRange.StepTracks | src/audio/ape_decoder.c:142-177 | a decoder in step with an encoder finds a number inside the encoded share and stays in step |
| ApeEntropy.FindSymbol | src/audio/ape_decoder.c:213 | the table search stops at the symbol whose share holds the count, never past 20 |
| ApeEntropy.GetSymbol | src/audio/ape_decoder.c:202-216 | overflow symbols, the direct numbers above 65492 included, keep the decoder safe |
| ApeEntropy.AllShares | src/audio/ape_decoder.c:181-200 | the shares of the 64 symbols fill all 65536 places, and never grow from one symbol to the next |
| ApeEntropy.ShareOfSymbol | src/audio/ape_decoder.c:202-216 | the symbol found is the one in whose share the number lies, the direct numbers above 65492 included |
| ApeEntropy.UpdateRice | src/audio/ape_decoder.c:218-226 | k stays in 0..24 and ksum in 32 bits |
| ApeEntropy.RiceFollows | src/audio/ape_decoder.c:218-220 | while coded values are 2m - 1 or 2m, the sum stays in [32m - 16, 32m + 15] once it is there, and from anywhere else moves towards it without passing it |
| ApeEntropy.RiceBounded | src/audio/ape_decoder.c:218-220 | while they are at most 2m it does not rise past 32m + 15, while they are at least 2m - 1 it does not fall below 32m - 16 |
| ApeEntropy.LevelFollows | src/audio/ape_decoder.c:222-225 | k stays exactly while the new sum is on its level, from 2^(k+4) up to 2^(k+5), and otherwise moves by one towards it |
| ApeEntropy.PivotFollows | src/audio/ape_decoder.c:261-262 | so the pivot is the mean that the sum stands for, within one |
| ApeEntropy.SignedRoundTrip | src/audio/ape_decoder.c:254 | the zig-zag mapping to signed values undoes the coder's, for all 32-bit values |
| ApeEntropy.SignedRoundTripBack | src/audio/ape_decoder.c:293 | and the other way round |
| ApeEntropy.SignedOrder | src/audio/ape_decoder.c:254 | the codes stand for 0, 1, -1, 2, -2 and so on |
| ApeEntropy.Value3990 | src/audio/ape_decoder.c:257-294 | the newer value format keeps every invariant of the entropy decoder |
| ApeEntropy.Value3900 | src/audio/ape_decoder.c:228-255 | the older value format likewise, with its error exits |
| ApeCoding.SymbolFollows | src/audio/ape_decoder.c:202-216 | a coded overflow symbol is found again |
| ApeCoding.BaseFollows | src/audio/ape_decoder.c:271-288 | the number below the pivot is found again, in one part or in two |
| ApeCoding.LowBitsFollow | src/audio/ape_decoder.c:237-239 | while k is on its level, the mean that the sum stands for has exactly one bit more than are read as low bits |
| ApeCoding.Follows3990 | src/audio/ape_decoder.c:257-294 | a value coded in the newer format decodes to itself, for all 32-bit values and every Rice state |
| ApeCoding.Follows3900 | src/audio/ape_decoder.c:228-255 | a value coded in the older format decodes to itself, for all values in (-2^30, 2^30] |
| ApeReach.ChoiceFollows | src/audio/ape_decoder.c:228-255 | whatever an encoder chooses in the older format (a symbol and low bits, or the escape and any number of bits), the decoder reads what was meant |
| ApeReach.Reach3900 | src/audio/ape_decoder.c:228-255 | an encoder can produce a 32-bit value in the older format if and only if it lies in (-2^30, 2^30], whatever the Rice state |
| ApeReach.DecodedSmall | src/audio/ape_decoder.c:228-255 | whatever the bytes and the state of the decoder: a value decoded without error in the older format is at most 0x41010000 in size |
| ApeReach.NeverDecoded | src/audio/ape_decoder.c:228-255 | so no bytes decode to -2^31 or 2^31 - 1 in the older format |
| ApeCoding.WrittenLeads | src/audio/ape_decoder.c:136-154 | for every sequence of coding steps there are bytes, whatever follows them, that lead the decoder through it |
| ApeCoding.PairsRoundTrip | src/audio/ape_decoder.c:301-322 | for every block of codable pairs there are bytes that decode to it without error, at any place in the data |
| ApeCoding.SinglesRoundTrip | src/audio/ape_decoder.c:296-313 | the same for a mono block |
| ApeBytes.StereoBytes | src/audio/ape_decoder.c:301-322 | eight bytes in the newer format and the two pairs that they stand for, with k going down and up again |
| ApeBytes.LargeValue | src/audio/ape_decoder.c:257-294 | eleven bytes that hold an escaped value, with a pivot of more than 16 bits |
| ApeBytes.OldValue | src/audio/ape_decoder.c:228-255 | eight bytes that hold an escaped value in the older format, with 20 low bits |
| ApeBytes.ShortValue | src/audio/ape_decoder.c:228-255 | four bytes and their value in the older format, with nine low bits |
| ApeEntropyDecoder.AdaptiveRice.Update | src/audio/ape_decoder.c:218-226 | the parameters after a value, in place |
| ApeEntropyDecoder.EntropyDecoder.Normalize | src/audio/ape_decoder.c:142-154 | the byte loop terminates and does what the function on values does |
| ApeEntropyDecoder.EntropyDecoder.CulFreq | src/audio/ape_decoder.c:156-166 | the fields after a division |
| ApeEntropyDecoder.EntropyDecoder.GetSymbol | src/audio/ape_decoder.c:202-216 | the loop over the count table finds the function's symbol |
| ApeEntropyDecoder.EntropyDecoder.Value3900 | src/audio/ape_decoder.c:228-255 | the older value format on the decoder's fields |
| ApeEntropyDecoder.EntropyDecoder.Value3990 | src/audio/ape_decoder.c:257-294 | the newer value format on the decoder's fields |
| ApeEntropyDecoder.EntropyDecoder.Halve | src/audio/ape_decoder.c:277-280 | the shortening loop leaves the high part and counts the bits |
| ApeEntropyDecoder.EntropyDecoder.DecodeStereo | src/audio/ape_decoder.c:301-322 | the two sample arrays hold the block's pairs, Y decoded before X |
| ApeEntropyDecoder.EntropyDecoder.DecodeMono | src/audio/ape_decoder.c:296-313 | the same for one array |
| ApeFilter.UnrunRun | src/audio/ape_decoder.c:570-605 | filtering can be undone: every block is recovered from its outputs and the starting state |
| ApeFilter.RunUnrun | src/audio/ape_decoder.c:570-605 | every block of 32-bit outputs is the output of some block |
| ApeAdaptation.ScaleNearest | src/audio/ape_decoder.c:578 | the prediction is the sum of products divided by 2^fracbits, rounded to the nearest, halves upwards |
| ApeAdaptation.StepSize | src/audio/ape_decoder.c:584-589 | the step recorded for an output: 0, 8, 16 or 32 by its size against 4/3 of the mean and three times the mean, with the opposite sign |
| ApeAdaptation.StepMonotone | src/audio/ape_decoder.c:584-589 | larger outputs never take smaller steps |
| ApeAdaptation.MeanMoves | src/audio/ape_decoder.c:591 | the mean moves by a sixteenth of the way to the new size |
| ApeAdaptation.Windows | src/audio/ape_decoder.c:570-605 | after any block the windows hold the latest outputs, clipped, and their steps, halved when one, two and eight more have come |
| ApeAdaptation.StepsOpposed | src/audio/ape_decoder.c:570-605 | in those windows every step is opposed to the output beside it |
| ApeAdaptation.FilterLearns | src/audio/ape_decoder.c:549-598 | sign-LMS: after any block, adapting to a sample moves what the same window predicts in the direction of that sample, by the steps times the outputs |
| ApeFilter.RecordWindows | src/audio/ape_decoder.c:549-605 | writing an output and an adaption sign `order` places apart in one array moves both windows by one and disturbs neither |
| ApeFilter.APEFilter.Init | src/audio/ape_decoder.c:531-540 | only what is read before it is written is cleared, and that suffices |
| ApeFilter.APEFilter.ScalarProductAndMadd | src/audio/ape_decoder.c:549-556 | one pass over the windows gives the sum of products and the adapted coefficients |
| ApeFilter.APEFilter.Record | src/audio/ape_decoder.c:580-604 | recording an output appends to both queues, halves the three old signs and updates the average, across the memmove |
| ApeFilter.APEFilter.Rewind | src/audio/ape_decoder.c:600-604 | the memmove keeps both windows |
| ApeFilter.APEFilter.Sample | src/audio/ape_decoder.c:574-604 | one round on the overlapping buffer is one step of the filter on two queues |
| ApeFilter.APEFilter.Apply | src/audio/ape_decoder.c:570-605 | a block of any length is rewritten in place to the queue filter's outputs |
| ApeExamples.FilterBlock | src/audio/ape_decoder.c:570-618 | the block 100, 100, 100, 100 through filter set 1 is 100, 100, 102, 104 |
| ApePredictor.ResidualUpdate | src/audio/ape_decoder.c:370-420 | the residual is recovered from the sample and the past |
| ApePredictor.UpdateResidual | src/audio/ape_decoder.c:370-420 | every 32-bit sample is produced by some residual |
| ApeAdaptation.PredictionIs | src/audio/ape_decoder.c:399-402 | where nothing wraps, the prediction is the A stage plus half of the B stage, with ten bits of fraction cut off |
| ApeAdaptation.SumsMove | src/audio/ape_decoder.c:408-417 | each stage's sum of products moves by the sizes of its inputs, up for a positive residual and down for a negative one |
| ApeAdaptation.PredictorLearns | src/audio/ape_decoder.c:399-417 | sign-LMS: with the coefficients that a positive residual leaves the same histories predict no less, with those of a negative one no more |
| ApeAdaptation.UpdateIs | src/audio/ape_decoder.c:370-420 | where nothing wraps, an update is the predictor on plain numbers, in all of its seven fields |
| ApeExamples.OneUpdate | src/audio/ape_decoder.c:370-420 | one update with every coefficient and both histories at work |
| ApeExamples.WrappingUpdate | src/audio/ape_decoder.c:399-402 | one whose first sum is cut to 32 bits |
| ApePredictor.UnrunRun | src/audio/ape_decoder.c:424-469 | a stereo block's residuals are recovered from its samples |
| ApePredictor.RunUnrun | src/audio/ape_decoder.c:424-469 | every stereo block of samples comes from some residuals |
| ApePredictor.MonoUnrunRun | src/audio/ape_decoder.c:486-529 | the same for mono, whose arithmetic is 64-bit throughout |
| ApePredictor.MonoRunUnrun | src/audio/ape_decoder.c:486-529 | and the other way round |
| ApePredictorBuffer.PushY | src/audio/ape_decoder.c:378-392 | the Y channel's writes into the shared buffer do not touch the X channel's histories |
| ApePredictorBuffer.PushX | src/audio/ape_decoder.c:378-392 | nor the other way round |
| ApePredictorBuffer.Predictor.Init | src/audio/ape_decoder.c:354-366 | clearing 50 places is enough for every index ever read |
| ApePredictorBuffer.Predictor.UpdateY | src/audio/ape_decoder.c:370-420 | the update of channel Y, on the buffer |
| ApePredictorBuffer.Predictor.UpdateX | src/audio/ape_decoder.c:370-420 | the update of channel X, which sees Y's new value |
| ApePredictorBuffer.Predictor.SlideBuffer | src/audio/ape_decoder.c:471-475 | moving the pointer, or the data when the end is reached, shifts the window by one place |
| ApePredictorBuffer.Predictor.DecodeStereo | src/audio/ape_decoder.c:424-472 | the sliding buffer over a block of any length is the predictor on short lists |
| ApePredictorBuffer.Predictor.MonoSample | src/audio/ape_decoder.c:496-525 | one mono round on the buffer |
| ApePredictorBuffer.Predictor.DecodeMono | src/audio/ape_decoder.c:486-529 | a mono block of any length |
| ApeLossless.UncascadeCascade | src/audio/ape_decoder.c:612-618 | for each of the five filter sets, blocks are recovered from the cascade's outputs |
| ApeLossless.CascadeUncascade | src/audio/ape_decoder.c:612-618 | and every block is the output of some block |
| ApeLossless.FilterSets | src/audio/ape_decoder.c:37-51 | the five filter sets: orders, fraction bits, and which filter comes after which |
| ApeLossless.RecombineSeparate | src/audio/ape_decoder.c:660-668 | left and right are recovered from difference and mean modulo 2^32, with C's truncating division |
| ApeLossless.SeparateRecombine | src/audio/ape_decoder.c:660-668 | and the other way round |
| ApeLossless.DifferenceAndMean | src/audio/ape_decoder.c:663-668 | where nothing wraps, the first number of a pair is right minus left and the second their mean, rounded by C towards the first channel |
| ApeExamples.StereoBlock | src/audio/ape_decoder.c:649-669 | two residual pairs and their left and right samples, the second pair predicted by both stages |
| ApeLossless.StereoLossless | src/audio/ape_decoder.c:649-669 | for each filter set and every length, every stereo block of 32-bit samples is reproduced exactly from its residuals |
| ApeLossless.StereoFaithful | src/audio/ape_decoder.c:649-669 | and residuals are determined by the samples: the map is a bijection |
| ApeLossless.MonoLossless | src/audio/ape_decoder.c:631-647 | the same for mono |
| ApeLossless.MonoFaithful | src/audio/ape_decoder.c:631-647 | the same for mono, in the other direction |
| ApeFrame.SwapSwap | src/audio/ape_decoder.c:696-701 | the byte swap of whole words undoes itself |
| ApeFrame.ReadHeader | src/audio/ape_decoder.c:324-347 | a header that is accepted leaves the range coder's first byte inside the data |
| ApeFrame.StereoFrameRoundTrip | src/audio/ape_decoder.c:685-724 | losslessness from samples to bytes and back: a frame encoding any codable stereo block decodes to that block |
| ApeFrame.EverythingCodable | src/audio/ape_decoder.c:257-294 | from version 3990 on every block of 32-bit pairs is codable |
| ApeFrame.SixteenCodable | src/audio/ape_decoder.c:228-255 | every stereo block of 16-bit samples is codable: in both formats, with every filter set, at every length |
| ApeFrame.SixteenFrameRoundTrip | src/audio/ape_decoder.c:685-724 | a frame encoding any 16-bit stereo block decodes to that block, without further condition |
| ApeBounds.UnrunPairsWithin | src/audio/ape_decoder.c:370-421 | on 16-bit samples nothing in the stereo predictor wraps: the filter holds the sample itself, and residuals stay below 0x240000 |
| ApeBounds.UncascadeWithin | src/audio/ape_decoder.c:570-620 | undoing the filters moves no value further than 0x200001 for each level |
| ApeBounds.StereoSmall | src/audio/ape_decoder.c:424-480 | the residuals of 16-bit stereo samples stay below 2^24, whatever the filter set and the length |
| ApeFrame.MonoFrameRoundTrip | src/audio/ape_decoder.c:685-724 | a frame encoding any codable mono block decodes to that block |
| ApeFrame.MonoSixteenCodable | src/audio/ape_decoder.c:228-294 | 16-bit mono blocks are codable: in the newer format always, in the older one up to 2^21 samples |
| ApeFlags.WordSwapped | src/audio/ape_decoder.c:692-699 | the words of the file have their low byte first |
| ApeFlags.FlaggedHeader | src/audio/ape_decoder.c:327-347 | a first word with its top bit set is followed by a word of flags |
| ApeFlags.SilentFrame | src/audio/ape_decoder.c:631-654 | a frame is all zeros, whatever else it holds, if bits 0 and 1 are set, or one of them where one channel is coded |
| ApeFlags.StereoFlagged | src/audio/ape_decoder.c:685-724 | with other flags a stereo frame decodes to what it encodes |
| ApeFlags.MonoFlagged | src/audio/ape_decoder.c:712-716 | with bit 2 one channel is coded, and comes out on both |
| ApeMonoDrift.Rounds | src/audio/ape_decoder.c:486-520 | on a recording of period 6 the mono coefficients drift by two in every round, always the same way |
| ApeReach.BlockSmall | src/audio/ape_decoder.c:228-255 | whatever the bytes: a whole mono block that is decoded without error has no value larger than that |
| ApeMonoDrift.NotCodable | src/audio/ape_decoder.c:228-255 | so there is a 16-bit mono recording, of 52 320 020 samples, whose residuals the older format cannot hold: the length in MonoSixteenCodable cannot be dropped |
| ApeMonoDrift.NotDecodable | src/audio/ape_decoder.c:685-724 | and no bytes at all, taken as a frame, decode to it |
| ApeFilterBank.FilterBank.Init | src/audio/ape_decoder.c:620-629 | all filters of the set are as freshly cleared |
| ApeFilterBank.FilterBank.ApplyStereo | src/audio/ape_decoder.c:607-618 | level by level, both channels in place, until the order is zero |
| ApeFilterBank.FilterBank.ApplyMono | src/audio/ape_decoder.c:607-618 | the same with one channel |
| ApeFrameDecoder.FrameDecoder.Load | src/audio/ape_decoder.c:693-701 | the bytes read, swapped in place |
| ApeFrameDecoder.FrameDecoder.InitEntropy | src/audio/ape_decoder.c:324-350 | CRC and flags are parsed and the entropy state reset |
| ApeFrameDecoder.FrameDecoder.UnpackMono | src/audio/ape_decoder.c:631-647 | silence, mono and pseudo-stereo frames |
| ApeFrameDecoder.FrameDecoder.UnpackStereo | src/audio/ape_decoder.c:649-669 | entropy decoding, filters, predictor and recombination on the sample arrays |
| ApeFrameDecoder.FrameDecoder.Decode | src/audio/ape_decoder.c:685-724 | on the decoder's own storage, whatever the last frame left there: success, and the samples, are a function of the frame's bytes, its skip and its number of blocks; after a failure the sample buffers hold exactly what the entropy decoder has written over them |
| ApeFrameDecoder.HelpIrrelevant | src/audio/ape_decoder.c:156-166 | the one field not reset, the divisor, is always written before it is read |
| ApeDemux.Build | src/audio/ape_demux.c:92-149 | the two passes over the frame table compute each frame's position, size, blocks and skip, with 64-bit wrap-around, and the sample total |
| ApeDemux.FramesTile | src/audio/ape_demux.c:111-149 | for an ordered seek table frames are whole words from the first frame's start, hold their bytes after the skip, and neighbours share one word exactly when the second begins inside it |
| ApeDemux.LastUnknown | src/audio/ape_demux.c:133-149 | where the end of the audio data is unknown or no word of it is left, the last frame gets eight bytes for each block |
| ApeDemux.BlocksBefore | src/audio/ape_demux.c:92-131 | frame n begins at sample n * blocksperframe |
| ApeDecoder.ApeDecoder.DecodePhysicalFrame | src/audio/ape_decoder.c:685-724 | the carry holds exactly the frame's samples, or position and count are as before and the buffers are those that the failing frame leaves |
| ApeDecoder.PcmNearest | src/audio/ape_decoder.c:829-836 | the values given out are the 16-bit numbers nearest to the decoded samples |
| ApeDecoder.ApeDecoder.TakeCarry | src/audio/ape_decoder.c:823-836 | the next samples of the carry, in order, clipped to 16 bits |
| ApeDecoder.ApeDecoder.Refill | src/audio/ape_decoder.c:804-821 | at the end of the carry: the next frame, the end of the file, or a failing frame that is passed over |
| ApeDecoder.ApeDecoder.Read | src/audio/ape_decoder.c:796-844 | a read gives the next n samples, or all up to the next failing frame or the end; position, error count and status follow; so reads concatenate as long as no failing frame is met |
| ApeDecoder.FiveFailures | src/audio/ape_decoder.c:812-822 | where the next five frames fail, four reads can be recovered from and the fifth can not |
| ApeDecoder.ApeDecoder.Seek | src/audio/ape_decoder.c:896-914 | succeeds exactly if the target frame decodes; then reading continues at the position sought. After a failure the position is as before; the carry is too if the frame's bytes or header are missing, and otherwise what the entropy decoder has not written over |
| ApeSeekExample.BrokenFrame | src/audio/ape_decoder.c:257-294 | a frame that ends after its first coded byte fails, and leaves the value 7 in the buffer |
| ApeSeekExample.Compare | src/audio/ape_decoder.c:896-914 | reading one sample after opening gives 0; reading it after opening and a seek that fails gives 7 |
| ApeFrameDecoder.FitsIffInside | src/audio/ape_decoder.c:707-770 | every write of a frame of n blocks goes into its own channel's part of the buffer, and n is a count the loops can run through, if and only if n is at most 2^31 - 1 and the room that the rounded blocksperframe gives |
| ApeLongFrame.LastFrameTooLong | src/audio/ape_decoder.c:707-770 | a stereo file of one block to a frame and nine in the last: it is opened and both frames decode, but the ninth sample of the first channel is written over the second channel's first, and the second channel's ninth beyond the allocation |
| ApeDecoder.ApeDecoder.Open | src/audio/ape_decoder.c:726-787 | opening succeeds exactly if the first frame decodes, for every file whose frames all fit the buffers, the longer last frames that fit included |
| ApeDecoder.TargetHolds | src/audio/ape_decoder.c:898-912 | the target frame holds the position; only the last one may end there |
| ApeDecoder.SeekPosition | src/audio/ape_decoder.c:896-914 | when every frame decodes, seek(i) followed by reading gives the full decode from sample i on |
| ApeDecoder.LosslessFile | src/audio/ape_decoder.c:726-844 | a 16-bit stereo file whose frames encode a recording plays back that recording, sample for sample, in both formats |
| ApeDecoder.LosslessMonoFile | src/audio/ape_decoder.c:726-844 | the same for a mono file; in the older format with frames of up to 2^21 samples |
| ApeFile.StereoShort | src/audio/ape_decoder.c:228-294 | an encoded stereo frame takes at most 30 bytes for each sample and 6 besides, whatever the samples, the format and the filters |
| ApeFile.StereoFileExists | src/audio/ape_decoder.c:685-844 | every 16-bit stereo recording of less than 2^26 samples has a file, with a frame table as the container's fields give it and its frame within the size that is read, that plays it back, in both formats and with every filter set |
| ApeFile.MonoFileExists | src/audio/ape_decoder.c:685-844 | so has every mono recording, in the older format up to 2^20 samples |
| InflateCode.LongerAfter | tinfl/miniz_tinfl.c:342-347 | codes of greater length come after all shorter ones |
| InflateCode.PrefixFree | tinfl/miniz_tinfl.c:342-359 | canonical codewords (section 3.2.2 of RFC 1951): at most one begins any bit string |
| InflateCode.CompleteCovers | tinfl/miniz_tinfl.c:349 | when total is 65536 every 15 bits begin with a codeword |
| InflateCode.AcceptedFits | tinfl/miniz_tinfl.c:349 | lengths that are accepted, the at-most-one-code escape included, never exceed the code space |
| InflateTables.ReadMeaning | tinfl/miniz_tinfl.c:161-173 | lookup and tree walk give, for any 15 bits, the symbol whose canonical code they begin with and its length; where none begins, symbol 0 and the place where the bits leave the code |
| InflateTables.WalkMeaning | tinfl/miniz_tinfl.c:163-169 | the walk from any pair of cells |
| InflateNodes.NodeBound | tinfl/miniz_tinfl.c:374-390 | there are never more pairs of cells than symbols (five for a single code), for every set of codewords entered |
| InflateBuild.FirstCodes | tinfl/miniz_tinfl.c:338-348 | next_code and used_syms from the counts |
| InflateBuild.Reverse | tinfl/miniz_tinfl.c:358-360 | the mirrored code |
| InflateBuild.FillEntries | tinfl/miniz_tinfl.c:361-370 | exactly the entries whose low bits are the mirrored code get the value |
| InflateBuild.ShortInsert | tinfl/miniz_tinfl.c:361-370 | entering a short code keeps the table invariant |
| InflateBuild.NewRoot | tinfl/miniz_tinfl.c:371-376 | the pair for a new ten-bit prefix keeps it |
| InflateBuild.NewBranch | tinfl/miniz_tinfl.c:378-388 | so does a pair further down |
| InflateBuild.LeafInsert | tinfl/miniz_tinfl.c:389-390 | and the symbol in the last cell |
| InflateBuild.InsertLong | tinfl/miniz_tinfl.c:371-391 | a code of more than ten bits is entered without leaving the array |
| InflateBuild.BuildTable | tinfl/miniz_tinfl.c:327-392 | lengths are refused exactly if they neither fill the code space nor leave at most one code; otherwise the tables read as the code says |
| InflateStream.MeaningDetermined | tinfl/miniz_tinfl.c:112-135 | what bits mean depends on no bit after the symbol's own |
| InflateStream.ResolveMore | tinfl/miniz_tinfl.c:112-135 | so a decision made on part of the bits stands when more arrive |
| InflateStream.CompleteHasNoHoles | tinfl/miniz_tinfl.c:349 | a complete code leaves no bits without a symbol |
| InflateHoles.HolesIffIncomplete | tinfl/miniz_tinfl.c:349 | among the accepted tables exactly those that do not fill the code space leave bits without a symbol |
| InflateHoles.IncompleteIffFew | tinfl/miniz_tinfl.c:349 | and these are the ones with at most one code |
| InflateStream.BitReader.Fetch | tinfl/miniz_tinfl.c:65-83 | a byte goes in above the bits held; the position in the stream does not move |
| InflateStream.BitReader.GetBits | tinfl/miniz_tinfl.c:76-106 | the next n bits, or too few of them in this call's input |
| InflateStream.BitReader.GetByte | tinfl/miniz_tinfl.c:65-74 | a byte straight from the input |
| InflateStream.BitReader.Align | tinfl/miniz_tinfl.c:84-94 | to the next byte boundary of the stream |
| InflateStream.BitReader.PushBack | tinfl/miniz_tinfl.c:634-641 | whole bytes of this call's input are given back: 8 * bytes - num_bits does not change |
| InflateStream.BitReader.Lookup | tinfl/miniz_tinfl.c:161-173 | the table walk on the bit buffer with zeros above |
| InflateStream.BitReader.Decided | tinfl/miniz_tinfl.c:112-131 | the test of the careful path: do the bits held decide the symbol? |
| InflateStream.BitReader.Fill | tinfl/miniz_tinfl.c:112-135 | single bytes until the symbol is decided, and none beyond what it needs |
| InflateStream.BitReader.HuffDecode | tinfl/miniz_tinfl.c:143-175 | the stream's next symbol, on either path; fails only when the input so far does not decide it |
| InflateLogic.ZlibHeaders | tinfl/miniz_tinfl.c:231-242 | a zlib header is let through if and only if CM is 8, FDICT is off, both bytes are a multiple of 31 and, with a window that wraps, CINFO is at most 7 and asks for no more than there is (section 2.2 of RFC 1950) |
| InflateLogic.Step | tinfl/miniz_tinfl.c:226-625 | a step of the coroutine's control on the whole stream: what was put out stays |
| InflateLogic.SameResult | tinfl/miniz_tinfl.c:181-680 | two ways through the same stream agree on common output, and on everything once neither can go on, because it has stopped or because the stream is too short |
| InflateLogic.HoleEnds | tinfl/miniz_tinfl.c:440-512 | a run that meets a hole sooner or later has met it wherever it cannot go on |
| InflateLogic.FixedComplete | tinfl/miniz_tinfl.c:294-308 | the fixed code (section 3.2.6 of RFC 1951) is complete |
| InflateRfc.ExampleCodes | tinfl/miniz_tinfl.c:327-345 | the codes of the example in section 3.2.2 of RFC 1951 |
| InflateRfc.Consecutive | tinfl/miniz_tinfl.c:327-345 | symbols of one length have consecutive codes |
| InflateRfc.BlockKinds | tinfl/miniz_tinfl.c:245-312 | what the three bits of a block header mean (section 3.2.3) |
| InflateRfc.StoredHeaders | tinfl/miniz_tinfl.c:257-260 | a stored block is let through exactly if its length comes again with all bits turned over (section 3.2.4) |
| InflateRfc.LengthTable | tinfl/miniz_tinfl.c:189-190 | lengths follow one another without gap or overlap from 3 to 258, and the extra bits of symbol 257 + i are i/4 - 1 from i = 8 on (section 3.2.5) |
| InflateRfc.DistanceTable | tinfl/miniz_tinfl.c:191-192 | distances likewise from 1 to 32768, with i/2 - 1 extra bits from i = 4 on |
| InflateRfc.OneLengthSymbol | tinfl/miniz_tinfl.c:189-190 | so a length has one symbol and one number of extra bits, but for 258, which has two |
| InflateRfc.OneDistanceSymbol | tinfl/miniz_tinfl.c:191-192 | and a distance has one |
| InflateRfc.LongestDistance | tinfl/miniz_tinfl.c:729-737 | the window of the callback loop holds exactly the longest distance |
| InflateRfc.FixedCodes | tinfl/miniz_tinfl.c:294-310 | every word of the fixed code, as section 3.2.6 lists them |
| InflateRfc.NeverOccur | tinfl/miniz_tinfl.c:516-536 | symbols 286 and 287 are let through as matches without a byte, 30 and 31 as distance 0: refused without a window, and a whole window back with one |
| InflateRfc.TableSizeRanges | tinfl/miniz_tinfl.c:313-317 | 257 to 288 literal/length codes, 1 to 32 distance codes, 4 to 19 code-length codes (section 3.2.7) |
| InflateRfc.CodeLengthOrder | tinfl/miniz_tinfl.c:193 | the code lengths come with the repetitions and zero first, and then outwards from 8 |
| InflateRfc.RepeatRanges | tinfl/miniz_tinfl.c:408-410 | the ranges of the three repetitions |
| InflateRfc.Repetitions | tinfl/miniz_tinfl.c:404-419 | what a repetition writes, and when lengths are refused |
| InflateRfc.AbcdInflated | tinfl/miniz_tinfl.c:181-680 | seven bytes, literals and a match with the fixed code: however they are given, once the inflater is done it has put out abcdabcd |
| InflateWindow.ExtendedAt | tinfl/miniz_tinfl.c:541-598 | a match repeats the last `distance` bytes (section 3.2.3 of RFC 1951), however long it is |
| InflateWindow.CopyRuns | tinfl/miniz_tinfl.c:541-598 | the machine's steps through a match append exactly that |
| InflateWindow.SourceIndex | tinfl/miniz_tinfl.c:541-551 | masking the difference of positions finds the byte a distance away, for every distance; 0 and multiples of the window reach back one whole window |
| InflateWindow.Output.Put | tinfl/miniz_tinfl.c:432-437 | a byte in the window is a byte of the output; the last `window` bytes stay in their places |
| InflateWindow.Output.CopyMasked | tinfl/miniz_tinfl.c:545-552 | the byte-wise copy appends the match as far as there is room |
| InflateWindow.Output.CopyStraight | tinfl/miniz_tinfl.c:582-597 | the copy three bytes at a time appends the match, overlapping or not |
| InflateWindow.Output.CopyMatch | tinfl/miniz_tinfl.c:534-598 | whichever copy is picked, the output is extended by the match |
| InflateWindow.Output.Produced | tinfl/miniz_tinfl.c:645-648 | the bytes written by a call are where the caller looks for them |
| InflateEngine.Inflator.NumberStep | tinfl/miniz_tinfl.c:245-322 | fields and extra bits: one step of the machine, or nothing has moved and more input is needed |
| InflateEngine.Inflator.SymbolStep | tinfl/miniz_tinfl.c:426-431 | symbols on the careful path, as soon as the bits taken from the input decide them; exactly where no literal/length code begins, a literal 0 is made of no bits |
| InflateEngine.Inflator.EmitStep | tinfl/miniz_tinfl.c:432-437 | literals wait for room |
| InflateEngine.Inflator.CopyStep | tinfl/miniz_tinfl.c:534-598 | a match, suspended where the buffer is full and resumed there |
| InflateEngine.Inflator.MoveStep | tinfl/miniz_tinfl.c:249-605 | places that need neither bits nor room, the table builds among them |
| InflateEngine.Inflator.AlignAndGiveBack | tinfl/miniz_tinfl.c:602-612 | the assert holds if and only if the last block does not end a whole byte or more before this call's input begins; and it always holds if no bits were read where no code begins |
| InflateHoles.AssertionFails | tinfl/miniz_tinfl.c:612 | from the first byte of a concrete stream, given in 140 bytes and one: after the second call's last symbol, at bit 1112, eight bits are held that belong to the first call, and the assert fails |
| InflateEngine.Inflator.StoredStep | tinfl/miniz_tinfl.c:261-287 | stored bytes straight from input to output |
| InflateEngine.Inflator.FastStep | tinfl/miniz_tinfl.c:440-512 | two symbols at a time with four bytes read ahead: the same steps of the machine; where no code begins it fails instead |
| InflateEngine.Inflator.Advance | tinfl/miniz_tinfl.c:226-625 | every action is some number of machine steps, and uses bits, room or rank; it waits for input only if the input so far does not allow the next step |
| InflateDecompress.Decompressor.RunOn | tinfl/miniz_tinfl.c:226-625 | actions end: no endless loop inside a call |
| InflateDecompress.Decompressor.Check | tinfl/miniz_tinfl.c:649-677 | the checksum over all output so far, and the comparison at the end |
| InflateDecompress.Decompressor.Decompress | tinfl/miniz_tinfl.c:181-680 | a call takes some of its input, appends to the output what the machine on the whole stream puts out, and keeps state and stream in step over suspension, resumption and giving back |
| InflateDecompress.DoneIsNotDoomed | tinfl/miniz_tinfl.c:440-512 | success is never reported past a place where no code begins |
| InflateDecompress.CompleteRuns | tinfl/miniz_tinfl.c:327-512 | where every literal/length table accepted on the stream is complete, a run never meets bits without a code |
| InflateDecompress.ChunkIndependent | tinfl/miniz_tinfl.c:181-680 | where every literal/length table accepted on the stream is complete: once one way of calling has come to an end (done, failed, or all of a truncated stream taken), every other way, however input and output are cut, has given a part of the same output, and if it has come to an end too, is in the same state |
| InflateDecompress.NoHoleAgrees | tinfl/miniz_tinfl.c:181-680 | the same for every stream, if the way that has come to an end has met no bits without a code |
| InflateDecompress.DoneIsIndependent | tinfl/miniz_tinfl.c:181-680 | the same for every stream without any condition, if one way of calling has decompressed all of it |
| InflateHoles.CarefulAtHole | tinfl/miniz_tinfl.c:422-512 | the careful path at bits without a code: a zero is put out, and the inflater is back at the same bits |
| InflateHoles.FastAtHole | tinfl/miniz_tinfl.c:440-512 | the fast path there: it fails, with nothing put out |
| InflateCutting.ByteByByte | tinfl/miniz_tinfl.c:422-512 | calls with one byte each: a byte is put out on a stream that meets bits without a code, and the caller is asked to go on |
| InflateCutting.AtOnce | tinfl/miniz_tinfl.c:422-512 | one call with the whole stream fails, with nothing put out |
| InflateCutting.CuttingMatters | tinfl/miniz_tinfl.c:181-680 | so for every incomplete literal/length table there is a stream on which two ways of calling tinfl_decompress end differently |
| InflateCutting.OneCodeExample | tinfl/miniz_tinfl.c:181-680 | the same on a concrete stream, whose table has one code, of length 1, for the byte 0 |
| InflateCallback.Flush | tinfl/miniz_tinfl.c:729-757 | pieces of whole windows, the last one shorter, up to the callback's first refusal; without one they are the machine's whole output to the point where it can go no further, unless bits were met that no code begins, and the call succeeds if and only if the machine is done there and, for zlib, the checksum matches; then the bytes used end where the stream does |
| InflateCallback.MemToCallback | tinfl/miniz_tinfl.c:729-757 | so the call succeeds if and only if the machine decompresses the stream, the checksum matches and the callback takes all of the output; and that output is then what the pieces make up |
| InflateCallback.Delivered | tinfl/miniz_tinfl.c:729-757 | on every stream that the machine decompresses: the pieces are a part of its output, all of it if and only if the callback takes as many pieces as that needs, and then the call succeeds if and only if the checksum matches |
| InflateCallback.SucceedsIff | tinfl/miniz_tinfl.c:729-757 | for every stream: success if and only if the machine decompresses it, the checksum matches and the callback takes all of the output |
| InflateDelivered.WrittenIsDelivered | tinfl/miniz_tinfl.c:729-757 | every raw stream of any blocks is handed over in full, with success, if and only if the callback takes as many pieces as the output needs; the bytes used are those of the blocks |
| InflateDelivered.ZlibIsDelivered | tinfl/miniz_tinfl.c:729-757 | so is every zlib stream, with success if the checksum at its end is that of the output |
| Adler.SumConcat | tinfl/miniz_tinfl.c:649-674 | checksums of pieces follow one another |
| Adler.BlockFits | tinfl/miniz_tinfl.c:652-672 | after up to 5552 bytes both sums are below 2^32 |
| Adler.AddByte | tinfl/miniz_tinfl.c:656-668 | a byte added without remainder stays congruent to the definition and does not wrap |
| Adler.SumBlock | tinfl/miniz_tinfl.c:655-669 | the unrolled loop gives the block's checksum (section 8.2 of RFC 1950) |
| Adler.Update | tinfl/miniz_tinfl.c:649-674 | short first block, full blocks and accumulation over calls equal the per-byte definition |
| Adler.SumIsTotals | tinfl/miniz_tinfl.c:649-674 | the definition with remainders at every byte is the sum of the bytes, and of the values that this sum takes, modulo 65521 |
| Adler.LongExample | tinfl/miniz_tinfl.c:649-674 | the checksum of 300 bytes 0xff, whose sums pass the modulus |
| InflateFormat.FindLength | tinfl/miniz_tinfl.c:189-190 | every match length from 3 to 258 has a symbol and extra bits in the table |
| InflateFormat.FindDistance | tinfl/miniz_tinfl.c:191-192 | so has every distance from 1 to 32768 |
| InflateFormat.BlockRead | tinfl/miniz_tinfl.c:422-600 | a block of any literals and matches, coded with any tables that have words for them, puts out what they mean |
| InflateDynamic.LensRead | tinfl/miniz_tinfl.c:393-418 | the lengths of a block's own tables are read, whatever mixture of single lengths and repetitions spells them |
| InflateDynamic.HeaderRead | tinfl/miniz_tinfl.c:309-418 | a block header with any accepted tables, written in any way, leads to their symbols |
| InflateDynamic.DynamicRoundTrip | tinfl/miniz_tinfl.c:309-600 | every sequence of literals and matches, written as a block with any tables that have words for it, puts out what it means |
| InflateHoles.PlainHeader | tinfl/miniz_tinfl.c:309-418 | every pair of accepted tables has a header |
| InflateBlocks.AsIsRead | tinfl/miniz_tinfl.c:249-287 | a stored block, filled up to the byte boundary, puts out its bytes |
| InflateBlocks.StreamRoundTrip | tinfl/miniz_tinfl.c:245-605 | every sequence of stored blocks, blocks with the fixed code and blocks with their own tables is inflated to what it means |
| InflateBlocks.ZlibRoundTrip | tinfl/miniz_tinfl.c:230-625 | the same in a zlib envelope: header, blocks, byte boundary and four bytes of checksum |
| InflateBlocks.DecodesStream | tinfl/miniz_tinfl.c:181-680 | however a raw stream that begins with such blocks is fed in and its output taken out, no hole is met and the output is a part of what they mean, and all of it at the end |
| InflateBlocks.DecodesZlib | tinfl/miniz_tinfl.c:181-680 | the same for a zlib stream; and unless a call failed on the way, the checksum kept at the end is that of the whole output |

## Left out

- VorbisPacket.PacketReader.StartPage: the file is in memory, as with the source's memory reader; granule positions, serial and sequence numbers and the checksum are skipped, and what the source notes from them for seeking is left out.
- VorbisPacket.PacketReader.GetBits: where C leaves a shift undefined (here 32 bits with 32 held, and a negative count in `prep_huffman`), the model reports it and stops. The source reads 32 bits only in the setup header (lines 3881-3882), with `get_bits` alone, which leaves at most 7 bits held.
- VorbisPacket.PacketReader.PrepHuffman: the bits loaded are described only for packets that end properly; what DECODE_RAW does with `valid_bits` at -1 likewise.
- VorbisArena.Arena.SetupCodebook: `lookup1_values` is floating point, and its value is a parameter.
- VorbisArena.Arena.SetupMalloc: the caller's buffer is given; the mode in which each block comes from malloc is left out.
- VorbisDecode.DecodeRun: symbols must be reachable and of at most 25 bits, the conditions that the lemmas above show to be necessary.
- VorbisCodebook.Qsort: the library sort is modelled by its result, which the array is filled with.
- Floor1.UnwrapAll: amplitudes are unbounded numbers, not 16-bit ones; with coded values in range they all fit.
- Floor1Curve.DrawLine: the output records the index into the table of amplitudes; multiplying the float found there is left out.
- Floor1 setup data, the bit width of the first two amplitudes, residues, coupling, IMDCT, windows, VQ multiplicands and all other floating point.
- Ogg page search, CRC, comment packets, pushdata mode, Vorbis seeking, file handles and malloc.
- ApeEntropyDecoder.EntropyDecoder.Value3990: `range_decode_bits` and the paired culfreq and update calls are one operation.
- ApeFrameDecoder.FrameDecoder.Decode: CRC verification is not in the source and not in the model; the 24-bit interim mode with its second pass, and 24-bit and 32-bit output, are left out.
- ApeDecoder.ApeDecoder.Read: output is a sequence of sample tuples, not the caller's interleaved array; arguments are never null.
- ApeDecoder.ApeDecoder.Open: header parsing is replaced by the header's fields.
- ApeFile.StereoFileExists: files with a single frame; how many bytes a frame of an arbitrary recording needs within the limit of eight for each block is the encoder's business.
- ApeEntropy.AllShares: which shares the symbols have is data; apart from the order of the shares and the symbols of `ApeBytes`, no other statement is made about the two tables.
- ApeAdaptation.UpdateIs: the values must be far from the limits of 32 and 64 bits; what wraps is stated by the definitions alone, and by `ApeExamples.WrappingUpdate`.
- ApeDemux.Build: the sequential file is replaced by the values read from it.
- Signed overflow in the APE sums of products is modelled as wrap-around.
- InflateEngine.Inflator.FastStep: the 64-bit bit buffer is modelled; the variant with a 32-bit buffer is not.
- InflateWindow.Output.CopyMatch: the eight-byte copy is not modelled; it is switched off by default in the source's configuration.
- InflateEngine.Inflator.StoredStep: the bulk copy of stored bytes is a loop of single bytes.
- InflateEngine.Inflator.BuildBlockTables: code lengths are kept as values, not in the arrays of the struct; distance and literal tables are built in the source's order.
- InflateDecompress.Decompressor.Decompress: the state number and the variables live at it are one value; with a wrapping window every call's buffer ends at the window's end, as the source's mask requires; the checksum leaves out what calls produced that ended in a failure status.
- ApeFrame.MonoSixteenCodable: in the older format only for blocks of up to 2^21 samples; without a bound it is false (`ApeMonoDrift.NotCodable`), and the largest length for which it is true is not determined.
- ApeDecoder.LosslessMonoFile: the same bound on the frames of a file in the older format.
- InflateCallback.MemToCallback: the callback takes a given number of pieces and then refuses; one that never refuses is not covered. With it, bits that no code begins within the last three bytes of the input would make the source hand over zeros without end.
- `tinfl_decompress_mem_to_heap` and `tinfl_decompress_mem_to_mem`, which wrap the same call.
- AAC, ALAC, AIFF and ASF, the user interface, and the media library: not part of these engines.
