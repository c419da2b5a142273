# Verified models of a boot loader's stateful components

This project models six components of a U-Boot derivative for MIPS boards and proves what they are for. Where the
code changes memory in place, the model is a class or a method over the same memory, proved against a specification
function; what the component promises is then proved about that function or as an invariant of every operation.

- **The heap** (Doug Lea's allocator). `Words`, `Sizes` and `BinBlocks` hold the 32-bit arithmetic. `HeapModel`
  describes a heap without memory: chunks, their PREV_INUSE bits, 128 bins, the top. `HeapMemory` says when a memory
  of words represents such a heap (boundary tags, bin rings, the bit map of bin blocks). `BestFit` says which chunk a
  search is to find. `Dlmalloc` has malloc, free, realloc, memalign and trimming over the memory, and `Client` a
  program that makes any run of calls.
- **The LZMA decoder.** `LzmaTables` lays out the flat probability array, `LzmaRange` is the range decoder and an
  encoder for it, `LzmaPackets` turns bits into packets and back, `LzmaMachine` runs packets, and `LzmaStream` has the
  LZ77 expansion and the theorem that decoding inverts encoding. `LzmaFormat` gives the bits of a packet in numbers, and
  `LzmaHistory` says what packets mean without the machine: its distances are the four used most recently, its state
  tells the last packets. `LzmaCoder`, `LzmaOneShot` and `LzmaResumable` are
  the loops of the C code, in both of its builds, proved against the machine.
- **CRC-32.** `Crc32Register` is the bit-serial shift register with its algebra; `Crc32` is the code, on 32-bit words.
  `CrcPeriod` shows that the register runs through all nonzero words, and `CrcLaws` draws the consequences for the
  checksum: its residue, its check value, what it says of zeros and of two wrong bits.
- **The environment store.** `EnvEntries` is the list of `name=value` strings and the finite map it stands for;
  `EnvStore` edits the buffer in place.
- **Flash erase ranges** (`FlashRanges`) and the **network console's ring buffer** (`Netconsole`).

## Where the code does not meet what is expected of it

Each is stated as a lemma with the exact condition, or an input.

- `request2size` turns negative for requests from 2^31 - 11 up to 2^31 - 1, and malloc answers them with the smallest
  chunk (`Sizes.Request2SizeCovers`).
- realloc of a block beside the top, for requests from 2^31 - 27 up to 2^31 - 12: both sides of the test for room are
  read as `long`, the right one wraps, and the new top would start past the end of the memory
  (`Sizes.RoomInTopIsRight`, `Dlmalloc.Allocator.ReallocPastTop`, and a heap in `Dlmalloc.BlockBesideTop`).
- memalign's padded request can overflow; malloc is then asked for its smallest chunk, which is too small for the
  block (`Sizes.PaddedRequestIsExact`, `Sizes.PaddedRequestFails`).
- The board's `sbrk` fails with NULL, while the allocator looks for -1. Once there is a top this is still noticed; on
  an empty heap it is not, and the top is put at address zero or past the end of the memory. The first extension is
  safe exactly when its bytes, aligned and rounded up to a page, fit (`Dlmalloc.Allocator.FirstExtension`, and a first
  request that fails in `Dlmalloc.FirstRequestTooLarge`). The class takes the failure value as a parameter, -1 or 0.
- malloc_trim's amount wraps for pads from 2^31 - 16 to 2^32 - 4113 above the size of the top: it then gives memory
  back although there is none to spare, at times more than the whole top. For all other pads it is right
  (`Dlmalloc.TrimLeaves`, an input in `Dlmalloc.TrimTakesTooMuch`). For the first of those pads the board's sbrk
  refuses, which the test for -1 misses, and the top's size becomes negative (`Dlmalloc.Allocator.TrimBreaksTop`).
- `Code < Range` is lost by an input whose first code is all ones, and by a direct bit on an odd range with the code
  just below it; the code and the range still stay below 2^32, and no encoder produces either
  (`LzmaRange.InitBelow`, `LzmaRange.DirectBitKeepsBelow`, `LzmaRange.DirectBitMayReachRange`).
- A bound `serial#` or `ethaddr` can be changed: the check compares the whole argument, the search stops at `=`, so
  `setenv serial#=u v` makes it `u=v` (`EnvEntries.OnceKept`, `EnvEntries.OnceCanChange`).
- With start value zero, a buffer of n > 0 zero bytes has checksum zero, and n zero bytes in front go unnoticed,
  exactly when n is a multiple of 2^32 - 1, the period of the register; so do two wrong bits that far apart
  (`CrcLaws.ZeroBuffer`, `CrcLaws.LeadingZeros`, `CrcLaws.TwoBits`).
- The widths of the larger bins differ from the table in the allocator's comment, which admits some slop; they still
  divide the sizes without a gap (`Sizes.BinsDivideSizes`).
- An overflowing setenv removes the named variable but leaves the stored checksum, which stays right exactly when the
  two buffers happen to have the same one: always when nothing was removed, never when the last variable was
  (`EnvStore.Env.SetEnv`, `EnvStore.WhenCrcIsKept`, and a call in `EnvStore.OverflowLosesCrc`).
- `nc_port` is a `short`, so packets for a port from 32768 up never match (`Netconsole.PortMatches`).

Two limits are out of reach of these boards and only noted: the dictionary index of the resumable decoder is right for
every dictionary up to 2^31 bytes (`LzmaResumable.IndexIsRight` has the exact condition), and the `short` that keeps the
last sector of a bank is right up to 32768 sectors (`FlashRanges.ShortIsRight`; the sector array has 4096 entries).

## Model

| member | source | states |
|---|---|---|
| Client.Program.Run | u-boot/common/dlmalloc.c:2133-2839 | over every run of malloc, free, realloc, memalign, loads and stores, each load gives what the program stored there last, in every word it asked for a byte of; with the board's sbrk, sbrked_mem counts the bytes to the break throughout; only calls the allocator is unfit for (see `Client.Program.Do`) are left out |
| Client.Program.Do | u-boot/common/dlmalloc.c:2133-2839 | a call is made exactly when the program may make it and the allocator is fit for it, and then means to the program's table what it should, whatever addresses are picked |
| Client.Program.FitMeans | u-boot/common/dlmalloc.c:1986-1991 | the test on the top and the memory's end that a program can make says exactly whether a request can extend the heap safely |
| Client.Program.FitForRealloc | u-boot/common/dlmalloc.c:2598-2607 | the test on heads that a program can make says exactly whether a huge realloc meets the top |
| Client.LiveBlocksDisjoint | u-boot/common/dlmalloc.c:1163-1281 | live blocks share no byte and are aligned to eight |
| Client.ResizedWords | u-boot/common/dlmalloc.c:2587-2719 | after realloc the words that still fit are those the block had |
| Client.StoreKeepsRep | u-boot/common/dlmalloc.c:1163-1281 | a program may write its block up to and including the next chunk's prev_size cell without disturbing tags or rings |
| Dlmalloc.Allocator.Malloc | u-boot/common/dlmalloc.c:2133-2364 | the heap stays well formed, other blocks keep their words; the block is new, large enough and less than a chunk larger; an exact fit goes before the last remainder, that before the best fit, that before the top; what is left of a chunk is the next last remainder; once there is a top, the break moves exactly when nothing there fits and the board has the memory, and by the padded request rounded up to pages; failure only if the board lacks the memory |
| Dlmalloc.Allocator.Free | u-boot/common/dlmalloc.c:2394-2483 | the block is gone, the heap is well formed, every other block keeps its address, size and words; beside the last remainder it joins that, and beside the top it joins that, which is trimmed exactly from the threshold on and by which whole pages |
| Dlmalloc.Allocator.Realloc | u-boot/common/dlmalloc.c:2526-2719 | on every path the first min(old, new) bytes are kept and other blocks are untouched; the block stays where it is if it or the chunk after it gives room, else it moves into the free chunk before it if that does, alone or with the one after, else to where malloc finds room (or grows there, if that is right behind it); it fails, losing nothing, only if none has and the board lacks the memory |
| Dlmalloc.Allocator.ReallocPastTop | u-boot/common/dlmalloc.c:2598-2607 | for a block beside the top: the test succeeds without room exactly for the overflowing requests, and the new top then starts above the memory's end |
| Dlmalloc.BlockBesideTop | u-boot/common/dlmalloc.c:2598-2607 | a reachable heap with such a block and such a request |
| Dlmalloc.Allocator.Memalign | u-boot/common/dlmalloc.c:2745-2839 | an aligned new block, large enough and less than a chunk larger, at the nearest place in the block malloc chooses that leaves no leader or one of MINSIZE at least; leader and rest are given back; other blocks untouched |
| Dlmalloc.Allocator.AlignedSpot | u-boot/common/dlmalloc.c:2797-2798 | the spot is aligned, leaves a leader of at least MINSIZE, and lies within the padding |
| Dlmalloc.Allocator.ExtendTop | u-boot/common/dlmalloc.c:1959-2065 | nothing changes but the top, which ends on a page; sbrked_mem counts the bytes from the base to the break; enough room if the board has it; a top there was grows by exactly the padded request rounded up to pages, or not at all |
| Dlmalloc.Allocator.FirstTopFrom | u-boot/common/dlmalloc.c:2007-2030 | the first top exists exactly when the page correction fits, and then reaches from the aligned start to the page end |
| Dlmalloc.Allocator.FirstExtension | u-boot/common/dlmalloc.c:1986-2030 | with a NULL-returning sbrk, the first top is the right one exactly when the first extension fits the memory; else it is at zero or runs past the end |
| Dlmalloc.FirstRequestTooLarge | u-boot/common/dlmalloc.c:1986-2030 | a fresh heap and a request for which that top is at address zero |
| Dlmalloc.Allocator.MoreCore | u-boot/lib_mips/board.c:66-76 | the break moves inside the memory, or sbrk fails and nothing changes |
| Dlmalloc.Allocator.MallocTrim | u-boot/common/dlmalloc.c:2974-3027 | for every pad that does not wrap: releases exactly when the top exceeds pad + MINSIZE + a page, leaves more than pad + MINSIZE, whole pages; nothing else changes |
| Dlmalloc.TrimLeaves | u-boot/common/dlmalloc.c:2986-2989 | the unsigned computation read as a long says how many whole pages can go, for every pad exactly except those of one interval |
| Dlmalloc.TrimTakesTooMuch | u-boot/common/dlmalloc.c:2986-2989 | a pad in it for which more than the whole top goes |
| Dlmalloc.Allocator.TrimBreaksTop | u-boot/common/dlmalloc.c:3001-3020 | on any heap, a pad for which the board's sbrk refuses, unnoticed, and the top's size becomes negative |
| Dlmalloc.Allocator.constructor | u-boot/common/dlmalloc.c:1476-1495 | the static array represents the empty heap, and sbrked_mem counts nothing obtained |
| Dlmalloc.Allocator.Frontlink | u-boot/common/dlmalloc.c:1766-1793 | the chunk goes into the bin for its size, in decreasing order of size and in front of its equals, and the block bit is set |
| Dlmalloc.Allocator.UnlinkChunk | u-boot/common/dlmalloc.c:1798-1804 | the chunk leaves its ring and counts as in use; no block's words, no head and no other ring change |
| Dlmalloc.Allocator.ConsolidateForward | u-boot/common/dlmalloc.c:2465-2476 | the next chunk, if free, is joined, from its bin or from the last remainder |
| Dlmalloc.Allocator.TryBins | u-boot/common/dlmalloc.c:2159-2213 | an exact fit from the bins is the best fit; otherwise nothing below the index to search on fits |
| Dlmalloc.Allocator.TryLastRemainder | u-boot/common/dlmalloc.c:2217-2245 | the remainder is split, used up, or put into its bin, without changing which chunk the search will find |
| Dlmalloc.Allocator.SearchBlocks | u-boot/common/dlmalloc.c:2252-2337 | the search by blocks finds the best fit of all bins, or none fits; its shift loops end |
| Dlmalloc.Allocator.FirstMarked | u-boot/common/dlmalloc.c:2257-2267 | the skip over unmarked blocks ends, passes no bin that has a chunk, and keeps the index and the bit in step |
| Dlmalloc.Allocator.MallocCopy | u-boot/common/dlmalloc.c:407-423 | copying forward moves the words even when the ranges overlap |
| BestFit.FirstIsBest | u-boot/common/dlmalloc.c:2269-2309 | the first fit from the back of the first bin that has one is the smallest chunk that fits, the one freed first among equals |
| BestFit.LowerBins | u-boot/common/dlmalloc.c:2186-2213 | the bins that are not searched hold only smaller chunks |
| HeapModel.ChunksTile | u-boot/common/dlmalloc.c:1610-1734 | every address from the first chunk to the end of the top lies in exactly one chunk |
| HeapModel.FreeChunksApart | u-boot/common/dlmalloc.c:1642-1675 | no two free chunks touch and none touches the top |
| HeapModel.FreeListedOnce | u-boot/common/dlmalloc.c:1642-1734 | PREV_INUSE tells the truth; a chunk is free exactly when it is listed, once, in the bin for its size or as the last remainder |
| HeapModel.AttachKeepsShape | u-boot/common/dlmalloc.c:1766-1793 | a freed chunk put where it fits keeps the heap well formed, with the order of size and of freeing in its bin |
| HeapModel.MergeKeepsShape | u-boot/common/dlmalloc.c:2453-2480 | joining a block with the next keeps the heap well formed |
| HeapModel.CarveKeepsShape | u-boot/common/dlmalloc.c:2285-2295 | splitting a free chunk into a block and the last remainder keeps the heap well formed |
| HeapMemory.Link | u-boot/common/dlmalloc.c:1789-1791 | the four stores of frontlink represent the bin with the chunk in place |
| HeapMemory.Unlink | u-boot/common/dlmalloc.c:1798-1804 | the two stores of unlink represent the bin without the chunk |
| HeapMemory.Relast | u-boot/common/dlmalloc.c:1808-1812 | link_last_remainder makes a chunk the one node of that ring |
| Sizes.Request2SizeCovers | u-boot/common/dlmalloc.c:1299-1302 | the padded size covers the request exactly below 2^31 - 11 |
| Sizes.BinsDivideSizes | u-boot/common/dlmalloc.c:1515-1521 | a size has a bin exactly if it lies between the starts of that bin and the next |
| Sizes.BinIndexMonotone | u-boot/common/dlmalloc.c:1515-1522 | larger chunks never live in lower bins |
| Sizes.RoomInTopIsRight | u-boot/common/dlmalloc.c:2600-2600 | the signed test for room is right for every sum exactly when the padded request plus MINSIZE is a positive long |
| Sizes.PaddedRequestIsExact | u-boot/common/dlmalloc.c:2772-2773 | the padded request is refused or covers block, alignment and leader exactly when the padding does not overflow; else it asks for the smallest chunk |
| Sizes.PaddedRequestFails | u-boot/common/dlmalloc.c:2772-2773 | memalign(16, 2^31 - 44) is such a request |
| Sizes.MaskDownAligns | u-boot/common/dlmalloc.c:2797-2797 | masking gives the multiple of the alignment at or below an address |
| BinBlocks.SkipBlock | u-boot/common/dlmalloc.c:2257-2267 | an unset bit at or below the highest set one means a higher block is marked |
| BinBlocks.ClearOne | u-boot/common/dlmalloc.c:1558-1560 | clearing a block's bit leaves every other bit |
| LzmaStream.DecodeInvertsEncode | u-boot/lib_generic/LzmaDecode.c:163-598 | for every list of packets that has an LZ77 expansion, decoding the encoder's bytes gives that expansion and the encoder's probabilities, and stops right after those bytes |
| LzmaStream.RunIsExpansion | u-boot/lib_generic/LzmaDecode.c:281-572 | for any input, the output at any time is the expansion of the packets read so far, cut to the room there is |
| LzmaStream.CopiesRepeat | u-boot/lib_generic/LzmaDecode.c:554-570 | each byte of a copy equals the byte rep0 back, also when the copy overlaps itself |
| LzmaMachine.ResumableIsOneShot | u-boot/lib_generic/LzmaDecode.c:178-251 | calls for any pieces, with a dictionary of v bytes, end as one call does exactly when no distance exceeds v, as when v covers the output, and otherwise in an error |
| LzmaMachine.PiecesAreOne | u-boot/lib_generic/LzmaDecode.c:236-249 | calls in a row end as one call for their sum, although each ends with a normalisation of its own |
| LzmaMachine.RunKeepsOk | u-boot/lib_generic/LzmaDecode.c:281-572 | in every reachable state, for any input, the state is in 0..11, distances are within reach, the output only grows |
| LzmaMachine.SmallerWindow | u-boot/lib_generic/LzmaDecode.c:538-545 | a smaller window gives the same run if no distance exceeds it, and else an error |
| LzmaMachine.ContextInBounds | u-boot/lib_generic/LzmaDecode.c:285-305 | every context used lies in its table |
| LzmaPackets.PacketReads | u-boot/lib_generic/LzmaDecode.c:293-534 | a decoder that takes the decisions of a packet reads that packet: every kind, length, distance and literal |
| LzmaPackets.ReadPacketOk | u-boot/lib_generic/LzmaDecode.c:293-534 | whatever the input, what is read is a packet and the decoder stays in bounds |
| LzmaHistory.RemembersMostRecent | u-boot/lib_generic/LzmaDecode.c:393-440 | after any packets, the remembered distances are the four used most recently, the last used first |
| LzmaHistory.HasHistory | u-boot/lib_generic/LzmaDecode.c:393-440 | every list of packets that can be played has such a history of uses |
| LzmaHistory.PlayDistances | u-boot/lib_generic/LzmaDecode.c:354-440 | a packet that names distance k moves it to the front, a match puts its own before the first three, others change nothing |
| LzmaHistory.StateTellsLastPackets | u-boot/lib_generic/LzmaDecode.c:345-442 | the state is what the last copy, what came before it and the literals since say: below 7 exactly at the start and after a literal, 0 after three |
| LzmaHistory.PlayFails | u-boot/lib_generic/LzmaDecode.c:372-545 | a packet fails exactly if it reaches back before the output or the dictionary |
| LzmaHistory.PlayPutsOut | u-boot/lib_generic/LzmaDecode.c:335-570 | a packet puts out its literal, or as many bytes as it says, each the one its distance back |
| LzmaFormat.PacketFormat | u-boot/lib_generic/LzmaDecode.c:293-534 | the bits of every packet in numbers, in order, each with the probability it is coded with |
| LzmaFormat.SlotIsUnique | u-boot/lib_generic/LzmaDecode.c:486-527 | a slot is a distance's exactly if the distance is in the range of the slot |
| LzmaFormat.ContextIs | u-boot/lib_generic/LzmaDecode.c:285-314 | the tables of a packet depend on the state, the position modulo 2^pb, and for literals on the position modulo 2^lp, the top lc bits of the last byte and the byte at the last distance |
| LzmaPackets.SlotOfDistance | u-boot/lib_generic/LzmaDecode.c:486-527 | every 32-bit distance has a slot whose range holds it |
| LzmaRange.DecoderInvertsEncoder | u-boot/lib_generic/LzmaDecode.c:35-62 | for any decisions, adaptive or direct, the decoder takes them back from the encoder's bytes, with the same probabilities, whatever follows |
| LzmaRange.BitKeepsOk | u-boot/lib_generic/LzmaDecode.c:54-62 | probabilities stay in 31..2017 and 0 < bound < Range |
| LzmaRange.BitShares | u-boot/lib_generic/LzmaDecode.c:54-58 | a zero has the lower part of the range, in proportion to its probability, a one the rest, and only that probability adapts |
| LzmaRange.DirectShares | u-boot/lib_generic/LzmaDecode.c:498-509 | a direct one has the upper half of the range |
| LzmaRange.AdaptMoves | u-boot/lib_generic/LzmaDecode.c:57-58 | a bit moves its probability a thirty-second of the way, rounded down, and stops exactly above 2016 and below 32 |
| LzmaRange.BoundsAreReached | u-boot/lib_generic/LzmaDecode.c:57-58 | repeated bits bring any probability to 2017 or 31, so those bounds are tight |
| LzmaRange.NormalizeRestores | u-boot/lib_generic/LzmaDecode.c:54-54 | one byte always brings Range back to 2^24 |
| LzmaRange.BitKeepsBelow | u-boot/lib_generic/LzmaDecode.c:54-58 | adaptive bits keep Code below Range |
| LzmaRange.DirectBitKeepsBelow | u-boot/lib_generic/LzmaDecode.c:498-509 | a direct bit keeps Code below Range exactly unless Range is odd and Code just below it |
| LzmaRange.DirectBitMayReachRange | u-boot/lib_generic/LzmaDecode.c:498-509 | a state where it does not |
| LzmaRange.InitBelow | u-boot/lib_generic/LzmaDecode.c:35-36 | the first code is below Range exactly when its four bytes are not all ones |
| LzmaTables.FlatIsInjective | u-boot/lib_generic/LzmaDecode.c:82-116 | no two cells of different tables, or of one, share a place in the flat array |
| LzmaTables.FlatInArray | u-boot/lib_generic/LzmaDecode.c:105-120 | every cell has a place inside the array |
| LzmaTables.SpecPosTiles | u-boot/lib_generic/LzmaDecode.c:93-113 | the tables of slots 4 to 13 tile their 114 cells |
| LzmaCoder.RangeDecoder.GetBit | u-boot/lib_generic/LzmaDecode.c:54-62 | the macros, on the flat array, read the bit and adapt the probability the specification says |
| LzmaCoder.RangeDecoder.DirectBits | u-boot/lib_generic/LzmaDecode.c:497-509 | the loop reads the direct bits of the specification |
| LzmaCoder.RangeDecoder.BitTree | u-boot/lib_generic/LzmaDecode.c:66-69 | the loop reads the tree of the specification |
| LzmaCoder.RangeDecoder.DecodeLiteral | u-boot/lib_generic/LzmaDecode.c:296-333 | both loops together read the literal, with the match byte as context while it agrees |
| LzmaCoder.RangeDecoder.DecodePacket | u-boot/lib_generic/LzmaDecode.c:293-534 | one turn of the loop reads the packet of the specification from the flat array, or fails when the input ends |
| LzmaOneShot.LzmaDecode | u-boot/lib_generic/LzmaDecode.c:253-598 | one call ends as the machine's run does: the same bytes, the same count of input taken, or an error |
| LzmaOneShot.LzmaReadsLzma | u-boot/lib_generic/LzmaDecode.c:163-176 | the reader the code's loops are proved against is the LZMA reader |
| LzmaOneShot.LzmaDecodeProperties | u-boot/lib_generic/LzmaDecode.c:122-159 | accepts exactly five bytes or more with a first below 225, and gives lc, lp and pb as the remainder by 9, the quotient's remainder by 5 and the rest, and the dictionary size |
| LzmaOneShot.PropsByteIsInvertible | u-boot/lib_generic/LzmaDecode.c:130-145 | no two properties share a byte |
| LzmaResumable.Decoder.Decode | u-boot/lib_generic/LzmaDecode.c:178-251 | a call goes on where the last one stopped, ends as the machine's piece does, and leaves the state to go on from |
| LzmaResumable.DecodeInPieces | u-boot/lib_generic/LzmaDecode.c:163-598 | calls in a row put out what the pieces of the machine do |
| LzmaResumable.PiecesGiveTheSameBytes | u-boot/lib_generic/LzmaDecode.c:163-598 | what DecodeInPieces promises is what LzmaDecode promises, whenever no distance exceeds the dictionary; else it is an error |
| LzmaResumable.Window.Put | u-boot/lib_generic/LzmaDecode.c:341-343 | the circular dictionary always holds the most recent output |
| LzmaResumable.Window.ByteAt | u-boot/lib_generic/LzmaDecode.c:311-314 | the wrapped index finds the byte so far back |
| LzmaResumable.IndexIsRight | u-boot/lib_generic/LzmaDecode.c:311-313 | it does exactly when the wrapped difference does not look like an index |
| LzmaResumable.Decoder.PositionBits | u-boot/lib_generic/LzmaDecode.c:285-291 | the position's low bits are right although globalPos wraps |
| Crc32.Crc32 | u-boot/lib_bootstrap/crc32.c:153-172 | crc32 is the checksum of the bit-serial register for every buffer and start value |
| Crc32.CrcNoComp | u-boot/lib_bootstrap/crc32.c:179-195 | the same without the complements, eight bytes a turn and then one by one |
| Crc32.MakeCrcTable | u-boot/lib_bootstrap/crc32.c:51-72 | the table holds, for every byte, eight steps of the register |
| Crc32.StaticTable | u-boot/lib_bootstrap/crc32.c:77-130 | the static table is that table |
| Crc32.StaticIsRight | u-boot/lib_bootstrap/crc32.c:77-130 | each of its entries is eight steps of the register from its index |
| Crc32.VIsInjective | u-boot/lib_bootstrap/crc32.c:153-172 | words stand for different numbers |
| Crc32.BurstChangesWord | u-boot/lib_bootstrap/crc32.c:153-172 | the words crc32 gives for buffers that differ within a burst of at most 32 bits differ |
| Crc32Register.BurstChangesCrc | u-boot/lib_bootstrap/crc32.c:39-50 | buffers of one length that differ, but only within 32 consecutive bits, have different checksums |
| Crc32Register.FourBytesChangeCrc | u-boot/lib_bootstrap/crc32.c:39-50 | so do buffers that differ in four bytes on end at most |
| Crc32Register.CrcOfConcatenation | u-boot/lib_bootstrap/crc32.c:153-172 | the checksum of a second part, started from that of the first, is that of both |
| CrcPeriod.PeriodOfRegister | u-boot/lib_bootstrap/crc32.c:39-50 | n steps bring a nonzero register back exactly when n is a multiple of 2^32 - 1: the polynomial is primitive |
| CrcPeriod.OnTheWay | u-boot/lib_bootstrap/crc32.c:39-50 | on the way the register takes every nonzero value |
| CrcLaws.Residue | u-boot/lib_bootstrap/crc32.c:153-172 | a buffer followed by its checksum, lowest byte first, has checksum 0x2144df1c, whatever it is and whatever the start value |
| CrcLaws.CheckValue | u-boot/lib_bootstrap/crc32.c:153-172 | the checksum of the nine digits 1 to 9 is 0xcbf43926 |
| CrcLaws.LeadingZeros | u-boot/lib_bootstrap/crc32.c:153-172 | zero bytes in front change the checksum exactly unless the start value is all ones or their number a multiple of the period |
| CrcLaws.ZeroBuffer | u-boot/lib_bootstrap/crc32.c:153-172 | a buffer of zeros has checksum zero exactly for such a number |
| CrcLaws.TwoBits | u-boot/lib_bootstrap/crc32.c:153-172 | two wrong bits go unnoticed exactly when they are a multiple of the period apart |
| Crc32Register.RegisterIsLinear | u-boot/lib_bootstrap/crc32.c:39-50 | the register is linear over GF(2) |
| Crc32Register.StepsAreInjective | u-boot/lib_bootstrap/crc32.c:39-50 | no steps lose a difference |
| Crc32Register.RegisterIsSteps | u-boot/lib_bootstrap/crc32.c:39-50 | feeding bits one by one is xoring them in at once and stepping |
| EnvStore.Env.SetEnv | u-boot/common/cmd_nvedit.c:160-318 | the buffer, edited in place, holds exactly the entries setenv leads to; success leaves the checksum right; after a failure the whole buffer and the exact condition for the checksum to be still right |
| EnvStore.WhenCrcIsKept | u-boot/common/cmd_nvedit.c:187-303 | a failing call keeps the checksum right if it removed nothing, and never if it removed the last variable |
| EnvStore.CutLastIsSeen | u-boot/common/cmd_nvedit.c:252-265 | removing the last variable always changes the checksum of the buffer |
| EnvStore.OverflowLosesCrc | u-boot/common/cmd_nvedit.c:300-303 | an environment and an overflowing call after which the stored checksum is wrong |
| EnvStore.Env.Delete | u-boot/common/cmd_nvedit.c:252-265 | shifting in place removes the one entry and keeps all others, in order, with the double NUL; every byte of the buffer is told |
| EnvStore.Env.Append | u-boot/common/cmd_nvedit.c:304-315 | the new entry follows the others, with the double NUL |
| EnvStore.Env.Overflows | u-boot/common/cmd_nvedit.c:295-303 | the length computed refuses exactly what does not fit |
| EnvStore.Env.FindEnd | u-boot/common/cmd_nvedit.c:288-290 | the search for two NULs finds the end of the entries |
| EnvStore.Env.EnvMatch | u-boot/common/cmd_nvedit.c:553-559 | matches exactly when name and entry agree up to their first `=`, and gives where the value starts |
| EnvStore.Env.GetEnv | u-boot/common/cmd_nvedit.c:488-506 | agrees with the finite map: found exactly when bound, and the string there is the value |
| EnvStore.Env.SetAll | u-boot/common/cmd_nvedit.c:160-318 | over any run of calls the entries are those the calls lead to, and with names without `=` a bound serial# or ethaddr never changes |
| EnvEntries.SetMeans | u-boot/common/cmd_nvedit.c:160-318 | setenv changes one binding of the finite map and no other; failing, it leaves the map or only removes that one |
| EnvEntries.OnceKept | u-boot/common/cmd_nvedit.c:190-201 | the exact condition under which a call leaves a bound serial# or ethaddr as it is |
| EnvEntries.OnceCanChange | u-boot/common/cmd_nvedit.c:190-201 | a name with `=` gets past the check, whatever the old and new values |
| EnvEntries.OnceNeverChanges | u-boot/common/cmd_nvedit.c:190-201 | with names without `=`, a bound serial# or ethaddr keeps its value over any run |
| EnvEntries.RefusedExactly | u-boot/common/cmd_nvedit.c:187-251 | the calls that fail and leave a bound variable are those of serial# and ethaddr, the removal of a console, and a console or baud rate the device refuses; they change nothing |
| EnvEntries.OverflowIsNoRoom | u-boot/common/cmd_nvedit.c:285-303 | any other call fails exactly if no buffer of that size can hold the entries it is to lead to |
| EnvEntries.MapLoses | u-boot/common/cmd_nvedit.c:187-266 | removing an entry removes one binding |
| EnvEntries.MapAdds | u-boot/common/cmd_nvedit.c:285-315 | appending an entry for an unbound name adds one binding |
| EnvEntries.NewEntryValue | u-boot/common/cmd_nvedit.c:304-312 | the value of a new entry is its arguments joined by spaces |
| EnvEntries.OneDoubleNul | u-boot/common/cmd_nvedit.c:288-289 | the first double NUL of the buffer is its end |
| FlashRanges.FillSectRanges | u-boot/common/cmd_flash.c:177-246 | 0 with a count above zero exactly for an erasable range, and then the sectors tile exactly that range, as far as there is flash, and are counted |
| FlashRanges.EndOfLength | u-boot/common/cmd_flash.c:126-172 | succeeds exactly when the last byte is in a sector, with the end of that sector |
| FlashRanges.PlanLength | u-boot/common/cmd_flash.c:111-246 | start +length from a sector's start is accepted and selects the fewest whole sectors that cover it |
| FlashRanges.LengthIsErasable | u-boot/common/cmd_flash.c:126-172 | the range start +length is rounded to is erasable, and no sector starts beyond its last byte |
| FlashRanges.FoundIsUnique | u-boot/common/cmd_flash.c:147-163 | the sector end found does not depend on the order of the search |
| FlashRanges.ShortIsRight | u-boot/common/cmd_flash.c:192-199 | the short holds the last sector exactly up to 32768 sectors |
| Netconsole.Console.InputPacket | u-boot/drivers/netconsole.c:69-90 | a packet for the port appends its first min(len, free) bytes to the queue, around the end of the ring |
| Netconsole.Console.GetC | u-boot/drivers/netconsole.c:182-199 | takes the oldest byte |
| Netconsole.Console.Run | u-boot/drivers/netconsole.c:69-199 | over any interleaving of packets and reads the ring is a bounded queue |
| Netconsole.Accepted | u-boot/drivers/netconsole.c:69-90 | of a packet for the port all is accepted, or what fills the buffer; of others nothing |
| Netconsole.InOrder | u-boot/drivers/netconsole.c:69-199 | nothing accepted is lost or reordered |
| Netconsole.PortMatches | u-boot/drivers/netconsole.c:38-72 | a packet for the configured port matches exactly below port 32768 |

## Left out

- Dlmalloc.Allocator.Realloc: requires that a request whose padded size plus MINSIZE wraps is not made of a block beside the top, and, for a null pointer, what Malloc requires; ReallocPastTop says what happens otherwise.
- Dlmalloc.Allocator.Malloc: requires, with the board's NULL, that the first extension fits; FirstExtension says what happens otherwise. It does not promise that requests from 2^31 - 11 up to 2^31 - 1 are covered, since they are not.
- Dlmalloc.Allocator.Memalign: requires a power of two, as its documentation does, and padding that does not overflow; PaddedRequestIsExact says what happens otherwise.
- Dlmalloc.Allocator.MallocTrim: requires that the amount does not wrap; TrimLeaves says exactly for which pads it does, and TrimBreaksTop what may then happen.
- Dlmalloc.Allocator.ExtendTop: does not promise that sbrked_mem counts the bytes after an earlier call got memory but not its page correction, since the code then adds a difference to the static array's address.
- Client.Program.Run: leaves out requests from 2^31 - 11 up to 2^31 - 1, which the padding gets wrong, and the calls the allocator is unfit for.
- LzmaResumable.Decoder.Decode: promises nothing about calls after an error.
- FlashRanges.FillSectRanges: banks are contiguous, ascending, not empty and of at most 32768 sectors.
- Memory is words at multiples of four; bytes within a word, and memcpy's byte order within one, are not modelled. A copy is the forward copy of words that both the macro and the repository's memcpy make.
- The allocator's `x & -a` is modelled as rounding down to a multiple of a, for powers of two.
- Fenceposts for foreign sbrk calls, mmap, mallinfo, statistics, calloc, valloc and mallopt: unused by these boards, or easy. The arena is at most the 512 MB of a MIPS segment.
- The LZMA input callbacks, and the four-byte substitute dictionary for a dictionary size of zero. C locals live in object fields during a call; `|=` on fresh bits is written as addition.
- The side effects of setting special variables (console, baud rate, addresses); whether a device refuses is a parameter. The refusal of CONFIG_ENV_OVERWRITE builds, and getenv_r, are out.
- Parsing of the flash commands' text and the erasing itself. A start address on the last byte of a bank is not reported as misaligned by the code, which still selects nothing; only the outcome is modelled.
- The waiting loop of nc_getc: a read of an empty queue returns nothing in the model.
