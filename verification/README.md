# Verification of the zlib, FAT file system and heap code of the SDK

A Dafny model of the parts of this repository with the most to prove: zlib 1.2.3 in
`libsrc/zlib`, the FAT file system in `libsrc/fs` and the heap in
`libsrc/base/clib/memory.c`, with proofs of what they are for. Code that works step by
step is modelled by classes, methods and loops over the same fields, buffers and arrays;
what those compute is stated against functions and predicates that do not mention the
code, and the lemmas connect those to the documents that define them (RFC 1950, RFC 1951,
RFC 1952, RFC 3629 and Microsoft's FAT specification).

`dafny verify dfyconfig.toml` checks the whole project.

## How it is built

**Inflate.** `InflateSpec` is a machine over single bits: a state is a position in the
stream, the output and a phase, and `Next` takes one step or asks for input. It knows
nothing of accumulators, tables, calls or windows. `InfTrees` and `InfTable` build the
decoding tables as `inflate_table` does, against the canonical codes of `Huffman`;
`InflateLookup` shows what a lookup in such a table means when only some bits are known.
`InflateStates.Inflater` has the fields of `inflate_state`, one method a mode, and an
abstraction `Abs` to the bit-level machine; every method is some number of its steps.
`InfFast` does the same for `inflate_fast`, `InflateRun` for the loop and for calls of
`inflate`, `InflateBack` for the window of `inflateBack`. Because the bit-level machine is
deterministic and its steps survive the arrival of more input, resumability follows for
all divisions into calls. The window has any of the sizes from 256 bytes to 32K: the
machine can be given a limit on how far back a distance reaches, and `InflateLimit`
compares a run with that limit to one without. `InflateDivide` and `InflateFeed` have what
follows for an input in pieces. `Symbols` builds up what the symbols of the format mean from
their numbers of extra bits alone, and shows that the tables of the code say the same.

**Deflate.** `Tokens` says what a token sequence expands to. `HashChains` gives the
meaning of `head` and `prev` (every link leads to the last string before with the same hash,
or is never followed) and shows that entering strings and sliding keep it; `DeflateState` has
`fill_window` and `longest_match`, `DeflateRun` has `deflate_fast` and `deflate_slow`. The
tally macros append to the token sequence. `Parsing` says what these two decide without a
window, a hash table or chains: from the input, the set of the strings entered so far and the
settings alone it says which match `longest_match` is to find, and which tokens greedy and
lazy parsing make of what is found. That is the contract of `deflate_fast` and
`deflate_slow`; what their tests of `avail_out` will find is a parameter, so that the
contract also says exactly when they return.

**Checksums.** `Crc32` is the register bit by bit, `Crc32Poly` shows it to be polynomial
long division, `Crc32Tables` has the table generator and the two word-at-a-time loops, and
`Crc32Combine` the matrices. `Adler32` has the deferred sums and `adler32_combine`.

**File system.** Each layer is a class over the one below: `Cache` (sectors, pages,
write-back), `FatTable`, `FatBits` and `FatVolume` (entries of 12, 16 and 32 bits), `FatChains` and
`FatAlloc` (links as disjoint chains), `FatFree` (counting free clusters), `FileLayout`,
`FileImage`, `FileJob`, `FatFile`, `FileWrite` and `FileSeen` (bytes of a file), `Unicode`,
`LongName` and `Directory` (names). The central notion is what the file system sees: a page
if one holds the sector, else the disc. A direct write can leave an old page behind. If
that page is clean the sector is in the ghost set `stale`: its old contents are seen until
the page is given up. If it is dirty the old contents stay for good. `FileJob.Stage` has
both what would be there if every write went through and what is seen. `FatWitness` has
small volumes on which things go wrong.

**Heap.** `HeapBlocks` is the list of blocks, `Heap.Memory` the words of memory that hold
the headers.

## Where the code falls short

The code is modelled as it is. Where it does less than its documentation or an obvious
specification says, the condition is proved:

- The mirror step after a direct write ends at the first sector that is not cached
  (`cache.c:208`). A sector of the run shows what was written exactly if it is not cached,
  leads the run, or had those contents already (`Cache.DirectWrite`); no sector is missed
  exactly when the cached sectors of the run come first in it (`Cache.MissedNone`).
  `Cache.SecondSectorStale` reads zeros back after writing ones. For a whole write
  `FileSeen.WriteSeen` and `FileSeen.StaleExactly` say when all of it is seen.
- `_FAT_cache_flush` returns `CACHE_FREE`, which is true, after a failed transfer
  (`cache.c:254`).
- A search that finds no free cluster leaves `firstFree` one past the last cluster
  (`file_allocation_table.c:240`); the next search looks at the entry there, and if it reads
  as free hands out a cluster that does not exist. `FatAlloc.Misled` is that condition, and
  `FatWitness.MisledReached` gets cluster 4 of a volume whose last cluster is 3, linked from
  the end of a chain.
- The last cluster of the volume is never linked on (`file_allocation_table.c:252`). A write
  that needs a cluster after it goes on in clusters that nothing links to, and reports
  success. `FileSeen.SpilledWhen` says when, by the free clusters and `firstFree` before
  the call; `FatWitness.LostWrite` loses a byte so.
- A write is short exactly when fewer clusters are free than are needed. The position is
  then left at the beginning of the last cluster while `currentPosition` is at its end
  (`fatfile.c:603-610`); the contract of `FileWrite.Write` says so, and
  `FatWitness.ShortWrite` is one.
- `file_extend_r` takes the end of the file to be in the last cluster of the chain
  (`fatfile.c:451-461`), which is right exactly if the chain is no longer than the file needs
  (`FileWrite.EndAt`, `FileWrite.EndMissed`). An extension that fails leaves the clusters it
  got on the chain, so the next one begins beyond the end of the file
  (`FileSeen.StillTight`); the contract of `FileWrite.Write` covers that.
- `adler32_combine` tests with `>` and leaves 65521 where zero is meant (`adler32.c:144-147`):
  the result is right exactly if neither half of the sum is zero (`Adler32.CombineConcat`),
  which it is not for two checksums of nothing (`Adler32.CombineNothing`).
- `adler32` for a single byte subtracts once, which is enough exactly when the sum is below
  twice the base (`adler32.c:70-78`, `Adler32.OneByteTooMuch`).
- `crc32_combine` has a signed length, and for a negative one its loop does not end, because
  shifting keeps the sign (`crc32.c:400-418`). Apart from that it and the CRC loops have no gap.
- `inflate` refuses a distance by what the window and the output of the current call hold
  (`inflate.c:1046`), so with a window below 32K the same stream can be decoded in one call
  and refused in two. Some division of the input into two calls refuses a distance exactly
  if there is a distance greater than the window (`InflateDivide.Divisions`);
  `InflateLimit.DivisionMatters` says the same of one step and every division of the output
  before it, and `InflateSmall` has such a stream. A match that a call leaves unfinished and
  that reaches further back than the window is not resumed rightly: the contract of
  `InflateRun.Inflate` says exactly when the next call is in order, and
  `InflateTorn.TornMatch` which bytes are copied otherwise. If the distance is greater than
  the window and the write index together the place copied from is not in the window at all.
- On the way from `inflateBack` into `inflate_fast` `whave` counts what is also counted as
  output (`infback.c:468-469`, `inffast.c:186-193`): distances that reach beyond the output or
  the window, but no more than the bytes since the start of the buffer further, are taken
  although the careful loop refuses them (`InflateBack.Window.FastRefuses`,
  `InflateBack.TakenTooFar`).
- Sizes above 2^32 - 24 wrap when the heap rounds them or tests a block for them: every free
  block of 16 bytes then passes the test, although none can hold them (`Heap.SizesThatWrap`,
  `Heap.Memory.PassesTooMany`, `Heap.Memory.TooSmall`). The last three sizes are served as 0
  bytes; after the twenty before them no list of blocks fits the headers, with one exception
  (`Heap.WrapLoses`, `Heap.Memory.HeadersLost`).
- A UTF-8 sequence cut short by the terminator takes the terminator with it
  (`fs_unicode.c:34`), and what follows in the buffer is decoded too. A text stays inside its
  terminator exactly if its last character has all the bytes that its first one announces
  (`Unicode.StaysInside`, `Unicode.CutShort`).

## Model

| member | source | states |
|---|---|---|
| Huffman.PrefixFree | libsrc/zlib/inftrees.c:130-136 | under lengths that are not over-subscribed a stream begins with at most one canonical code |
| Huffman.CodeExists | libsrc/zlib/inftrees.c:130-138 | a stream below the codes used up begins with some code |
| Huffman.CompleteDecodes | libsrc/zlib/inftrees.c:130-138 | a complete set decodes every stream, with a code no longer than the longest |
| InfTrees.CountLengths | libsrc/zlib/inftrees.c:106-110 | count[len] is how many symbols have that length |
| InfTrees.CheckSpace | libsrc/zlib/inftrees.c:130-138 | left is negative exactly for over-subscribed lengths and zero exactly for complete ones |
| InfTrees.SortSymbols | libsrc/zlib/inftrees.c:140-147 | work lists the symbols by length and then by value |
| InfTable.BackIncrement | libsrc/zlib/inftrees.c:241-250 | the backwards increment of the reversed code is the reversal of the code plus one |
| InfTable.Replicate | libsrc/zlib/inftrees.c:232-239 | exactly the indices whose low bits equal the reversed code hold the entry; others are unchanged |
| InfTable.SubTableBits | libsrc/zlib/inftrees.c:268-276 | the look-ahead over the counts finds the size that holds every code with that root prefix |
| InfTable.RevModPrefix | libsrc/zlib/inftrees.c:283-284 | the low root bits of a reversed code are its reversed root prefix |
| InfTable.OneCode | libsrc/zlib/inftrees.c:216-289 | placing one code keeps every earlier one reachable, in the root table or through its sub-table |
| InfTable.LastPrefix | libsrc/zlib/inftrees.c:259-288 | for a complete set the table is exactly as long as the root table and one sub-table for each longer prefix |
| InfTable.InflateTable | libsrc/zlib/inftrees.c:32-329 | the return value is that of the Kraft checks, root is the forced one, and for accepted lengths every stream is led through root and sub-table to exactly the symbol whose bit-reversed canonical code prefixes it, with exactly its length |
| InflateLookup.LookAt | libsrc/zlib/inflate.c:964-978 | a lookup through an accepted table finds a symbol exactly if the stream begins with its code, else the invalid marker |
| InflateLookup.FitsFront | libsrc/zlib/inflate.c:964-978 | an entry that fits the bits at hand is right although the missing high bits read as zero |
| InflateLookup.LongerMeansShort | libsrc/zlib/inflate.c:964-968 | an entry longer than the bits at hand means that they do not decide the code |
| InflateLookup.SecondResult | libsrc/zlib/inflate.c:969-978 | the sub-table entry at last.val plus the shifted bits is the one for the stream |
| InflateLookup.FixedAccepted | libsrc/zlib/inflate.c:212-254 | both fixed codes of section 3.2.6 of RFC 1951 are complete and need root tables only |
| InflateLookup.LenEntry | libsrc/zlib/inftrees.c:219-230 | literal entries are bytes, length entries with their extra bits lie in 3..258 |
| InflateLookup.DistEntry | libsrc/zlib/inftrees.c:219-230 | distance entries with their extra bits lie in 1..32768 |
| Symbols.LengthSymbols | libsrc/zlib/inftrees.c:60-65 | what every literal/length symbol leads to: literals below 256, the end of the block at 256, and from 257 to 285 lengths that follow one another from 3 without a gap, by extra bits that grow every four symbols, and 258 for the last (section 3.2.5 of RFC 1951) |
| Symbols.LengthAll | libsrc/zlib/inftrees.c:60-65 | every length from 3 to 258 has a symbol and extra bits |
| Symbols.LengthOnce | libsrc/zlib/inftrees.c:60-65 | and only one, when 258 is not written with symbol 284 |
| Symbols.LengthRead | libsrc/zlib/inflate.c:964-1000 | reading that symbol and those bits gives that length |
| Symbols.DistSymbols | libsrc/zlib/inftrees.c:66-73 | the same for the thirty distance symbols, whose extra bits grow every two |
| Symbols.DistAll | libsrc/zlib/inftrees.c:66-73 | every distance from 1 to 32768 has a symbol and extra bits |
| Symbols.DistOnce | libsrc/zlib/inftrees.c:66-73 | and only one |
| Symbols.DistRead | libsrc/zlib/inflate.c:1002-1052 | reading them gives that distance, and the match if it reaches back no further than it may |
| Symbols.FixedCodes | libsrc/zlib/inflate.c:225-234 | the code of every symbol of the fixed literal/length code is that of section 3.2.6 of RFC 1951 |
| Symbols.FixedDistCodes | libsrc/zlib/inflate.c:236-241 | the fixed distance codes are the five-bit numbers |
| Symbols.OrderIs | libsrc/zlib/inflate.c:581-582 | the code length code lengths come for 16, 17, 18 and 0, and then by turns up from 8 and down from 7 |
| Symbols.OrderUsed | libsrc/zlib/inflate.c:861-868 | each value received is the length for the symbol of its place, and those not received are zero |
| Symbols.MatchWritten | libsrc/zlib/deflate.h:315-324 | every match that deflate may tally can be written with these symbols |
| BitStream.PeekPull | libsrc/zlib/inflate.c:440-446 | adding a byte above the bits held keeps the accumulator equal to the stream |
| InflateSpec.NextMore | libsrc/zlib/inflate.c:450-454 | a step taken on part of the input is taken alike on all of it |
| InflateSpec.NextLess | libsrc/zlib/inflate.c:450-454 | a step that consumes only the first part of the input does not depend on the rest |
| InflateSpec.StopUnique | libsrc/zlib/inflate.c:561-1159 | the state in which decoding stops is a function of the input |
| InflateSpec.ReachMore | libsrc/zlib/inflate.c:561-1159 | what has been decoded stays decoded when more input is supplied |
| InflateStates.NoSpareByte | libsrc/zlib/inflate.c:440-472 | after a step the accumulator never holds a whole byte that the step did not need |
| InflateStates.Inflater.NeedBits | libsrc/zlib/inflate.c:450-454 | the position in the stream stays; false exactly when the input ran out first |
| InflateStates.Inflater.Take | libsrc/zlib/inflate.c:457-465 | BITS and DROPBITS give the next bits of the stream and move past them |
| InflateStates.Inflater.ByteBits | libsrc/zlib/inflate.c:468-472 | the position moves to the next byte boundary |
| InflateStates.Inflater.GetCode | libsrc/zlib/inflate.c:964-981 | the two lookup loops find the symbol at the front of the stream, or show that the input does not decide it |
| InflateStates.Inflater.FixedTables | libsrc/zlib/inflate.c:212-254 | the tables built for the fixed lengths decode the fixed codes |
| InflateStates.Inflater.TypeDo | libsrc/zlib/inflate.c:782-813 | one step of the bit-level machine at a block header, or none and no bit lost |
| InflateStates.Inflater.Stored | libsrc/zlib/inflate.c:814-826 | the length of a stored block and its complement, section 3.2.4 of RFC 1951 |
| InflateStates.Inflater.Copy | libsrc/zlib/inflate.c:827-843 | as many steps as input and space allow, each copying one byte |
| InflateStates.Inflater.Table | libsrc/zlib/inflate.c:844-861 | the three counts of a dynamic block, refused if there are too many codes |
| InflateStates.Inflater.LenLens | libsrc/zlib/inflate.c:862-882 | the code length code lengths in transmission order, and their table |
| InflateStates.Inflater.CodeLensOne | libsrc/zlib/inflate.c:883-935 | one code length symbol: a length or a run of one length, or an error |
| InflateStates.Inflater.RepeatLens | libsrc/zlib/inflate.c:895-929 | symbols 16, 17 and 18, which look at the code and the count together before dropping either |
| InflateStates.Inflater.CodeLens | libsrc/zlib/inflate.c:883-956 | all code lengths and then both tables |
| InflateStates.Inflater.BuildCodes | libsrc/zlib/inflate.c:937-956 | both tables are accepted exactly when the bit-level machine accepts the lengths |
| InflateStates.Inflater.Len | libsrc/zlib/inflate.c:964-999 | one literal/length symbol is one step |
| InflateStates.Inflater.LenExt | libsrc/zlib/inflate.c:1000-1007 | the extra bits of a length are one step |
| InflateStates.Inflater.Dist | libsrc/zlib/inflate.c:1008-1032 | one distance symbol is one step |
| InflateStates.Inflater.DistExt | libsrc/zlib/inflate.c:1033-1052 | the extra bits of a distance are one step, for every window size; refused exactly if greater than what the window holds of the earlier output and this call has written |
| InflateStates.Inflater.Match | libsrc/zlib/inflate.c:1053-1077 | for every window size the piece copied from window or output puts at each place the byte offset places before it |
| InflateStates.Inflater.Lit | libsrc/zlib/inflate.c:1078-1083 | one literal is one step, or there is no room |
| InflateStates.Inflater.UpdateWindow | libsrc/zlib/inflate.c:330-378 | for every window size, afterwards the whave bytes that end cyclically at write are the last whave bytes of all output |
| Ring.Append | libsrc/zlib/inflate.c:361-376 | writing at the write index keeps the window the end of the history |
| Lz77.ExtendIs | libsrc/zlib/inflate.c:1053-1077 | a match, overlapping or not, makes every new byte equal the one its distance before it |
| Lz77.ExtendUnique | libsrc/zlib/inflate.c:1053-1077 | that determines the result |
| InfFast.Fill15 | libsrc/zlib/inffast.c:121-126 | two bytes are pulled if fewer than 15 bits are held, and never more than 30 bits held |
| InfFast.FastLookup | libsrc/zlib/inffast.c:127-132 | fifteen bits decide every code, directly or through one link |
| InfFast.LinkIndex | libsrc/zlib/inffast.c:261-264 | the index taken after the root bits are dropped is the one inflate takes before |
| InfFast.FastCode | libsrc/zlib/inffast.c:158-163 | one code is looked up and dropped, through at most one link |
| InfFast.CopyMatch | libsrc/zlib/inffast.c:186-259 | for every window size and in all cases of window, wrap and output the match comes out as Extend defines it |
| InfFast.FastMatch | libsrc/zlib/inffast.c:139-260 | length extra, distance and copy are the completed steps of the bit-level machine |
| InfFast.FastOne | libsrc/zlib/inffast.c:120-285 | one iteration: at most 6 bytes pulled, at most 258 written, at most 30 bits held, and only completed steps taken |
| InfFast.InflateFast | libsrc/zlib/inffast.c:67-302 | the run ends in LEN, TYPE or BAD with the output, position and state of completed careful steps, fewer than 8 bits are held, and the hand-back does not rewind before the entry |
| InfFast.SpareMeansBlocked | libsrc/zlib/inffast.c:56-65 | a LEN state that holds a whole spare byte was suspended inside a code, so the hand-back is safe then too |
| InflateBack.Window.Match | libsrc/zlib/infback.c:568-586 | the wrapped copy in the output window extends the history as a match does; it fails exactly if out() accepts fewer windows than fill up on the way, and how far it has come is said exactly |
| InflateBack.Window.Room | libsrc/zlib/infback.c:201-212 | the window is handed out exactly if it is full, and is empty afterwards |
| InflateBack.Window.Literal | libsrc/zlib/infback.c:494-503 | one literal extends the history; the output function is called exactly if the window is full, and has failed exactly if it then accepts no more |
| InflateBack.Window.TooFar | libsrc/zlib/infback.c:560-565 | a distance is refused exactly if it reaches before the output or the window |
| InflateBack.Window.EnterFast | libsrc/zlib/infback.c:466-470 | whave is set to what the window holds of the history |
| InflateBack.Window.FastMatch | libsrc/zlib/inffast.c:186-259 | with the window as output buffer a match is refused exactly if it reaches further back than whave before the buffer; one that lies in the output and the window extends the history as a match does |
| InflateBack.Window.FastRefuses | libsrc/zlib/infback.c:466-470 | the fast test and the careful one agree except for distances beyond the output or the window by at most the bytes in the buffer |
| InflateBack.TakenTooFar | libsrc/zlib/infback.c:466-470 | a distance of 400 after 300 bytes is refused by the one and taken by the other |
| InflateRun.Turn | libsrc/zlib/inflate.c:594-1131 | every turn takes steps of the bit-level machine only, and makes progress or has a reason to leave |
| InflateRun.TurnFast | libsrc/zlib/inflate.c:957-963 | the turn through inflate_fast keeps the same promise |
| InflateRun.Inflate | libsrc/zlib/inflate.c:561-1159 | a call takes steps of the bit-level machine whose distances reach over the window and the output of the call, appends its output to the history, keeps the window its end, and leaves only at the end, at an error, for want of input or of room, or at a block boundary if asked; the next call is in order exactly unless a match further back than the window was left unfinished; with Z_BLOCK no block begins on the way, and a boundary at which it leaves is not the one at which it began |
| InflateRun.Resumable | libsrc/zlib/inflate.c:1140-1159 | two decoders given the same input in any division, with all the room they asked for, have the same output, final mode and consumed bits, for windows no smaller than any distance decoded |
| InflateRun.NothingLost | libsrc/zlib/inflate.c:1140-1159 | a decoder that stopped early has written a beginning of that output, and goes on from there |
| InflateRun.SameEnd | libsrc/zlib/inflate.c:1140-1159 | the same for windows of any size as long as neither refused a distance |
| InflateLimit.LegitReach | libsrc/zlib/inflate.c:1041-1049 | with a window of any size decoding takes the steps of decoding without one, or refused a distance that is greater than the window |
| InflateLimit.DivisionMatters | libsrc/zlib/inflate.c:1041-1049 | in one step, whether a distance that lies in the output is refused depends on how much of it was written by earlier calls exactly if it is greater than the window |
| InflateDivide.Divisions | libsrc/zlib/inflate.c:1041-1049 | no division of an input into two calls refuses a distance exactly if no distance of it is greater than the window |
| InflateDivide.SomeCallRefuses | libsrc/zlib/inflate.c:1041-1049 | if one is, there is a byte after which to divide the input so that the second call ends with a refused distance |
| InflateDivide.Expands | libsrc/zlib/inflate.c:964-1083 | no bit of the input leads to more than 258 bytes of output |
| InflateFeed.InTwo | libsrc/zlib/inflate.c:561-1159 | two calls of inflate with room for everything are the two calls that the division is about, with the error for a refused distance |
| InflateRun.NotTorn | libsrc/zlib/inflate.c:1053-1077 | where no distance is greater than the window no call leaves a match that the next cannot go on with |
| InflateFeed.Drain | libsrc/zlib/zlib.h:413-414 | called again as long as it uses up the room, inflate comes to the end of its input, to the end of the data or to an error |
| InflateFeed.Feed | libsrc/zlib/zlib.h:413-414 | the same for any list of pieces of input and room of any size |
| InflateFeed.AnyDivision | libsrc/zlib/inflate.c:561-1159 | two decoders fed the same bytes in different pieces, with different room and windows of different size, write the same output, if no distance is greater than either window |
| InflateTorn.TornMatch | libsrc/zlib/inflate.c:1053-1077 | a match that reaches further back than the window, gone on with in the next call, gets for each byte the window has lost the one that took its place |
| InflateTorn.TornRight | libsrc/zlib/inflate.c:1053-1077 | that is the match exactly if those bytes are the same |
| InflateLimit.AllNarrow | libsrc/zlib/inflate.c:349-352 | a window of 32K is no smaller than any distance of any stream |
| InflateSmall.InOneCall | libsrc/zlib/inflate.c:1041-1049 | a stored block of 257 bytes and a match at distance 257 are decoded by one call with a window of 256 |
| InflateSmall.InTwoCalls | libsrc/zlib/inflate.c:1041-1049 | the same stream is refused when the second block comes in a second call |
| DeflateHash.Rolls | libsrc/zlib/deflate.c:164-170 | hashing one more byte gives the hash of the last three, whatever came before |
| DeflateHash.ThirdByte | libsrc/zlib/deflate.c:1128-1133 | with hash_bits >= 8 equal hashes and two equal bytes mean an equal third byte |
| DeflateHash.HashIs | libsrc/zlib/deflate.c:170-186 | the hash of three bytes is their exclusive or, each hash_shift above the next, cut to hash_bits |
| HashChains.Insert | libsrc/zlib/deflate.c:189-192 | INSERT_STRING keeps the chains sound and complete: each head is the last entered string with its hash, and each link leads to the last one before, with none passed over |
| HashChains.Slide | libsrc/zlib/deflate.c:1307-1324 | sliding keeps every chain sound and complete, less the strings that leave the window |
| HashChains.Follow | libsrc/zlib/deflate.c:1163-1164 | a link followed within the limit leads to the last string before with the same hash |
| DeflateState.Deflater.InsertString | libsrc/zlib/deflate.c:189-192 | the string at str is entered and no other, head and prev stay sound and complete, and hash_head is the last string before it with its hash |
| DeflateState.Deflater.MaskedSlot | libsrc/zlib/deflate.c:189-192 | the low w_bits bits of a window index are the slot of its string in prev |
| DeflateState.Deflater.Scan | libsrc/zlib/deflate.c:1135-1148 | how far two strings agree, eight comparisons at a time, within the window |
| DeflateState.Deflater.MatchIsTrue | libsrc/zlib/deflate.c:1121-1133 | the strings agree in the byte that is not compared too |
| DeflateState.Deflater.LongestMatch | libsrc/zlib/deflate.c:1027-1168 | a length above prev_length is a true match at match_start, within lookahead and MAX_DIST; of the strings tried, which are those within reach as far as the chain length and nice_match allow, none gives a longer match and none nearer one as long; otherwise none of them is longer than prev_length, and that is returned |
| DeflateState.Deflater.LongestMatchFast | libsrc/zlib/deflate.c:1175-1226 | the same for the single candidate: the length is all that repeats, as far as there is input |
| Parsing.LongestUnique | libsrc/zlib/deflate.c:1027-1168 | the match that longest_match is to find is determined by the input and the strings entered |
| Parsing.LazilyMore | libsrc/zlib/deflate.c:1554-1674 | decisions taken with MIN_LOOKAHEAD bytes ahead stay right when more input arrives and more strings are entered |
| DeflateState.SubMoves | libsrc/zlib/deflate.c:1296-1297 | the distance to match_start survives sliding even when match_start wraps below zero |
| DeflateState.Deflater.SlideWindow | libsrc/zlib/deflate.c:1293-1326 | window, chains and positions move together |
| DeflateState.Deflater.FillWindow | libsrc/zlib/deflate.c:1266-1357 | nothing of the input is lost or moved, and lookahead is enough unless the input is used up |
| DeflateRun.TallyLit | libsrc/zlib/deflate.h:308-314 | one literal more tells one byte more of the input; the block is full at lit_bufsize - 1 tokens |
| DeflateRun.TallyDist | libsrc/zlib/deflate.h:315-324 | one match more tells its length more of the input; the block is full at lit_bufsize - 1 tokens |
| DeflateRun.SlowStep | libsrc/zlib/deflate.c:1562-1665 | one lazy decision: what is found is what the search must give, the match before is tallied exactly if it is at least as good, else the byte that waits; all strings passed are entered; the tokens stay true of the input |
| DeflateRun.SlowSearch | libsrc/zlib/deflate.c:1582-1616 | a match is looked for unless the one before is long enough, and short ones are dropped exactly as the strategy and TOO_FAR say |
| DeflateRun.FastStep | libsrc/zlib/deflate.c:1462-1541 | one greedy decision: the match that the search must give, or a literal, with exactly the strings of short matches entered |
| DeflateRun.SlowLoop | libsrc/zlib/deflate.c:1562-1666 | the loop ends exactly at the end of the input, for want of input, or where there is no room, and not before |
| DeflateRun.DeflateFast | libsrc/zlib/deflate.c:1448-1546 | for every input and chunking the tokens are the greedy parse of the input and expand to what was consumed, with legal lengths and distances; the call returns exactly at the end of the input, for want of input without a flush, or at the first full block without room; with room everywhere all input is told in one call |
| DeflateRun.DeflateSlow | libsrc/zlib/deflate.c:1554-1674 | the same with the lazy parse; the deferred byte counts through match_available, and avail_out is also looked at after every literal |
| DeflateRun.ClearHash | libsrc/zlib/deflate.c:199-201 | the strings entered are forgotten, and nothing else |
| DeflateRun.NewDeflater | libsrc/zlib/deflate.c:986-1011 | a new stream is sound although only head is cleared, with the settings asked for and MAX_DIST 262 below the window size |
| DeflateRun.Supply | libsrc/zlib/zlib.h:83-84 | more input leaves the state sound |
| Crc32.StepsByte | libsrc/zlib/crc32.c:215-215 | a table step advances the register by eight zero bits |
| Crc32Poly.ZeroBit | libsrc/zlib/crc32.c:92-98 | a step of the register is multiplication by x modulo the polynomial |
| Crc32Poly.CrcIsRemainder | libsrc/zlib/crc32.c:84-98 | crc32 of data is the remainder of the long division of section 8 of RFC 1952, preset and complemented |
| Crc32Tables.PolySum | libsrc/zlib/crc32.c:121-124 | the exponents make the pattern 0xedb88320 |
| Crc32Tables.MakeCrcTable | libsrc/zlib/crc32.c:106-149 | row k is a byte followed by k zero bytes, rows 4 to 7 their reversals |
| Crc32Tables.FourEntries | libsrc/zlib/crc32.c:256-258 | DOLIT4 is four byte steps |
| Crc32Tables.FourReversed | libsrc/zlib/crc32.c:296-298 | DOBIG4 is four byte steps on a register held in reverse |
| Crc32Tables.Crc32Little | libsrc/zlib/crc32.c:262-293 | the little-endian loop is the bit-by-bit CRC for every alignment and length |
| Crc32Tables.Crc32Big | libsrc/zlib/crc32.c:302-335 | the big-endian loop is the bit-by-bit CRC for every alignment and length |
| Crc32Combine.TimesFrom | libsrc/zlib/crc32.c:342-356 | a matrix that does to the unit words what n zero bits do does it to every word |
| Crc32Combine.MatrixTimes | libsrc/zlib/crc32.c:342-356 | the loop is the matrix product over GF(2) |
| Crc32Combine.MatrixSquare | libsrc/zlib/crc32.c:359-367 | the square of the operator for n zero bits is the one for 2n |
| Crc32Combine.Combine | libsrc/zlib/crc32.c:370-423 | the alternating loop applies exactly 8*len2 zero bits to crc1 |
| Crc32Combine.CombineConcat | libsrc/zlib/crc32.c:370-423 | on the checksums of two pieces it gives the checksum of the whole, for all byte sequences |
| Adler32.CapFits | libsrc/zlib/adler32.c:11-13 | NMAX bytes do not overflow 32 bits |
| Adler32.CapOver | libsrc/zlib/adler32.c:11-13 | one byte more may overflow |
| Adler32.AdlerClosed | libsrc/zlib/adler32.c:57-125 | the sums are those of all bytes and of all first sums, modulo 65521 |
| Adler32.FirstSums | libsrc/zlib/adler32.c:57-125 | the checksum of data by itself in closed form (section 8.2 of RFC 1950) |
| Adler32.ShiftModIs | libsrc/zlib/adler32.c:22-54 | the shift-subtract forms reduce exactly the numbers below twice their first multiple |
| Adler32.Mod | libsrc/zlib/adler32.c:22-42 | MOD is reduction modulo 65521 for every 32-bit number |
| Adler32.Mod4 | libsrc/zlib/adler32.c:43-50 | MOD4 is too below 32 times the base |
| Adler32.Deferred | libsrc/zlib/adler32.c:96-121 | when the reductions are made does not matter |
| Adler32.Adler32 | libsrc/zlib/adler32.c:57-125 | without overflow the result is the byte-by-byte definition of section 8.2 of RFC 1950; for one byte exactly when the sum is below twice the base |
| Adler32.Combine | libsrc/zlib/adler32.c:128-149 | both halves lie in 1..65521 and are congruent to those of the concatenation |
| Adler32.CombineConcat | libsrc/zlib/adler32.c:128-149 | the result is the checksum of the concatenation exactly where, by the two checksums and the length given, neither half of it is zero |
| Adler32.CombineNothing | libsrc/zlib/adler32.c:128-149 | combining the checksums of nothing leaves 65521 in the second half |
| Adler32.OneByteTooMuch | libsrc/zlib/adler32.c:70-78 | a single zero byte after the sums 65520 and 65535 gives a result that is not reduced |
| Cache.Replace | libsrc/fs/cache.c:137-145 | loading into a page whose contents the disc has changes nothing the file system sees |
| Cache.WriteBack | libsrc/fs/cache.c:128-135 | writing a page back changes nothing either |
| Cache.CacheState.GetSector | libsrc/fs/cache.c:105-146 | what the file system sees is unchanged, no sector is in two pages, clean pages equal the disc, and the page returned holds the sector; a hit does not touch the disc and cannot fail, and a miss gives up the least used page and no other |
| Cache.CacheState.Search | libsrc/fs/cache.c:108-119 | the page that holds the sector, or else a free page, or else the first with the lowest count |
| Cache.PatchedAt | libsrc/fs/cache.c:182 | a partial write changes the named bytes of the 512 and no others |
| Cache.CacheState.ReadPartialSector | libsrc/fs/cache.c:151-165 | the bytes are those the file system sees |
| Cache.CacheState.WritePartialSector | libsrc/fs/cache.c:170-186 | exactly the named bytes change |
| Cache.CacheState.EraseWritePartialSector | libsrc/fs/cache.c:224-241 | the named bytes change and the rest of the sector is zero |
| Cache.CacheState.Flush | libsrc/fs/cache.c:248-263 | what is seen stays, and after success the disc holds it and all counts are zero; the result is nonzero either way |
| Cache.CacheState.Invalidate | libsrc/fs/cache.c:265-272 | afterwards exactly what the disc holds is seen |
| Cache.CacheState.WritePartialSectorCheck | libsrc/fs/cache.c:193-219 | exactly the pages of the leading cached sectors are brought up to date |
| Cache.CacheState.WriteDirect | libsrc/fs/cache.c:188-219 | a direct write and its mirror step: what is seen afterwards is exactly what was written but for the missed sectors, and which sectors are stale is said exactly |
| Cache.DirectWrite | libsrc/fs/cache.c:199-218 | which sectors of the run show what was written, both ways |
| Cache.DirectWriteSeen | libsrc/fs/cache.c:193-219 | the cache stays sound; missed sectors in clean pages are stale, those in dirty pages keep their contents, and all others are seen as written |
| Cache.DirectWriteStale | libsrc/fs/cache.c:208-209 | whenever a sector is missed some write of the run is not seen |
| Cache.RawWrite | libsrc/fs/fatfile.c:519-523 | a sector written without the mirror step shows it exactly if no page holds it or it had those contents |
| Cache.DirectWriteShows | libsrc/fs/cache.c:193-219 | all sectors but the missed ones show what was written, and nothing else changes |
| Cache.MissedNone | libsrc/fs/cache.c:199-218 | no sector is missed exactly if the cached sectors of the run come first in it |
| Cache.AllShown | libsrc/fs/cache.c:199-218 | the whole run is seen exactly if every missed sector held what was written before |
| Cache.SecondSectorStale | libsrc/fs/cache.c:208-209 | a cache that holds the second sector of a run and not the first still reads it as zeros after ones were written |
| FatTable.ReadBack | libsrc/fs/file_allocation_table.c:47-201 | reading a cluster after writing it gives the value, cut to the width and with end-of-chain marks unified |
| FatTable.ReadBackLink | libsrc/fs/file_allocation_table.c:47-201 | a link or CLUSTER_EOF comes back as it is |
| FatTable.ReadOther | libsrc/fs/file_allocation_table.c:134-198 | every other cluster reads as before, also where two entries share a byte |
| FatBits.EntryIs | libsrc/fs/file_allocation_table.c:47-110 | entry c is the c-th number of 12, 16 or 32 bits in the table read as one string of bits |
| FatBits.EndMarks | libsrc/fs/file_allocation_table.c:81-109 | exactly the last nine values of 12, 16 or 28 bits, and those above, are read as the end of a chain |
| FatVolume.Volume.NextCluster | libsrc/fs/file_allocation_table.c:47-118 | the entry as the table bytes give it, straddling a sector or not; nothing seen changes |
| FatVolume.Volume.WriteFatEntry | libsrc/fs/file_allocation_table.c:124-201 | the table bytes become those with the entry set, sectors outside the table stay, clusters outside the volume are refused |
| FatVolume.Volume.WriteOdd | libsrc/fs/file_allocation_table.c:144-158 | an odd 12-bit entry, with its shared byte kept and its bytes perhaps in two sectors |
| FatVolume.Volume.WriteEven | libsrc/fs/file_allocation_table.c:160-175 | an even 12-bit entry likewise |
| FatVolume.Volume.WriteDataDirect | libsrc/fs/fatfile.c:648-653 | the table is untouched, only sectors that were cached are missed, and what is seen and what is stale is said exactly |
| FatChains.LinksSet | libsrc/fs/file_allocation_table.c:124-201 | writing one entry changes one link |
| FatChains.AppendKeeps | libsrc/fs/file_allocation_table.c:252-258 | a free cluster linked to the end of a chain lengthens exactly that chain and keeps all of them disjoint and acyclic; at the last cluster of the volume it becomes a chain of its own |
| FatChains.NewKeeps | libsrc/fs/file_allocation_table.c:257-260 | a free cluster asked for with CLUSTER_FREE is a new chain |
| FatChains.ClearKeeps | libsrc/fs/file_allocation_table.c:308-317 | freeing a chain frees exactly that chain |
| FatAlloc.Search | libsrc/fs/file_allocation_table.c:227-250 | from any hint the search finds the first free cluster, going around once, or none exactly when none is free, unless misled |
| FatAlloc.LinkFreeCluster | libsrc/fs/file_allocation_table.c:209-261 | an existing link is returned, else the first free cluster is allocated and linked, else CLUSTER_FREE exactly when none is free; after a misled search the cluster is linked to one that does not exist |
| FatAlloc.ClearLinks | libsrc/fs/file_allocation_table.c:297-320 | from the head of a chain exactly its clusters become free, and firstFree moves back to it |
| FatAlloc.LastCluster | libsrc/fs/file_allocation_table.c:326-331 | the last cluster of the chain |
| FatFree.CountTaken | libsrc/fs/file_allocation_table.c:252-258 | linking a free cluster leaves one free cluster less in every range that holds it and the same number in every other |
| FatFree.FreeIs | libsrc/fs/file_allocation_table.c:209-245 | the clusters counted as free are those from number 2 on whose link is 0 |
| FatFree.CourseGoes | libsrc/fs/file_allocation_table.c:227-258 | taking the first free cluster keeps the count of clusters that can still be had, and the last cluster of the volume becomes the end of the chain at the length foretold |
| FatWitness.MisledReached | libsrc/fs/file_allocation_table.c:227-250 | on a volume with two clusters in use a request finds none, and the next links the end of a chain to a cluster that does not exist |
| FileLayout.SliceSectors | libsrc/fs/file_allocation_table.h:60-62 | consecutive sectors of a cluster are consecutive bytes of the file |
| FileLayout.OffsetSplit | libsrc/fs/fatfile.c:817-819 | a position determines cluster, sector and byte by the divisions of the code |
| FileLayout.ClustersTile | libsrc/fs/file_allocation_table.h:60-62 | clusters follow one another from number 2 at the start of the data region |
| FileLayout.SectorHome | libsrc/fs/file_allocation_table.h:60-62 | every sector of the region belongs to one cluster, in one place |
| FileLayout.ByteIs | libsrc/fs/file_allocation_table.h:60-62 | where on the disc byte p of a file is |
| FatFile.File.Walk | libsrc/fs/fatfile.c:824-829 | following n links from the k-th cluster leads to the (k+n)-th or to the end |
| FatFile.File.Seek | libsrc/fs/fatfile.c:762-846 | the new position or -1; where the file stands is a function of the position alone, however the walk began |
| FatFile.File.HomeIs | libsrc/fs/fatfile.c:804-842 | that is where the position belongs in the chain |
| FatFile.File.ReadAlign | libsrc/fs/fatfile.c:334-353 | the rest of a sector begun |
| FatFile.File.ReadClusters | libsrc/fs/fatfile.c:388-405 | whole clusters, crossing links |
| FatFile.File.ReadRest | libsrc/fs/fatfile.c:407-424 | the remaining sectors and the last partial one |
| FatFile.File.Read | libsrc/fs/fatfile.c:282-434 | length, position and invariant on every read; the bytes are the slice of the chain provided no sector of the range is stale and none read directly is dirty |
| FileImage.PartStored | libsrc/fs/fatfile.c:627-632 | part of a sector written is that part of the file, and nothing before the end changes elsewhere |
| FileImage.RunStored | libsrc/fs/fatfile.c:648-653 | sectors written are those bytes of the file and nothing else |
| FileImage.OtherChain | libsrc/fs/fatfile.c:555-759 | a chain without a common cluster keeps its bytes |
| FileImage.RunHeld | libsrc/fs/fatfile.c:648-653 | a sector of a direct run that is cached was so when the write began |
| FileJob.ShownRun | libsrc/fs/fatfile.c:648-653 | after a direct write the missed sectors in dirty pages show what they held when the write began, every other sector of the file what is stored |
| FileJob.ReachedPart | libsrc/fs/fatfile.c:627-632 | part of a sector keeps the account of what is stored, seen, stale and cached |
| FileJob.ReachedRun | libsrc/fs/fatfile.c:648-653 | whole sectors written directly keep it too, with the sectors missed recorded |
| FileJob.NeedIs | libsrc/fs/fatfile.c:602-617 | a number of clusters holds the file exactly if it is no less than those it has and those needed |
| FileWrite.GrownKeeps | libsrc/fs/file_allocation_table.c:252-258 | the cluster taken lengthens the chain of the file, or after the last cluster of the volume begins a chain of its own, and all chains stay disjoint |
| FileWrite.PutPart | libsrc/fs/fatfile.c:627-632 | what the file system sees changes in those bytes, the table and the invariant are kept |
| FileWrite.PutRun | libsrc/fs/fatfile.c:648-653 | the same for direct writes, with what is seen at once, what stays unseen and what is stale said exactly |
| FileWrite.PutRaw | libsrc/fs/fatfile.c:519-523 | the same for a sector written without the mirror step |
| FileWrite.NextOrNew | libsrc/fs/fatfile.c:603-617 | the next cluster of the chain, or the first free one as its new end, or CLUSTER_FREE exactly when one is needed and none is free; the last cluster of the volume may become the end |
| FileWrite.Cross | libsrc/fs/fatfile.c:603-617 | moving on to the next cluster keeps everything, or stops at the end of a full chain with no cluster free |
| FileWrite.WriteClusters | libsrc/fs/fatfile.c:679-706 | whole clusters, allocating as needed, or stopped at the end of a full chain |
| FileWrite.WriteAll | libsrc/fs/fatfile.c:602-739 | all stages: everything is stored, or everything up to the end of a full chain |
| FileWrite.EndAt | libsrc/fs/fatfile.c:451-461 | where file_extend_r looks for the end of a file, and that it is there exactly if the chain is no longer than the file needs |
| FileWrite.EndMissed | libsrc/fs/fatfile.c:451-461 | a file of 100 bytes with two clusters is extended from byte 612 |
| FileWrite.ZeroSectors | libsrc/fs/fatfile.c:499-527 | whole sectors of zeros, written without the mirror step |
| FileWrite.Extend | libsrc/fs/fatfile.c:439-552 | zeros up to the current position, from the end of the file as the code finds it, or size and position stay and no cluster is free |
| FileWrite.Finished | libsrc/fs/fatfile.c:602-739 | a write that went through added exactly the clusters needed, and as many were free |
| FileWrite.Ended | libsrc/fs/fatfile.c:602-617 | a write that stopped added all free clusters, and fewer were free than needed |
| FileWrite.Write | libsrc/fs/fatfile.c:555-759 | everything is stored unless fewer clusters are free than needed, both ways; size, position, chain and place afterwards, and exactly when the file is in order again |
| FileSeen.WriteSeen | libsrc/fs/fatfile.c:555-759 | where nothing is stale the file system sees what was written and every other byte of the old file as it was exactly if every sector missed in a dirty page held it before |
| FileSeen.StaleExactly | libsrc/fs/cache.c:193-219 | the stale sectors after a write are exactly those that were and were not brought up to date and those missed in clean pages |
| FileSeen.SeenIfNoneMissed | libsrc/fs/fatfile.c:555-759 | if no direct write missed a sector all of it is seen |
| FileSeen.MissesNone | libsrc/fs/cache.c:199-218 | a direct write misses none exactly if the mirror step was made wherever a page holds one of its sectors and those come first |
| FileSeen.FreshStays | libsrc/fs/fatfile.c:555-759 | if no sector of the file from the start of the write on was cached none is missed, and the same is true again where the write ends |
| FileSeen.WriteNext | libsrc/fs/fatfile.c:555-759 | writes one after another: each is seen, and leaves the cache so that the next is |
| FileSeen.HoldsMore | libsrc/fs/fatfile.c:555-759 | two writes in a row store what one write of both would |
| FileSeen.SpilledWhen | libsrc/fs/file_allocation_table.c:252-256 | data goes on in clusters that nothing links to exactly if the file grows beyond the length at which the last cluster of the volume is its end |
| FileSeen.StillTight | libsrc/fs/fatfile.c:505-517 | after a failed extension the chain is longer than the file needs exactly if a cluster was added to it |
| FileSeen.OtherFiles | libsrc/fs/fatfile.c:555-759 | every other chain of the volume is the same and holds the same bytes |
| FatWitness.ShortWrite | libsrc/fs/fatfile.c:603-610 | 1025 bytes for a file with room for 1024: the position is left at the beginning of the second cluster |
| FatWitness.LostWrite | libsrc/fs/file_allocation_table.c:252-256 | 513 bytes for a file that has the last cluster of the volume: all are reported written, and the chain still ends after 512 |
| Heap.Memory.HeapInit | libsrc/base/clib/memory.c:33-44 | one free block between the rounded bounds, if there is room for its header |
| Heap.Memory.CurrentNodeAlloc | libsrc/base/clib/memory.c:46-96 | for every rounded size the block passes exactly by the test of the code; it is split or used whole, or the words are those of a split whose address wraps, or nothing changes |
| Heap.Memory.Split | libsrc/base/clib/memory.c:58-87 | the header writes leave a linked, ascending, 4-aligned tiling |
| Heap.Memory.Alloc | libsrc/base/clib/memory.c:98-135 | for every size the first block that passes is handed out, 0 exactly when none passes; the heap is that with the block taken, but for the sizes that wrap in the test, after which headers that fit some list of blocks are left exactly in the case named |
| Heap.Memory.LocFree | libsrc/base/clib/memory.c:152-189 | the four cases of merging keep the tiling, with no two free neighbours |
| Heap.Memory.DeAlloc | libsrc/base/clib/memory.c:192-196 | the block list is that with block k freed |
| Heap.Memory.Write | libsrc/base/clib/memory.c:15-24 | a store inside a payload disturbs no header |
| Heap.SizesThatWrap | libsrc/base/clib/memory.c:58-103 | the test is whether the payload holds the bytes exactly for the sizes that do not wrap; beyond them every payload of 16 bytes passes |
| Heap.RoundedIs | libsrc/base/clib/memory.c:103 | sizes are rounded up to the next multiple of four, and which ones wrap |
| Heap.Memory.PassesIs | libsrc/base/clib/memory.c:58-103 | for those sizes the blocks that pass are the free ones whose payload holds the bytes |
| Heap.Memory.PassesTooMany | libsrc/base/clib/memory.c:58-103 | for the others every free block of 16 bytes passes and none can hold the bytes |
| Heap.Memory.TooSmall | libsrc/base/clib/memory.c:98-135 | 2^32 - 1 bytes are handed out from a heap of a few words |
| Heap.WrapLoses | libsrc/base/clib/memory.c:58-87 | after a split whose address wraps no list of blocks fits the headers, unless the sum wraps to 0 in a heap of one block below address 260 |
| Heap.Memory.HeadersLost | libsrc/base/clib/memory.c:58-103 | 2^32 - 16 bytes are handed out, and the headers are lost |
| HeapBlocks.Disjoint | libsrc/base/clib/memory.c:15-24 | payloads overlap neither each other nor headers |
| HeapBlocks.TakenKeeps | libsrc/base/clib/memory.c:58-94 | a block taken for n bytes has fewer than 20 to spare, and the list stays an ascending tiling without free neighbours |
| HeapBlocks.TakenLive | libsrc/base/clib/memory.c:46-96 | allocating adds one block in use and changes no other |
| HeapBlocks.FreedLive | libsrc/base/clib/memory.c:152-189 | freeing removes one and changes no other |
| HeapBlocks.AllocFree | libsrc/base/clib/memory.c:129-196 | freeing what was just allocated restores the block list |
| HeapBlocks.AllFree | libsrc/base/clib/memory.c:152-189 | with everything freed there is one block, the whole heap |
| Unicode.Utf8Decode | libsrc/fs/fs_unicode.c:13-56 | one character by leading and continuation bytes, with the replacements the code makes, reading only bytes of the buffer |
| Unicode.Utf8ToUnicode16 | libsrc/fs/fs_unicode.c:58-66 | the units of the text and a zero, nothing else written, for every text that is decoded inside its buffer |
| Unicode.Unicode16ToUtf8 | libsrc/fs/fs_unicode.c:93-116 | the one to three bytes of every unit and a zero, nothing else written |
| Unicode.RoundTrip | libsrc/fs/fs_unicode.c:13-116 | any sequence of nonzero units, lone surrogates included, of any length survives encoding and decoding, with nothing but the terminator behind it |
| Unicode.EncodeInjective | libsrc/fs/fs_unicode.c:93-116 | different texts have different bytes |
| Unicode.CutShort | libsrc/fs/fs_unicode.c:34-45 | the first byte of a pair, the terminator and a letter are decoded to two units |
| Unicode.DecodeTerminated | libsrc/fs/fs_unicode.c:34-45 | decoding ends at the terminator if the text is whole, and else goes on behind it |
| Unicode.StaysInside | libsrc/fs/fs_unicode.c:34-45 | decoding does not depend on what is behind the terminator exactly if the last character begun has all the bytes its lead announces, and exactly then stays in a buffer that ends with it |
| Unicode.BrokenUnit | libsrc/fs/fs_unicode.c:34-45 | a sequence that is broken off by another byte gives 0xfffd, and that byte is decoded next |
| Unicode.Unbroken | libsrc/fs/fs_unicode.c:34-45 | a whole sequence gives the low six bits of each byte, appended |
| Unicode.CutOff | libsrc/fs/fs_unicode.c:34-45 | one that a zero cuts short gives those that came before, and the zero is taken |
| LongName.AliasSum | libsrc/fs/directory.c:887-892 | the loop computes the rotate-and-add checksum of the eleven bytes |
| LongName.FillEntry | libsrc/fs/directory.c:904-929 | ordinal, end mark, units, terminator, padding, checksum and reserved bytes of one long entry |
| LongName.PartFormat | libsrc/fs/directory.c:904-929 | which bytes of a long entry hold the ordinal, the end mark, the attributes and the checksum, and which are zero |
| LongName.UnitPlaces | libsrc/fs/directory.c:84 | units are two bytes each, five from byte 1, six from byte 14 and two from byte 28 |
| LongName.Marks | libsrc/fs/directory.c:292-333 | how entries are told apart by bytes 0 and 11 |
| LongName.Rotates | libsrc/fs/directory.c:890-891 | the step of the checksum rotates eight bits to the right and adds |
| LongName.UniStrnLen | libsrc/fs/fs_unicode.c:118-136 | the length of the text, at most maxlen |
| LongName.LearnPart | libsrc/fs/directory.c:299-321 | an entry with part p adds the units of that part to those read |
| LongName.ScanFinds | libsrc/fs/directory.c:292-350 | from any state of the scan the entries of a file are found as one file with its full name |
| LongName.ScanReaches | libsrc/fs/directory.c:292-350 | also when the scan starts before them and passes deleted entries and labels |
| LongName.NameBack | libsrc/fs/directory.c:822-935 | a name of up to 247 nonzero units, laid out from its UTF-8 bytes and their terminator, is found again with the same bytes |
| Directory.SectorsDiffer | libsrc/fs/directory.c:215-248 | no two sectors of a directory are the same |
| Directory.EntryPlace | libsrc/fs/directory.c:297 | where on the disc entry i of a directory is |
| Directory.Increment | libsrc/fs/directory.c:215-248 | the position after that of entry i is that of entry i+1, over sectors, clusters and the fixed root, or there is none |
| Directory.EntriesSet | libsrc/fs/directory.c:929-933 | a partial write at a position sets that entry and no other |
| Directory.GetNextEntry | libsrc/fs/directory.c:250-366 | the file found is the one the scan of the entries finds: alias entry, start and end positions, and the name as UTF-8 |
| Directory.AddLong | libsrc/fs/directory.c:822-935 | the entries written are those of the name with the alias last, or as many of the first as there is room for, and no other entry changes |

## Left out

- Hardware code, console, example program, path handling, mounting and the stdio wrappers: they add no property of the kind proved here.
- `trees.c` is not part of this model: the tally macros append to a token sequence and count the tokens of the block, and whether there is output space when it is looked for is a parameter.
- Parsing.LongestUnique: whether the first string of a chain is tried when it is exactly MAX_DIST back is not said, because it depends on whether it has window index 0 at the time, which stands for no string.
- `deflate_stored`, `deflate_rle`, `deflateParams`, preset dictionaries, gzip and zlib headers and trailers, `inflateSync`, `inflatePrime`: more cases of the same kind.
- The 16-bit, `FASTEST`, `UNALIGNED_OK` and `INFLATE_STRICT` variants.
- The array of `ENOUGH` table entries: a table is a sequence as long as it needs to be. The checks against `ENOUGH - MAXD` and their result 1 are modelled; `InfTable.LastPrefix` gives the exact size.
- The branch that drops back to the root table in the last loop of `inflate_table` (`libsrc/zlib/inftrees.c:302-308`): only sets with one code of one bit are accepted as incomplete, and for them it is never taken.
- `lens` and the decoding tables of `inflate_state` are sequences that the methods reassign, not arrays.
- `InflateBack.Window`: the LEN state of `inflateBack` shares its decoding with `inflate`, and its fast loop with `inflate_fast`; its input function and the decoding loops are not modelled again.
- InflateRun.Resumable: for windows smaller than some distance of the stream the results of different divisions differ, as `InflateSmall.InTwoCalls` shows.
- InflateTorn.TornMatch: a distance greater than the window and the write index together is left out, because what is copied then is not in the window.
- Adler32.Combine: the halves of the checksums given are at most 65521, as those of every checksum are; larger ones do not fit their halves of the result. The length is not negative.
- Crc32Combine.Combine: a negative length is left out, because the loop does not end then.
- `crc32` one byte at a time, without `BYFOUR`: its step is `Crc32.StepsByte`; the literal tables of `crc32.h` and `inffixed.h` are represented by their generators.
- Null buffers, allocation failures, `errno`, time stamps and `stat`.
- A transfer of several sectors succeeds as a whole or does nothing. From the allocator upwards transfers do not fail, because the code there ignores their results and goes on with whatever is in its buffers:
- FatAlloc.Search: a disc whose transfers within it succeed.
- FatAlloc.LinkFreeCluster: a disc whose transfers within it succeed.
- FatAlloc.ClearLinks: a disc whose transfers within it succeed.
- FatAlloc.LastCluster: a disc whose transfers within it succeed.
- FatFile.File.Seek: a disc whose transfers within it succeed.
- FatFile.File.Read: a disc whose transfers within it succeed.
- Directory.Increment: a disc whose transfers within it succeed.
- FatFile.File.Walk: a disc whose transfers within it succeed.
- FatFile.File.ReadAlign: a disc whose transfers within it succeed.
- FatFile.File.ReadClusters: a disc whose transfers within it succeed.
- FatFile.File.ReadRest: a disc whose transfers within it succeed.
- FileWrite.PutPart: a disc whose transfers within it succeed.
- FileWrite.PutRun: a disc whose transfers within it succeed.
- FileWrite.PutRaw: a disc whose transfers within it succeed.
- FileWrite.NextOrNew: a disc whose transfers within it succeed.
- FileWrite.Cross: a disc whose transfers within it succeed.
- FileWrite.WriteClusters: a disc whose transfers within it succeed.
- FileWrite.WriteAll: a disc whose transfers within it succeed.
- FileWrite.ZeroSectors: a disc whose transfers within it succeed.
- FileWrite.Extend: a disc whose transfers within it succeed.
- FileSeen.WriteNext: a disc whose transfers within it succeed.
- 32-bit overflow of file positions, sizes and sector numbers in the file system: they are unbounded, on a disc of fewer than 2^32 - 1 sectors.
- FileWrite.Write: a disc whose transfers within it succeed, and a search for a free cluster that is not misled, which can be so only after a search that failed; `FatAlloc.LinkFreeCluster` says what happens otherwise. Append mode is not modelled. Which sectors were written directly, past the cache, is what the write itself records in `runs`; that these are all the whole ones is not stated.
- FileSeen.WriteSeen: of a sector that is stale nothing is said, because its page may be given up at any time; `FileWrite.PutRun` says what is seen right after each direct write.
- Directory.AddLong: short aliases, the search for a gap of entries and the check for an existing name are not modelled; the alias and the place are parameters. Transfers within the disc succeed.
- Directory.GetNextEntry: the ordinals of long entries are supposed to fit the array of 256 units, which holds for every entry this code writes for up to 247 units; extending a directory is not modelled, and transfers within the disc succeed.
- Heap.Memory.HeapInit: the heap does not begin at address 0, which in the headers stands for no block.
- `Drv_realloc`: growing in place does not update the link of the following block, so the invariant of the heap does not hold for it.
