# Verified model of the bzip2 codec and the command history

This project models three pieces of the repository and proves what they are for.

**The bzip2 library (contrib/bzip2).** Compression turns input into blocks by a first run-length stage, sorts
the rotations of each block, codes the last column by move-to-front and zero runs, gives the symbols Huffman
codes from two to six tables, and writes bits; decompression undoes every stage. Both directions are resumable
machines that take input and give output in whatever pieces the caller offers. The main results:

- every input, in any pieces and with any room of a byte or more at each call, is compressed to the end of the
  stream, and what was handed out decodes to exactly the input, with the check of every block and of the stream
  agreeing (`BzFile.CompressAll`); whatever sequence of run, flush and finish calls is made, the same holds once
  the end of the stream is reported (`StreamDecoding.DecodeEncode`), and the errors are returned exactly when the
  caller's mode, action, input or room call for them;
- a decoder fed that stream in any pieces, with room for output in any pieces, never reports an error, has at any
  time put out a beginning of what was compressed, never waits for input once it has the whole stream, and at
  the end has put out all of it (`RoundTrip`); a file written in any pieces and read in any pieces gives back
  what was written, and for any file at all the code `BzRead` ends with says what the file is (`BzFile`);
- both block sorts yield the rotations in order, equal rotations included; the main sort's stack, scans, cached
  ranks and budget are part of the proof, as are the fallback's doubling passes and bucket bits;
- the code lengths are complete, at most 17, and optimal for the weights of the pass that is kept; no pass is
  given up unless an optimal code for its weights is too long and they come to 6765 or more, and the rescaling
  ends; the decoding tables read every code back; the decoder's sliding windows are a
  move-to-front list; both forms of the inverse sort spell the block;
- a block, randomised or not, is found corrupt on output exactly when it is cut off inside a run.

Two properties one might expect are false of the code, and stand as the exact condition under which they hold. The
decoder's arrays for selectors are large enough if and only if the stream announces no more than 18002
(`DecodeInvariant.SelectorRoom`; `SelectorsUnfit` gives an input that announces more). Compressing nothing into no
room is refused as a wrong sequence of calls, not as a full buffer, and it is the only input refused so
(`BzFile.BuffToBuffCompress`).

**The command history (bld/cmdedit/cmdsave.c).** The ring of length-tagged records is a list of commands with a
place in it: saving drops the fewest oldest commands that make room, browsing moves the place by one.

**The 64-bit decimal printer (contrib/bzip2/bzip2.c).** Eight bytes divided by ten from the top give the decimal
numeral.

Where the source works on arrays and fields, so does the model: each such method is proved against a
specification on sequences, and the lemmas are about the specification. Objects of the source become the classes
`CompressStream.EState`, `DecompressStream.DState`, `BitIO.BitWriter`, `BitReading.BitReader`,
`SymbolReading.SymbolReader`, `MtfWindows.Windows`, `BzFile.WriteFile`, `BzFile.ReadFile`, `HistoryRing.History` and
`DecimalPrinter.UInt64`.
`dafny verify dfyconfig.toml` checks everything.

## Model

| member | source | states |
|---|---|---|
| BlockSort.BlockSort | contrib/bzip2/blocksort.c:1078-1136 | the block's bytes are kept, ptr holds every rotation once in cyclic order whichever sort ran, and origPtr is the row of rotation 0 (assertion 1003) |
| MainSorting.MainSort | contrib/bzip2/blocksort.c:798-1058 | when the budget is not used up, ptr is a permutation of the block's rotations in order, equal rotations included |
| MainSorting.ScanBig | contrib/bzip2/blocksort.c:966-991 | the two Step 2 scans place every small bucket [t,ss] whose big bucket is not done, sorted, and meet exactly or cover a block of one byte value (assertion 1007) |
| MainSorting.RankBig | contrib/bzip2/blocksort.c:1034-1051 | after Step 3 the quadrants, the overshoot copies included, rank the rotations of every finished big bucket as their order does (assertion 1002) |
| InducedResult.ScansRebuild | contrib/bzip2/blocksort.c:971-991 | what both scans leave is a permutation whose buckets [t,ss] are in order and whose other places are as before |
| MainProgress.RankOrder | contrib/bzip2/blocksort.c:1006-1032 | rotations whose quadrants differ are ordered as the quadrants are: what the comparator relies on |
| MainQSort.MainQSort3 | contrib/bzip2/blocksort.c:668-764 | within 100 stack entries (assertion 1001) the segment is rearranged and, unless the budget ran out, sorted by rotation |
| MainQSort.MainSimpleSort | contrib/bzip2/blocksort.c:532-602 | the shell sort rearranges the segment and, unless it is abandoned, sorts it by rotation |
| MainCompare.MainGtU | contrib/bzip2/blocksort.c:394-516 | the word-wise comparison with ranks gives the order of two rotations, and reads nothing past the overshoot |
| FallbackSorting.FallbackSort | contrib/bzip2/blocksort.c:259-376 | for every nonempty block fmap ends as a permutation sorted by cyclic rotation, and the overwritten block is rebuilt exactly (assertion 1005) |
| FallbackSorting.RefineBuckets | contrib/bzip2/blocksort.c:320-354 | one pass at depth h leaves fmap sorted on 2h bytes with the bits marking exactly the bucket heads; when nothing is left undone every place is a head |
| Bhtab.Find | contrib/bzip2/blocksort.c:325-339 | the scan that skips whole words stops at the first bit of the value sought, as a scan bit by bit would |
| FallbackQSort.FallbackQSort3 | contrib/bzip2/blocksort.c:140-227 | within 100 stack entries (assertion 1004) the range is rearranged and sorted by eclass |
| Rotations.SortsAgree | contrib/bzip2/blocksort.c:1078-1136 | any two sorts of the rotations of one block hold equal rotations at every place, however they break ties |
| InverseBwt.LastColumnUnique | contrib/bzip2/compress.c:205-210 | the last column does not depend on how the sort breaks ties between equal rotations |
| InverseBwt.InversionTheorem | contrib/bzip2/decompress.c:579-594 | walking the inverse of the column's T permutation from the row of rotation 0 spells the block, periodic or not |
| InverseVectors.SetUpCftab | contrib/bzip2/decompress.c:527-536 | the cumulative counts are those of the column, and the check on them never fails |
| InverseVectors.BuildFast | contrib/bzip2/decompress.c:579-584 | the words of tt hold the column in their low bytes and the inverse permutation above |
| InverseVectors.BuildT | contrib/bzip2/decompress.c:544-552 | the T permutation is built in place over the column's bytes, 20 bits an entry |
| InverseVectors.ReverseCycle | contrib/bzip2/decompress.c:554-564 | reversing the pointers from origPtr turns T into its inverse on the whole of origPtr's cycle |
| InverseVectors.IndexIntoF | contrib/bzip2/bzlib.c:731-742 | the bisection finds the byte whose bucket of the first column holds the row |
| InverseVectors.GetFast | contrib/bzip2/bzlib_private.h:478-486 | a step of the fast walk gives the column's byte and the next place |
| InverseVectors.GetSmall | contrib/bzip2/bzlib_private.h:488-507 | a step of the small walk gives the same bytes: that of the row stepped to, which stays on the cycle |
| MoveToFront.MtfRoundTrip | contrib/bzip2/compress.c:163-275 | decoding all symbols but the end marker, and then the last run, gives back every column |
| GenerateMtf.GenerateMtfValues | contrib/bzip2/compress.c:164-275 | mtfv holds the move-to-front and run symbols of the sorted block's last column, at most n + 1 of them, and mtfFreq counts them |
| GenerateMtf.CodeColumn | contrib/bzip2/compress.c:193-240 | the arrays end up holding the coder's state for the whole column, written and pending symbols together being no more than the places |
| GenerateMtf.WrittenBehind | contrib/bzip2/compress.c:204-240 | before every place of the column, what is written and what is pending are no more than the places read, so the overlay of mtfv on ptr only overwrites what was read |
| GenerateMtf.MakeMapsE | contrib/bzip2/compress.c:150-159 | unseqToSeq takes each byte in use to its rank |
| GenerateMtf.MakeMapsD | contrib/bzip2/decompress.c:66-76 | seqToUnseq lists the bytes in use by rank |
| MtfWindows.Windows.MoveToFront | contrib/bzip2/decompress.c:456-507 | a move through the sixteen windows, repacking when the buffer's start is reached, is a move in the flat list of 256, and gives the entry moved |
| MtfWindows.Windows.Init | contrib/bzip2/decompress.c:398-409 | the windows begin as the list 0 to 255 |
| HuffmanHeap.UpHeap | contrib/bzip2/huffman.c:73-82 | the heap order is restored by rearranging |
| HuffmanHeap.DownHeap | contrib/bzip2/huffman.c:84-99 | the heap order is restored by rearranging |
| HuffmanHeap.ExtractMin | contrib/bzip2/huffman.c:141-142 | a node of least weight is taken out, and the rest stay in heap order |
| HuffmanOptimal.Optimal | contrib/bzip2/huffman.c:119-163 | given the tree that repeated merging of two lightest nodes builds, no lengths within Kraft's inequality cost less than the depths of its leaves |
| HuffmanGrowth.GrowStep | contrib/bzip2/huffman.c:65-71 | by a Fibonacci bound no merged node comes near a depth that would carry into the weight |
| MakeCodeLengths.ScaledLess | contrib/bzip2/huffman.c:182-186 | unless all weights are small already, rescaling makes their total strictly smaller |
| MakeCodeLengths.MakeCodeLengths | contrib/bzip2/huffman.c:103-188 | passes end, with lengths from 1 to maxLen (17 or more) and a Kraft sum of exactly one; they cost least for the weights of the pass kept, and every pass given up had weights of 6765 or more for which an optimal code is too long; so below 6765 they cost least for max(freq,1) itself |
| MakeCodeLengths.LightUnscaled | contrib/bzip2/huffman.c:160-186 | lengths that are best after scalings none of which was needless are best outright when the weights come to less than 6765 |
| HuffmanCodes.AssignCodes | contrib/bzip2/huffman.c:192-206 | each symbol gets the canonical code of its length |
| HuffmanCodes.CodeFits | contrib/bzip2/huffman.c:192-206 | every code fits its length |
| HuffmanCodes.PrefixFree | contrib/bzip2/huffman.c:192-206 | no symbol's code begins that of another |
| HuffmanCodes.CreateDecodeTables | contrib/bzip2/huffman.c:210-240 | limit and base at every length from 0 to 22, and perm: its front lists the symbols by length and then by number, the rest is as before |
| HuffmanCodes.ReadsBack | contrib/bzip2/decompress.c:126-141 | reading with those vectors takes exactly the bits of a symbol's code and gives the symbol |
| ChooseTables.InitialTables | contrib/bzip2/compress.c:318-357 | the alphabet is cut into parts, one table each, the first part's last; each part ends where it first reaches its equal share of what is left, or in every second part one symbol earlier; every symbol that occurs is cheap in some table |
| ChooseTables.PartNearShare | contrib/bzip2/compress.c:326-357 | a part differs from its equal share by no more than the largest frequency |
| ChooseTables.LanesApart | contrib/bzip2/compress.c:376-430 | two costs added in one 32-bit word stay apart and equal the plain sums |
| ChooseTables.Round | contrib/bzip2/compress.c:394-487 | every selector names the first of the cheapest tables for its fifty symbols, and rfreq counts the symbols of the groups that chose each table |
| ChooseTables.ChooseAll | contrib/bzip2/compress.c:308-502 | two to six tables, at most 18002 selectors; every selector was best for the tables of the last round; every table is complete and optimal for the symbols that chose it, outright if they and the unused symbols come to less than 6765, otherwise after scalings each of which was needed |
| BitIO.BitWriter.W | contrib/bzip2/compress.c:102-122 | up to 24 bits are appended to the bits written, and the buffer stays within its word |
| BitIO.BitWriter.FinishWrite | contrib/bzip2/compress.c:90-98 | all bits written are in the bytes, followed by fewer than eight zeros |
| BitReading.BitReader.GetBits | contrib/bzip2/decompress.c:83-105 | up to 24 bits are taken from the front of those unread and those of the next bytes, or all input is taken and the bits are waited for |
| SendMtf.SendMtfValues | contrib/bzip2/compress.c:283-642 | writes a payload for the given symbols: the used-byte map, the selectors, the lengths and the codes of its symbols, in a form that is well formed |
| SendMtf.PayloadFits | contrib/bzip2/compress.c:505-638 | the bits of any such payload are bounded by its number of symbols |
| BlockFormat.MtfUndone | contrib/bzip2/decompress.c:342-354 | undoing the selectors' move-to-front gives back every list of selectors |
| CompressBlock.SymbolsEncode | contrib/bzip2/compress.c:164-275 | a payload whose symbols were generated from a sorted block decodes to that sort's last column |
| CompressBlock.SendBlock | contrib/bzip2/compress.c:646-696 | writes a block's header and a payload that encodes the block, within the room behind the block |
| RunLength.CharCoded | contrib/bzip2/bzlib.c:305-329 | each byte taken in is accounted for by the block and the pending run, and the block grows by five bytes at most |
| RunLength.RunLengthRoundTrip | contrib/bzip2/bzlib.c:260-329 | expanding what the run-length coder makes gives back every string of bytes, and it is never cut off in a run |
| CompressStream.EState.AddPairToBlock | contrib/bzip2/bzlib.c:260-292 | the run goes into the block, with its bytes marked as used and folded into the check |
| CompressStream.EState.AddCharToBlock | contrib/bzip2/bzlib.c:305-329 | the fast track and the general case do what one step of the run-length coder does |
| Crc.UpdateConcat | contrib/bzip2/bzlib_private.h:201-206 | the check over a string is the same in one go or in two |
| CompressStream.RoomEnough | contrib/bzip2/compress.c:663 | the room behind the longest block holds the bits pending, the stream header, any block, the trailer and its padding |
| CompressStream.EState.CompressBlock | contrib/bzip2/compress.c:646-711 | the block's check is combined, the stream header, the block and the trailer are written as called for, and the finished block is entered into the books |
| CompressStream.EState.CopyInputUntilStop | contrib/bzip2/bzlib.c:333-374 | input moves from the caller to what was taken in, byte for byte, until the block is full or the input ends; the expected count tracks it |
| CompressStream.EState.CopyOutputUntilStop | contrib/bzip2/bzlib.c:378-401 | bytes of zbits are handed out in order until there is no more room or none are left |
| CompressStream.EState.HandleCompress | contrib/bzip2/bzlib.c:405-448 | the loop ends; input taken plus input left is the input; it stops only for want of room or input or when the flush or the stream is over; running or finishing, it does nothing exactly when bytes wait and there is no room, or there is no input and nothing to finish into; otherwise less is left to do |
| CompressStream.EState.BzCompress | contrib/bzip2/bzlib.c:452-509 | in every reachable state input taken is what finished blocks, the block and the pending run stand for, and output is the blocks' bits in order; the two errors are returned exactly for an idle stream, an action or input that does not fit, or a call with nothing it can do, and touch nothing; running ends with no input or no room; a flush or finish that is not done has filled the room and has less left |
| CompressStream.EState.constructor | contrib/bzip2/bzlib.c:200-256 | a new stream is in such a state, with nothing taken or handed out |
| CompressStream.BzCompressInit | contrib/bzip2/bzlib.c:193-256 | exactly parameters out of range are refused |
| ReadBack.MapReads | contrib/bzip2/decompress.c:306-324 | the used-byte map that was written is read back |
| ReadBack.SelectorsRead | contrib/bzip2/decompress.c:326-355 | the selectors that were written are read back |
| ReadBack.TablesRead | contrib/bzip2/decompress.c:356-370 | the code lengths that were written are read back |
| ReadSymbols.SymbolsRead | contrib/bzip2/decompress.c:411-530 | the symbols that were written are read back as the column they were made from |
| ReadBlock.BlockReads | contrib/bzip2/decompress.c:262-540 | a block that was written is read back whole: its column, its check and origPtr |
| DecodeInvariant.NextFine | contrib/bzip2/decompress.c:196-630 | every label leads to another whose wait is for 1 to 20 bits with its tables in shape and as many selectors as were announced, to a block with origPtr inside its column, to the end, or to a data error; the selector lists are unbounded here |
| DecodeInvariant.SelectorRoom | contrib/bzip2/decompress.c:331-355 | the source's two arrays of 18002 selectors are large enough if and only if the stream announces no more than 18002 |
| DecodeInvariant.SelectorsTaken | contrib/bzip2/decompress.c:332-341 | any number of zero bits announced is read as that many selectors |
| DecodeInvariant.SelectorsUnfit | contrib/bzip2/decompress.c:329-341 | the number 18003 and as many zero bits are an input that is not turned away and does not fit those arrays |
| SymbolReading.CreateTables | contrib/bzip2/decompress.c:374-390 | the vectors made for all tables are those the machine reads, and each perm is rewritten at its front only |
| SymbolReading.SymbolReader.Answer | contrib/bzip2/decompress.c:357-518 | reading lengths and symbols through limit, base, perm, the windows and seqToUnseq leads where the machine says |
| UnRunLength.UnRleFast | contrib/bzip2/bzlib.c:638-725 | the block is expanded into the room there is, in order, or to its end; it is found corrupt only if it is cut off in a run |
| UnRunLength.UnRle | contrib/bzip2/bzlib.c:754-847 | the loop written out for the small vector, and for randomised blocks once for each vector, does the same; a randomised block's bits are flipped back as they are fetched |
| Randomising.FlippedTwice | contrib/bzip2/bzlib_private.h:171-183 | flipping a block's bits by the table and flipping them again gives the block |
| Randomising.RandInTable | contrib/bzip2/bzlib_private.h:177-183 | the place in the table of 512 distances stays inside it |
| StreamDecoding.RandomisedBack | contrib/bzip2/decompress.c:569-592 | a randomised block's column, walked and flipped back, is the block whose flipped bytes were sorted |
| UnRunLength.AllPutOut | contrib/bzip2/bzlib.c:580-726 | a block whose end is reached was put out whole and was not cut off in a run |
| DecompressStream.LevelNext | contrib/bzip2/decompress.c:83-105 | one wait answered: whatever input follows, decoding everything so far leads where decoding from here leads |
| DecompressStream.DState.Save | contrib/bzip2/decompress.c:633-660 | what is restored at the next call is every variable as it was left |
| DecompressStream.DState.Decompress | contrib/bzip2/decompress.c:147-661 | however the input is cut up, the label reached, and an error, the end or a block found, are those of decoding all of it at once |
| DecompressStream.DState.BzDecompress | contrib/bzip2/bzlib.c:852-902 | what was put out is what the input so far decodes to; a data error is returned only for input that is wrong whatever follows, the sequence error exactly after the end, and BZ_OK only for want of room or input |
| StreamDecoding.StreamDecodes | contrib/bzip2/bzlib.c:852-902 | the stream of any blocks the encoder made decodes to what they stand for, and every check agrees |
| StreamDecoding.DecodeEncode | contrib/bzip2/bzlib.c:452-509 | once the end of the stream is reported, what was handed out decodes to what was taken in |
| RoundTrip.NeverWrong | contrib/bzip2/bzlib.c:852-902 | no beginning of such a stream is ever found wrong |
| RoundTrip.BeginningDelivered | contrib/bzip2/bzlib.c:852-902 | what was put out at any time is a beginning of what was compressed, whatever pieces came in and went out |
| RoundTrip.NeverStuck | contrib/bzip2/bzlib.c:852-902 | given all of such a stream, the decoder never waits for input |
| RoundTrip.AllDelivered | contrib/bzip2/bzlib.c:852-902 | at its end the decoder has put out all that was compressed |
| RoundTrip.BeginningOut | contrib/bzip2/bzlib.c:852-902 | what was put out of any stream is a beginning of what the stream decodes to, and a shorter one while a block is not finished |
| RoundTrip.CutShort | contrib/bzip2/bzlib.c:852-902 | a decoder that waits for more has read a stream that is cut off |
| BzFile.CompressAll | contrib/bzip2/bzlib.c:452-509 | for every input in any pieces and any room of a byte or more at each call, running and then finishing comes to BZ_STREAM_END, and all that was handed out decodes to the input |
| BzFile.WriteFile.BzWrite | contrib/bzip2/bzlib.c:1008-1049 | the call ends without an error, with all of buf taken in and the file only longer |
| BzFile.WriteFile.BzWriteClose | contrib/bzip2/bzlib.c:1065-1126 | the loop ends with BZ_STREAM_END, and the file decodes to all that was written |
| BzFile.ReadFile.BzRead | contrib/bzip2/bzlib.c:1205-1260 | BZ_OK exactly fills the buffer; BZ_STREAM_END means that the file is a stream and all it stands for has been returned, BZ_UNEXPECTED_EOF that it is cut off, a data error that it is none |
| BzFile.ReadAll | contrib/bzip2/bzlib.c:1205-1260 | reading with any buffers until the stream ends returns all it stands for |
| BzFile.ThereAndBack | contrib/bzip2/bzlib.c:1008-1260 | whatever is written to a file in any pieces is what is read from it in any pieces, through either form of the decoder |
| BzFile.BuffToBuffCompress | contrib/bzip2/bzlib.c:1291-1338 | BZ_OK means that dest decodes to source within destLen; parameters out of range are refused; BZ_SEQUENCE_ERROR is returned exactly for an empty source with no room; otherwise the room is full |
| BzFile.BuffToBuffDecompress | contrib/bzip2/bzlib.c:1343-1392 | BZ_OK is returned exactly if source is a stream that stands for no more than destLen bytes, which are dest; BZ_UNEXPECTED_EOF means that it is cut off, a data error that it is none |
| HistoryRing.FitIsLongest | bld/cmdedit/cmdsave.c:154-160 | making room drops the oldest commands, and no more of them than must go |
| HistoryRing.History.constructor | bld/cmdedit/cmdsave.c:140-151 | a new history holds one empty record, with the place past it |
| HistoryRing.History.SaveByte | bld/cmdedit/cmdsave.c:154-164 | a byte is appended to the record being written; if the ring is full the oldest record goes first |
| HistoryRing.History.SaveIt | bld/cmdedit/cmdsave.c:166-174 | the record is whole in the ring, after the newest of the old ones that leave it room |
| HistoryRing.History.SaveCmd | bld/cmdedit/cmdsave.c:228-250 | the list becomes a suffix of itself and the command, or stays if the command is empty or equals the newest; the place is past the end |
| HistoryRing.History.PrevCmd | bld/cmdedit/cmdsave.c:253-281 | the place moves one back, staying at the first; the command there is given, never the oldest record |
| HistoryRing.History.NextCmd | bld/cmdedit/cmdsave.c:284-311 | the place moves one on, staying past the last; the command there is given, never the oldest record |
| HistoryRing.History.ToFirstCmd | bld/cmdedit/cmdedit.c:35-39 | the loop ends with the place at the first record |
| HistoryRing.History.ToLastCmd | bld/cmdedit/cmdedit.c:42-46 | the loop ends with the place past the last record |
| DecimalPrinter.UInt64.constructor | contrib/bzip2/bzip2.c:341-352 | the eight bytes hold hi32 times 2^32 plus lo32 |
| DecimalPrinter.UInt64.IsZero | contrib/bzip2/bzip2.c:368-376 | true exactly if the number is zero |
| DecimalPrinter.UInt64.Qrm10 | contrib/bzip2/bzip2.c:379-393 | the old number is ten times the new one plus the remainder, below ten |
| DecimalPrinter.NumeralReads | contrib/bzip2/bzip2.c:396-412 | a numeral reads as its number, in decimal digits without a leading zero |
| DecimalPrinter.SixtyFourBits | contrib/bzip2/bzip2.c:396-412 | twenty digits are enough for 64 bits |
| DecimalPrinter.ToAscii | contrib/bzip2/bzip2.c:396-412 | outbuf holds the decimal numeral of the number and a zero byte, and buf is never overrun |

## Left out

- DecompressStream.DState.BzDecompress: what a decoder does if it is called again after it has returned a data error is not modelled.
- DecodeMachine.Symbol: where a stream leads the source to stale entries of perm, or of seqToUnseq past the last byte in use, the machine reads the perm it kept and a zero byte.
- DecodeMachine.RunDigit: run lengths and their weights are unbounded, so the wrap-around of es and N on streams that are wrong is not modelled.
- DecodeMachine.Core: alphaSize, EOB, nextSym, nblockMAX, nblock and the table pointers are computed from the other variables where they are read, so their save fields are not modelled.
- DecompressStream.DState: the column is kept as a list and the selector, length and perm arrays as lists of rows; the vectors tt, ll16 and ll4 are filled when a block is complete, not symbol by symbol.
- CompressStream.EState: the arrays that only serve to sort and code a block are allocated for each block; nothing is required of what is in them. That zbits, mtfv and the sorting arrays lie over one another is stated as room and index bounds: ZbitsRoom, and GenerateMtf.WrittenBehind.
- HistoryRing.History.SaveCmd: takes commands whose length and bytes fit a cell and the ring; the editor's lines are at most 128 bytes long on DOS and 512 on OS/2, so every line is such a command.
- DelCmd, SaveSave, RestSave and ListCommands of the history: stale reads after the last record is deleted, files and the screen.
- Crc.Table: the words of the table are arbitrary; both directions only have to share them.
- Unrolled loops: the four-fold and eight-fold unrolling of scans, costs and output is written as plain loops, except in MtfWindows.Windows.ShiftNear.
- DecodeInvariant.NextFine: the machine keeps its selectors in lists, so what the source does when a stream announces more than its arrays hold is not modelled.
- BzFile.WriteFile.BzWriteClose: abandoning a file, failing file operations, and calls on a file opened the other way are not modelled.
- BZ2_bzopen, BZ2_bzread, BZ2_bzwrite and their kin, the allocation callbacks, verbosity output, total_in and total_out, and the rest of bzip2.c.
- AssertH: the conditions it checks are proved as bounds, `ensures` clauses and assertions where the code relies on them; the report it would print is left out.
