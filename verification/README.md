# Verification of the hard algorithms of a kernel backport tree

A kernel backport tree is mostly glue, but it carries several self-contained algorithms that are hard to get right.
This project models them in Dafny and proves what they are for.  `dafny verify dfyconfig.toml` checks everything.

**The XZ decompressor** (`compat/xz_dec_lzma2.c`, `xz_lzma2.h`, `xz_dec_bcj.c`, `xz_dec_stream.c`, `xz_crc32.c`).

- `RangeBounds`, `RangeCoder`, `LzmaLayout`, `LzmaSymbols`, `LzmaRun`: an LZMA symbol as a path through a decision tree,
  and the amortised bound of 20 input bytes a symbol, whatever the probabilities have become.
- `LzmaModel`, `LzmaLeaves`, `LzmaRoundTrip`, `LzmaEncoding`: what symbols mean, that the code for lengths and distances
  is exact, and that decoding inverts an encoder that works with unbounded integers.  `LzmaFormat` writes the symbol
  code down once more, without decision trees, and shows that the decoder decodes exactly that.
- `RangeDecoder`, `Dictionary`, `LzmaDecoder`, `Lzma2Decoder`: the C structures as classes over arrays.  Every method is
  tied to the machine of `Lzma2Model`, which knows the whole stream and nothing of calls; so however a caller cuts up
  input and output, the decoder stays on one path.  `Lzma2Prefix` says what a beginning of a stream is good for,
  and `Lzma2Source` what the decoder is to the filter behind it.
- `Lzma2Encoding`: every list of chunks the format allows, with every kind of reset, round-trips.
- `BcjX86`, `BcjDecoder`, `BcjRoundTrip`: the x86 filter, in pieces and as a whole, on top of the LZMA2 decoder, and that
  it undoes the encoder of the format.  `BcjLaws` says what it does to instructions.
- `XzCrc32`, `XzFormat`, `XzMachine`, `XzGrammar`, `XzSteps`, `XzHeader`, `XzStream`: the container.  A machine that
  takes one byte at a time accepts exactly the streams of the format (.xz File Format, sections 1.2, 2, 3 and 4), and the
  class `XzDec` is where that machine is, however it was called.  The filters are a parameter there; `XzEndToEnd` puts
  LZMA2 and the x86 filter in, and `XzLzma2` shows that the decoders of both keep the promises made for them.
  `XzReference` has the format byte by byte, apart from the machine, and `CrcPolynomial` what the checksum is.

**The resizable hash table** (`compat/rhashtable.c`): `RhModel` has attaching, moving one entry, inserting, retiring and
reading as interleaved steps, `RhInvariant` what they all keep, `RhReader` the results, `RhWorker` the worker's loops.

**The FQ-CoDel scheduler** (`compat/sch_fq_codel.c`): `FqModel`, `FqFairness` and `FqNewFlows` are about runs of events,
`FqCodel` is the queueing discipline, whose methods append the events they stand for to a ghost trace.

**Concurrent queues**: `LockFreeList` (`include/linux/llist.h`, `compat/compat-3.2.c`), `FifoProtocol`,
`FifoRecords`, `FifoCells` and `Kfifo` (`compat/kfifo.c`, `include/linux/kfifo.h`).

**Single algorithms**: `RadixTree` (`compat/radix-tree.c` with the iterator macros), `SrpPort`, `SrpTiming` and `SrpRport`
(`drivers/scsi/scsi_transport_srp.c`), `Calendar` (`compat/compat-2.6.32.c`).

Where the code and its comments differ, the code is modelled: the comment `pos <= limit` (`compat/xz_dec_lzma2.c:35`)
holds only between `dict_limit` and `dict_flush`, since `dict_uncompressed` moves `pos` and leaves `limit` alone.

What turned out not to hold:

- `rc_direct` does not keep `code < range` (`RangeCoder.DirectReachesRange`; the exact corner is in
  `RangeCoder.CodeBelowRange`).
- Other pairs of operations on a lock-free list than those in the table of `llist.h` do lose their guarantee
  (`LockFreeList.DelAllNeedsLock`, `SecondDeleterNeedsLock`).
- A successful SRP reconnect does not save a port whose device loss timer has already expired
  (`SrpPort.ReconnectedYetLost`; exactly when, in `SrpPort.RunningIsLost`).
- For the same reason I/O may be failed as soon as a port is blocked, and not after fast_io_fail_tmo seconds
  (`SrpTiming.FailsAtOnce`; exactly when, in `SrpTiming.FailsFastEarly`).
- With a reconnect delay above 21474836 seconds an SRP port may stop being retried, because the product with the backoff
  factor wraps: for every longer delay, and for no shorter one (`SrpPort.SafeDelay`; at which step, in
  `SrpPort.RetriesUnlessWrapped`).
- The timers are started from three attributes that are read one after the other while nothing keeps them from being
  written.  The values read need not belong together, and then a port stays blocked for longer than
  SCSI_DEVICE_BLOCK_MAX_TIMEOUT (`SrpPort.TornRead`; exactly when, in `SrpPort.TornDeadline`), or is never retried although
  reconnecting is enabled (`SrpPort.RetryMissed`).
- What the x86 filter leaves behind `out_pos` in the output space is not what was there before: it rewinds over bytes
  that it has written.  So the container's promise about its output is `Memory.Written`, which is silent about them.

## Model

| member | source | states |
|---|---|---|
| RangeBounds.SymbolRoom | compat/xz_dec_lzma2.c:22-28 | from any range the coder can be left in, 20 bytes are room for 22 adaptive and 26 direct decisions |
| RangeCoder.CodeBelowRange | compat/xz_dec_lzma2.c:480-567 | from code < range nothing wraps: rc_bit keeps code < range; rc_direct keeps code <= range, yields the exact bit, and reaches code == range exactly from an odd range with the largest code |
| RangeCoder.DirectReachesRange | compat/xz_dec_lzma2.c:555-567 | a state with code < range after which rc_direct leaves code == range |
| RangeCoder.HalveExact | compat/xz_dec_lzma2.c:555-567 | the sign bit of the wrapped subtraction tells exactly whether code was below half the range, and adding it back restores code |
| RangeCoder.OddsAre | compat/xz_dec_lzma2.c:499-518 | a probability is the part of the range, in 2048ths and rounded down to a multiple of it, that belongs to a zero bit |
| RangeCoder.Learns | compat/xz_dec_lzma2.c:499-518 | after a decision it has moved a 32nd of the way to the bit that was decoded |
| RangeCoder.TakesByte | compat/xz_dec_lzma2.c:480-486 | a byte is taken in exactly when the range is below 2^24 |
| LzmaLayout.StateNamesHistory | compat/xz_lzma2.h:42-96 | for every history of symbol kinds the twelve-state machine is in the state whose name describes that history |
| LzmaLayout.LiteralStates | compat/xz_lzma2.h:93-96 | for every history: lzma_state_is_literal exactly if the latest symbol was a literal, or there was none |
| LzmaFormat.CellsDistinct | compat/xz_dec_lzma2.c:134-219 | every adaptive variable of the format has a cell of the probability arrays of its own |
| LzmaFormat.TreeIsFormat | compat/xz_dec_lzma2.c:574-721 | after any symbols, the decisions asked for each symbol are the ones written down for it from what came before: its bits, their order, and the variable of each; a literal right after a match or repeat by the byte rep0 + 1 back |
| LzmaFormat.DecodesTheFormat | compat/xz_dec_lzma2.c:574-763 | over whole runs of symbols from a reset: the next symbol is o if and only if the decisions taken are those of the format for o after the symbols before |
| LzmaFormat.SymbolMeaning | compat/xz_dec_lzma2.c:648-721 | what each symbol adds, when it is invalid, and that the four latest distances are kept with the one that is used again moved to the front |
| LzmaSymbols.SymbolTreeFits | compat/xz_dec_lzma2.c:574-721 | every symbol takes at most 22 adaptive and 26 direct decisions, all inside the probability tables, with lengths in [2,273] and distances below 2^32 |
| LzmaSymbols.SpecialCells | compat/xz_lzma2.h:154-196 | each distance slot has its own cells of dist_special, in bounds and next to those of the following slot |
| LzmaModel.LiteralCoderRange | compat/xz_dec_lzma2.c:574-580 | the index of a literal coder is below 16 for every accepted property byte |
| LzmaModel.PropsExact | compat/xz_dec_lzma2.c:801-830 | a property byte stands for lc, lp and pb if and only if it is (pb * 5 + lp) * 9 + lc and they are in range |
| LzmaModel.FreshOdds | compat/xz_dec_lzma2.c:769-795 | a fresh variable leaves both bits the same part of the range |
| LzmaRun.SymbolReadsAtMost20 | compat/xz_dec_lzma2.c:22-28 | whatever the probabilities have become, a symbol reads at most 20 bytes, and the normalization after it one more |
| LzmaRun.RunLocal | compat/xz_dec_lzma2.c:480-567 | decoding depends on nothing but the bytes it reads |
| LzmaModel.CopyMatchPeriodic | compat/xz_dec_lzma2.c:343-373 | every byte of a repeat is the one dist + 1 before it, overlapping copies included |
| LzmaModel.CopyMatchResumes | compat/xz_dec_lzma2.c:348-373 | a repeat cut short and resumed gives the bytes of an uninterrupted one |
| LzmaLeaves.DistTreeLeaves | compat/xz_dec_lzma2.c:648-684 | the distances below a slot are exactly those of its interval |
| LzmaLeaves.SlotUnique | compat/xz_lzma2.h:154-196 | no distance belongs to two slots |
| LzmaLeaves.SymbolTreeExact | compat/xz_dec_lzma2.c:574-721 | what can be decoded is exactly the literals, the short repeat, and matches and repeats with lengths 2..273 and 32-bit distances, each along one path only |
| LzmaRoundTrip.TreeRoundTrip | compat/xz_dec_lzma2.c:480-567 | decoding inverts an exact interval encoder, decision by decision, with the same adapted probabilities |
| LzmaEncoding.SymbolsRoundTrip | compat/xz_dec_lzma2.c:724-763 | the same for sequences of symbols: decoder and encoder stay in step, distances and history included |
| LzmaEncoding.EncodedChunkDecodes | compat/xz_dec_lzma2.c:471-477 | every valid sequence of symbols, from any state, has an encoding that decodes to its meaning, is used up exactly and leaves code == 0 |
| RangeDecoder.RangeDec.Bit | compat/xz_dec_lzma2.c:499-518 | takes the decision that the pure decoder takes on the whole input |
| RangeDecoder.RangeDec.BitTree | compat/xz_dec_lzma2.c:521-534 | follows a bit tree to the leaf of the symbol it returns |
| RangeDecoder.RangeDec.BitTreeReverse | compat/xz_dec_lzma2.c:537-552 | the same for a reversed tree |
| RangeDecoder.RangeDec.Direct | compat/xz_dec_lzma2.c:555-567 | the same for bits with even odds |
| RangeDecoder.RoomIsSafe | compat/xz_dec_lzma2.c:22-28 | with room for its decisions no path through a tree reads beyond the input |
| Dictionary.Dict.Get | compat/xz_dec_lzma2.c:322-330 | for every valid distance the ring holds the byte that many back in the unbounded history |
| Dictionary.Dict.Put | compat/xz_dec_lzma2.c:335-341 | appends to the history |
| Dictionary.Dict.Repeat | compat/xz_dec_lzma2.c:348-373 | accepts exactly the distances inside history and dictionary, and appends as much of the LZ77 copy as fits |
| Dictionary.Dict.Flush | compat/xz_dec_lzma2.c:418-433 | hands out exactly the pending bytes, and wraps |
| Dictionary.Dict.Uncompressed | compat/xz_dec_lzma2.c:376-411 | copies the same bytes to history and output, until input, output or the chunk is used up |
| LzmaDecoder.LzmaDec.SetProps | compat/xz_dec_lzma2.c:801-830 | takes a property byte apart exactly if it is acceptable |
| LzmaDecoder.LzmaDec.LzmaMain | compat/xz_dec_lzma2.c:724-763 | performs rounds of the machine until the dictionary limit or the input limit, reads at most 21 bytes past the limit, makes progress, and fails where the machine does |
| Lzma2Model.OneMeaning | compat/xz_dec_lzma2.c:933-1108 | a stream cannot end in two ways, nor both end and fail; whatever is produced on the way is a beginning of the output |
| Lzma2Model.RefusedControls | compat/xz_dec_lzma2.c:940-1016 | exactly which control bytes are refused in which state, and that only 0 ends the stream |
| Lzma2Model.AcceptedControls | compat/xz_dec_lzma2.c:940-1016 | what each accepted control byte resets, keeps and leaves to be brought |
| Lzma2Model.ChunkSizes | compat/xz_dec_lzma2.c:963-1040 | the sizes that the bytes of a chunk header stand for, and what follows the header |
| Lzma2Model.FirstCode | compat/xz_dec_lzma2.c:451-462 | five bytes are taken, and the last four are the code, highest first |
| Lzma2Model.FreshState | compat/xz_dec_lzma2.c:1042-1048 | exactly the acceptable property bytes are taken, and bring a fresh state |
| Lzma2Model.GoodEnds | compat/xz_dec_lzma2.c:1062-1095 | a chunk ends well exactly if its data and its bytes come out even and code is 0 |
| Lzma2Model.DictSizes | compat/xz_dec_lzma2.c:1134-1150 | dictionary sizes are 4 KiB doubled again and again, and one and a half times that |
| Lzma2Decoder.XzDecLzma2.Lzma | compat/xz_dec_lzma2.c:848-927 | every read stays in the buffers; what is done is some steps of the machine, from temp, from the input, or parking the rest; it makes progress unless all input is used up |
| Lzma2Decoder.XzDecLzma2.Run | compat/xz_dec_lzma2.c:933-1108 | over any slicing: bytes taken and bytes given fit the one path of the machine; the end is reported where the machine ends, with everything given out; an error only where the machine fails, and then it can be seen in the bytes offered; otherwise input or output is used up |
| Lzma2Decoder.XzDecLzma2.Finish | compat/xz_dec_lzma2.c:933-1108 | given the rest of a good stream and more room than it needs, one call ends it |
| Lzma2Decoder.XzDecLzma2.Reset | compat/xz_dec_lzma2.c:1134-1169 | which dictionary sizes are accepted, and the fresh state |
| Lzma2Decoder.SlicesAgree | compat/xz_dec_lzma2.c:933-1108 | two decoders of the same stream, called in different ways: what one has given out is a beginning of what the other has, and both of all the output if the stream is good |
| Lzma2Prefix.DecodedGrows | compat/xz_dec_lzma2.c:933-1108 | more bytes of a stream never take back output or a verdict |
| Lzma2Prefix.DecodedStream | compat/xz_dec_lzma2.c:933-1108 | a good stream is complete with its last byte, and any beginning of it only waits |
| Lzma2Prefix.BadWithin | compat/xz_dec_lzma2.c:853-913 | a failure seen in some first bytes is a failure of those bytes, whatever follows |
| Lzma2Encoding.StreamRoundTrip | compat/xz_dec_lzma2.c:938-1108 | every list of stored and compressed chunks with the resets it needs (controls 1, 2, 80, A0, C0, E0) has an encoding that decodes to the data and is used up exactly |
| BcjX86.FilterSlices | compat/xz_dec_bcj.c:90-158 | filtering a piece, and then its unfiltered rest with the next piece, is filtering both at once |
| BcjX86.SecondPass | compat/xz_dec_bcj.c:129-146 | the second conversion of the inner loop inverts the tested byte, so the loop ends |
| BcjLaws.WholeIsReference | compat/xz_dec_bcj.c:90-158 | the filter, for every input, is the one written out by what lies in the three bytes before an opcode and by signed 25-bit addresses |
| BcjLaws.InstructionConverted | compat/xz_dec_bcj.c:104-148 | E8 or E9 with any absolute address within 2^24 becomes the same opcode with the relative one, at every position |
| BcjLaws.NothingConverted | compat/xz_dec_bcj.c:104-112 | bytes among which neither E8 nor E9 occurs stay as they are |
| BcjDecoder.XzDecBcj.X86 | compat/xz_dec_bcj.c:90-158 | in place in a buffer, with the saved mask, it is the filter on values |
| BcjDecoder.XzDecBcj.Apply | compat/xz_dec_bcj.c:347-394 | the same, with the position kept modulo 2^32 |
| BcjDecoder.XzDecBcj.Run | compat/xz_dec_bcj.c:419-527 | on top of xz_dec_lzma2_run, however it is called: what has been given out is the filter applied to what LZMA2 made of the bytes taken, and all of it, unfiltered tail included, at the end; XZ_OK only when input or output is used up; an error only for bytes offered that LZMA2 cannot decode |
| BcjDecoder.XzDecBcj.Reset | compat/xz_dec_bcj.c:529-575 | which filters are accepted, and the fresh state |
| BcjDecoder.EmittedIsPrefix | compat/xz_dec_bcj.c:419-527 | so it is always a beginning of the filter applied once to everything |
| BcjRoundTrip.DecodesToOriginal | compat/xz_dec_bcj.c:90-158 | the filter undoes the x86 encoder, for every input |
| XzCrc32.CrcSlices | compat/xz_crc32.c:54-64 | a checksum computed in slices is that of the whole |
| XzCrc32.ByteAtATime | compat/xz_crc32.c:34-61 | eight single-bit steps are one table look-up |
| CrcPolynomial.ChecksumIs | compat/xz_crc32.c:28-64 | the checksum is the negated remainder of a division of polynomials over two elements by x^32 + x^26 + ... + 1 (the generator of IEEE 802.3), for every message |
| XzCrc32.ChangedByteDetected | compat/xz_crc32.c:54-64 | a single changed byte always changes the checksum |
| XzCrc32.Crc32.Sum | compat/xz_crc32.c:54-64 | the table-driven loop computes the bitwise remainder |
| XzFormat.VliExact | compat/xz_dec_stream.c:176-206 | dec_vli accepts exactly the minimal encodings of at most nine bytes |
| XzFormat.HeaderUnique | compat/xz_dec_stream.c:451-549 | a Block Header has one reading |
| XzMachine.FeedSlices | compat/xz_dec_stream.c:551-709 | the machine's state does not depend on how the input is cut up |
| XzMachine.FeedAdds | compat/xz_dec_stream.c:551-709 | what has been decoded at any point is a beginning of what is decoded in the end |
| XzGrammar.AcceptsStreams | compat/xz_dec_stream.c:551-709 | accepted are exactly Stream Header, Blocks, an Index with as many Records and the same sums modulo 2^64, and a Stream Footer with the size of the Index |
| XzReference.AcceptsFormat | compat/xz_dec_stream.c:177-709 | the accepted inputs, with their contents, are exactly the streams of the format written out byte by byte (magic, flags, CRC32s, multibyte integers, padding, Backward Size), whose Records give, in sum, what the Blocks take up |
| XzReference.BlockBytesIs | compat/xz_dec_stream.c:260-277 | the Unpadded Size that is summed up is the number of the bytes of the Block, check included and padding not |
| XzReference.MultibyteIs | compat/xz_dec_stream.c:176-206 | byte i of a multibyte integer holds the bits from 7 i on |
| XzStream.XzDec.DecVli | compat/xz_dec_stream.c:176-206 | resumable: with the bytes read before, minimal integers below 2^63 are accepted and everything else refused |
| XzStream.XzDec.Crc32Validate | compat/xz_dec_stream.c:348-365 | compares the next bytes with the checksum, over any slicing |
| XzStream.XzDec.DecStreamHeader | compat/xz_dec_stream.c:389-421 | exactly which of the error codes is returned for which Stream Header |
| XzStream.XzDec.DecBlockHeader | compat/xz_dec_stream.c:451-549 | accepts exactly the supported Block Headers, and keeps what they say |
| XzStream.XzDec.DecStreamFooter | compat/xz_dec_stream.c:424-448 | accepts exactly the footer with the right Backward Size and flags |
| XzStream.XzDec.DecMain | compat/xz_dec_stream.c:551-709 | every round of the switch is steps of the machine |
| XzStream.XzDec.Run | compat/xz_dec_stream.c:711-770 | over any slicing the decoder is where the machine is after the bytes taken, with its output; the end where the machine ends; an error only if the machine fails within the bytes offered; XZ_BUF_ERROR only after two calls without progress; otherwise input or output is used up |
| XzStream.XzDec.Finish | compat/xz_dec_stream.c:711-770 | given all the rest of an accepted stream and more room than its contents need, one call ends it, with all of the contents |
| XzStream.XzDec.NotEnded | compat/xz_dec_stream.c:711-770 | a decoder that asks for more is not at the end, and what it has put out is a beginning of the contents |
| XzStream.OneVerdict | compat/xz_dec_stream.c:711-770 | no beginning of an accepted stream is refused or accepted |
| XzEndToEnd.RealSetupIsSane | compat/xz_dec_bcj.c:419-527 | LZMA2 with or without the x86 filter meets what the container theorems assume of filters |
| XzEndToEnd.Supported | compat/xz_dec_bcj.c:529-575 | the filters that a Block may have, by their numbers in the format and the size of the dictionary |
| XzEndToEnd.RoundTrip | compat/xz_dec_stream.c:551-709 | any contents, in Blocks of any LZMA2 chunks, with or without x86 encoding, in a container: the decoder accepts the stream and has the contents |
| XzEndToEnd.AnyContent | compat/xz_dec_stream.c:451-549 | for any contents there is such a Block |
| XzLzma2.Run | compat/xz_dec_stream.c:220-280 | xz_dec_lzma2_run keeps what the container counts on: what it eats and gives, never eating past the end, and errors due to the bytes offered |
| XzLzma2.RunX86 | compat/xz_dec_stream.c:220-280 | so does xz_dec_bcj_run on top of it |
| RhReader.AlwaysExact | compat/rhashtable.c:169-279 | over every interleaving, in which a table may be attached even between choosing the target of a move and locking its bucket, the chain of tables holds exactly what was inserted: once, in its hash bucket, keys unique, nothing behind the rehash cursor |
| RhReader.InsertExact | compat/rhashtable.c:436-582 | an insertion reports EEXIST exactly if its key is present in one of the tables |
| RhReader.LinkExact | compat/rhashtable.c:483-528 | when the object is linked its key is still absent, though a table may have been attached since it was looked up |
| RhReader.NeverMissed | include/linux/rhashtable.h:589-620 | a reader that starts while an object is in the table finds its key before the end of the last table, however moves, inserts, attaches and retirements fall between its steps |
| RhReader.FoundIsRight | include/linux/rhashtable.h:589-620 | over every interleaving: what a reader has found has the key it looks for |
| RhReader.LookupFinds | include/linux/rhashtable.h:589-620 | a reader that is left alone finds an inserted key in finitely many steps, in whatever state a move is |
| RhWorker.Table.RehashOne | compat/rhashtable.c:169-210 | moves the last entry of the bucket to the head of its new bucket, and keeps the invariant |
| RhWorker.Table.RehashChain | compat/rhashtable.c:212-225 | empties the bucket and loses nothing |
| RhWorker.Table.RehashTable | compat/rhashtable.c:250-279 | moves everything and makes the next table the current one |
| FqModel.OkKept | compat/sch_fq_codel.c:173-290 | each event keeps every non-empty flow on exactly one list and every listed deficit in (-maxpkt, quantum] |
| FqFairness.Fifo | compat/sch_fq_codel.c:122-141 | over every run each flow is served in order of arrival, and every packet is gone or still queued |
| FqFairness.DeficitAccounts | compat/sch_fq_codel.c:240-290 | what a flow sends is its refills times the quantum, up to its deficit |
| FqFairness.Fair | compat/sch_fq_codel.c:240-290 | two flows that stay old are refilled equally often up to one, and send the same up to less than 3 quanta and 2 packets |
| FqNewFlows.NewInOrder | compat/sch_fq_codel.c:196-290 | over every run: each turn that ends takes one flow off the front of the new flows, and those that become active are behind; so the flow at place k gets its turn after exactly k turns, whatever arrives |
| FqNewFlows.ArrivesLast | compat/sch_fq_codel.c:173-219 | a flow that becomes active comes behind all new flows with one quantum; one on a list stays there |
| FqNewFlows.WaitsBehind | compat/sch_fq_codel.c:240-290 | over every run: of two new flows the second is not visited before the turn of the first ends |
| FqNewFlows.FirstTurn | compat/sch_fq_codel.c:195-290 | before its first refill a flow that became active sends less than a quantum and a packet |
| FqNewFlows.SparseFlow | compat/sch_fq_codel.c:195-290 | a flow with less than a quantum to send in all is never refilled: its turn ends only when it is empty |
| FqNewFlows.OldNotStarved | compat/sch_fq_codel.c:270-277 | over every run an old flow waits for a bounded number of turns of others, whatever arrives |
| FqCodel.Qdisc.Drop | compat/sch_fq_codel.c:143-171 | hits a flow of maximal backlog |
| FqCodel.Qdisc.Enqueue | compat/sch_fq_codel.c:173-219 | appends to the flow; over the limit one packet of the longest flow goes, and the caller learns whether it was its own flow |
| FqCodel.Qdisc.Dequeue | compat/sch_fq_codel.c:240-290 | terminates; the events it performs; a packet that CoDel lets through, or nothing only if nothing is queued |
| FqCodel.Qdisc.Reset | compat/sch_fq_codel.c:292-298 | terminates with everything empty |
| FqCodel.Qdisc.Trim | compat/sch_fq_codel.c:359-367 | terminates within the new limit |
| LockFreeList.Linearizable | compat/compat-3.2.c:41-90 | in the allowed pairs, over every run and with nodes reused: the list and all that was handed out, in order, are those of a stack changed in one step at each successful cmpxchg or xchg |
| LockFreeList.ExactlyOnce | include/linux/llist.h:43-66 | every node added was delivered exactly once or is linked, newest first |
| LockFreeList.ReturnValues | include/linux/llist.h:213-241 | llist_add tells exactly whether the list was empty |
| LockFreeList.DelAllNeedsLock | include/linux/llist.h:43-66 | a run from the empty list, of llist_del_all beside llist_del_first, that links a node again that was delivered |
| LockFreeList.SecondDeleterNeedsLock | include/linux/llist.h:43-66 | the same for two users of llist_del_first |
| FifoProtocol.Lossless | include/linux/kfifo.h:47-55 | over every interleaving of one reader and one writer, with indices wrapped any number of times, what was read is what was written, the rest is in the buffer, and its length never exceeds the size |
| FifoRecords.WholeRecords | include/linux/kfifo.h:47-55 | over every interleaving of one reader and one writer of records: the reader takes the records in order, and what it sees in front is the next one, whole and with its length |
| FifoRecords.LengthComesBack | compat/kfifo.c:423-456 | a record comes back with its length exactly if that fits the length field, which __kfifo_in_r does not check |
| Kfifo.Fifo.constructor | compat/kfifo.c:84-108 | an empty fifo, whose number of cells is the largest power of two that there is room for |
| Kfifo.Fifo.In | compat/kfifo.c:132-144 | for elements of any size: appends as many as there is room for |
| Kfifo.Fifo.Out | compat/kfifo.c:187-193 | takes the oldest elements |
| Kfifo.Fifo.OutPeek | compat/kfifo.c:172-183 | shows the oldest elements and keeps them |
| Kfifo.Fifo.InR | compat/kfifo.c:464-475 | a whole record with its length, or nothing; so records stay records |
| Kfifo.Fifo.OutR | compat/kfifo.c:504-515 | takes the first record, whatever was in it, and copies what fits |
| Kfifo.Fifo.OutPeekR | compat/kfifo.c:491-500 | copies what fits of the first record |
| Kfifo.Fifo.SkipR | compat/kfifo.c:519-525 | drops exactly the first record |
| RadixTree.RadixTreeIter.NextChunk | compat/radix-tree.c:67-172 | finds the least index with an item from next_index on, or NULL exactly if there is none or the word was left; the restarts end |
| RadixTree.FindItem | compat/radix-tree.c:102-151 | the restart loop: the least index with an item, for every height and every pattern of holes |
| RadixTree.RadixTreeIter.NextSlot | include/linux/radix-tree.h:46-76 | the next item of the chunk, or its end |
| RadixTree.ForEachSlot | include/linux/radix-tree.h:83-86 | the loop visits every item from start on, once, in order |
| RadixTree.PastHole | compat/radix-tree.c:124-135 | the index computed past a hole skips no item, and is 0 exactly if the word is left |
| SrpPort.BlockedIsReleased | drivers/scsi/scsi_transport_srp.c:418-521 | over every interleaving, while the mutex is free the target is blocked exactly in BLOCKED, and then a timer that ends it is queued, to be started by the deadline, or its handler waits for the mutex |
| SrpPort.BlockedInTime | drivers/scsi/scsi_transport_srp.c:418-521 | if no attribute is written while they are read, the deadline is at most 600 seconds after the timers were started |
| SrpPort.TornDeadline | drivers/scsi/scsi_transport_srp.c:489-521 | whatever was read, it is, unless fast_io_fail_tmo was read as off and dev_loss_tmo as more than 600, exactly |
| SrpPort.TornRead | drivers/scsi/scsi_transport_srp.c:489-521 | a run in which two good combinations are read as a bad one, and the port stays blocked for 10000 seconds |
| SrpPort.WayOut | drivers/scsi/scsi_transport_srp.c:448-487 | after the deadline two steps are enough to leave BLOCKED |
| SrpPort.LostForever | drivers/scsi/scsi_transport_srp.c:352-392 | LOST is final |
| SrpPort.StoppedIsQuiet | drivers/scsi/scsi_transport_srp.c:841-852 | after srp_stop_rport_timers nothing is queued or running, nor ever will be |
| SrpPort.RunningIsLost | drivers/scsi/scsi_transport_srp.c:467-487 | a running port is lost, other than by the stop, exactly by the waiting handler of an earlier device loss timer |
| SrpPort.ReconnectedYetLost | drivers/scsi/scsi_transport_srp.c:467-487 | a run in which that happens right after a successful reconnect |
| SrpPort.AlwaysRetries | drivers/scsi/scsi_transport_srp.c:398-416 | a failed port with reconnecting enabled always has an attempt on its way, if no delay exceeds 21474836 and no attribute is written while the timeouts are read |
| SrpPort.RetryMissed | drivers/scsi/scsi_transport_srp.c:240-267 | a run in which reconnecting is enabled between the reads of the timeouts, and nobody queues an attempt |
| SrpPort.RetriesUnlessWrapped | drivers/scsi/scsi_transport_srp.c:398-416 | the one way to lose it is a failed attempt after which the next delay wraps, exactly |
| SrpPort.RetriesCanEnd | drivers/scsi/scsi_transport_srp.c:398-416 | for every longer delay, a run of failures after which the port is not retried |
| SrpPort.SafeDelay | drivers/scsi/scsi_transport_srp.c:398-416 | so a delay is safe if and only if it is at most 21474836 |
| SrpTiming.AlwaysOnTime | drivers/scsi/scsi_transport_srp.c:489-521 | over every run: a queued fast fail or device loss timer is due exactly the timeout that was read after it was started; while the port is blocked each timer that is not switched off is queued or its handler waits, and the fast fail timer is due at the deadline |
| SrpTiming.FailsFastEarly | drivers/scsi/scsi_transport_srp.c:448-461 | over every run: I/O is failed before that time exactly if the handler of an earlier timer already waited when the port was blocked |
| SrpTiming.FailsAtOnce | drivers/scsi/scsi_transport_srp.c:448-461 | a run in which that happens: a port is blocked with 15 seconds to go, and fails its I/O at once |
| SrpTiming.AttemptsOnTime | drivers/scsi/scsi_transport_srp.c:398-416 | over every run: an attempt to reconnect is queued exactly if it was asked for and neither begun nor called off, and due after the delay that held then, the first after reconnect_delay and the later ones by the backoff; failures count from the last success |
| SrpTiming.AfterSuccess | drivers/scsi/scsi_transport_srp.c:576-581 | after a success the port runs, both failure timers are off and the failures forgotten |
| SrpTiming.StateChanges | drivers/scsi/scsi_transport_srp.c:352-392 | which steps change the state, from what to what |
| SrpTiming.GoodTimeouts | drivers/scsi/scsi_transport_srp.c:86-122 | the combinations of timeouts that srp_tmo_valid accepts |
| SrpRport.SrpRport.SetState | drivers/scsi/scsi_transport_srp.c:352-392 | which changes of state are refused |
| SrpRport.SrpRport.FastIoFailTimedOut | drivers/scsi/scsi_transport_srp.c:448-461 | is the step of that name |
| SrpRport.SrpRport.DevLossTimedOut | drivers/scsi/scsi_transport_srp.c:467-487 | is the step of that name, and the change to LOST never fails |
| SrpRport.SrpRport.StartTlFailTimers | drivers/scsi/scsi_transport_srp.c:489-521 | is the steps of that name |
| SrpRport.SrpRport.MarkStopped | drivers/scsi/scsi_transport_srp.c:841-847 | is the step of that name: the port is lost before the timers are cancelled |
| SrpRport.SrpRport.ReconnectRport | drivers/scsi/scsi_transport_srp.c:560-633 | is the steps of that name for either result of the callback, keeps the invariant, and leaves the target blocked exactly in BLOCKED |
| Calendar.TimeToTm | compat/compat-2.6.32.c:167-216 | for every 64-bit second count and every offset: terminates, never leaves the 64-bit range, and yields a date that exists, with the right day of year and week, exactly that many seconds from 1970 |
| Calendar.Nearer | compat/compat-2.6.32.c:194-203 | a corrected guess of the year is strictly nearer |
| Calendar.DaysBetween | compat/compat-2.6.32.c:138-145 | leaps_between agrees with counting leap years, in both directions |
| Calendar.OrderKept | compat/compat-2.6.32.c:167-216 | later dates have larger second counts |
| Calendar.OneTm | compat/compat-2.6.32.c:167-216 | so the broken-down time of a second count is unique |
| Calendar.MonthRule | compat/compat-2.6.32.c:147-153 | the table of month lengths agrees with the rule for them |
| Calendar.FourCenturies | compat/compat-2.6.32.c:126-145 | the calendar repeats after 146097 days |
| Calendar.Moment | compat/compat-2.6.32.c:167-216 | the second count of every date by the closed formula, 1 January 1970 being a Thursday |

## Left out

- XZ single-call mode: `xz_dec_run` and `xz_dec_lzma2_run` are modelled in multi-call mode; `BcjDecoder` keeps the flag, but a single call that does not reach the end is not resumed.
- XZ_DYNALLOC: the dictionary is allocated at once (XZ_PREALLOC); a larger dictionary is refused.
- The other BCJ filters (PowerPC, IA-64, ARM, ARM-Thumb, SPARC): x86 is the only one that keeps state between calls.
- BcjDecoder.XzDecBcj.Run: what is in the output space after an error is not specified.  For the call that decodes into `temp`, a second buffer object takes the place of the one whose output fields the source exchanges for the time of the call.
- XzStream.XzDec.Run: the class calls the filters through `XzStream.Unpacker`, whose contract `XzLzma2.Run` and `XzLzma2.RunX86` prove of the two decoders; the three classes are not joined in one object.
- XzStream.XzDec.DecBlockHeader: which of the error codes is returned for a bad header is not specified, nor which one `xz_dec_run` passes on; only `DecStreamHeader` and the reset functions say.
- XzStream.XzDec.Run: its 64-bit counters are taken not to overflow, as the source argues (compat/xz_dec_stream.c:208-214), except the sums that are compared modulo 2^64.
- Lzma2Decoder.XzDecLzma2.Run: XZ_OK may leave output space unused when the ring of the dictionary wraps and the input is used up; that everything the input determines is in the output then is not claimed.
- Check types other than none and CRC32: the decoder refuses them, as it does without XZ_DEC_ANY_CHECK.
- rhashtable: removal, shrinking, lists of duplicates, the arrays of bucket locks and walker lists; a grace period is "no reader is in the old table"; hash functions and the resize tests are parameters.
- FqCodel: the control law of `codel_dequeue` and the classifier are parameters; 32-bit wrap-around of backlogs and the statistics of code outside the file are not modelled; packet lengths and the quantum are positive.
- Memory ordering below sequential consistency, in all of the concurrent models.
- Kfifo: the forms that copy to user space or set up DMA; `__kfifo_init` is refused less than two elements, where the source returns -EINVAL; `FifoRecords.WholeRecords` is about records that fit the length field.
- FifoProtocol.Lossless: elements are read and written one by one, but each of them in one step.
- RadixTree: tagged and contiguous iteration, trees that change under the iterator (so the restart after a NULL child does not occur), and RADIX_TREE_MAP_SHIFT other than 6.
- SrpPort: reading a timeout and writing an attribute are single steps, so that the stored parameters, but not those read, always form a checked combination; writes stop before `srp_stop_rport_timers` as its caller promises; overflow of the timeouts when multiplied by HZ; what the low-level driver does in its callbacks.
- Calendar: the address-list functions of the same file.
- Version shims, configuration headers, bitmaps, netlink, LED and PCI glue: no algorithm, or only easy members.
