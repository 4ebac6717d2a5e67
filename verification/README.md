# MusicPack codec: a verified model

A Dafny model of the lossless layer of the Musepack SV8 codec, of the demuxer and player around it, of the browser's
demand reader, and of the numeric kernels that have a theorem, with proofs of what each of them promises.
`dafny verify dfyconfig.toml` checks it all.

The files build on one another:

| files | what they model |
|---|---|
| `BitStrings`, `BitWriter`, `BitReader` | strings of bits, the 32-bit bit packer, and the reader that walks backwards from its field |
| `Integers`, `Sizes`, `Golomb`, `CnkTables`, `Enumerative` | truncated binary, self-sized numbers and block headers, Golomb codes, the real binomial tables and the enumerative coder on them |
| `CanonicalHuffman`, `Codebooks` | lookup tables and scan, plain and canonical; encoder table and decoder table tied into a book |
| `Sv8Samples`, `Sv8Header`, `Sv8Scf`, `Sv8Frame`, `Sv8Memory`, `Sv8Stream`, `Sv8Blocks` | the frame as a specification on bit strings, both directions, the two sides' memories, runs of frames, blocks |
| `Sv8Encoder`, `Sv8FrameEncoder`, `Sv8StreamEncoder` | the writer as it is, loops and fields, proved to write the specification; the record of a whole encode |
| `Sv8Decoder`, `Sv8FrameDecoder`, `Sv8DecoderState` | the parser as it is, proved to compute the specification |
| `SeekTable`, `Demux` | the stored seek table, and the compacting window over a reader that may read short, fail, and refuse to seek |
| `SeekIndex`, `Seeker` | where the blocks of a stream lie and what an index entry stands for; the demuxer that decodes frames, grows its index, and seeks all or nothing |
| `Requant`, `Synthesis`, `Signal` | subband samples of a frame, the synthesis history, and the signal of a whole stream |
| `SeekLayout` | the encoder's files as streams the demuxer can work on |
| `Programme`, `Delivery` | the frames of a stream by number, and the player over demuxer, decoder and filter, which leaves synthesis out where it cannot be heard |
| `Mailbox` | the two workers of the browser reader, one atomic access a step |
| `Kraft`, `HuffmanTree`, `HuffmanCodes`, `CanonicalCodes`, `BuiltBooks` | Huffman construction: optimal lengths, canonical codes, and books made of them |
| `Levinson`, `Crc32`, `StreamHeader`, `HeaderGuard`, `CrcValues` | the LPC recursion, the check of the header block, the header, what damage its test finds, and the check in numbers |
| `BitReversal`, `Fft` | the reordering before the transform, and the transform over any arithmetic, in place |
| `FftLanes`, `FftFour` | four lanes at once, as values and on the interleaved array |
| `Dft`, `Fourier`, `FourierTables` | the discrete Fourier sum, the proof that the transform computes it, and the tables it takes |

Encoder, decoder, demuxer, player, readers and table builders change state step by step in the source; they are classes
and loops here, each proved against a specification function, and the theorems are about those functions. The source's
arithmetic on 32-bit registers is written out where it wraps (`ShlOr`, the mask register, the complement of a mask, the
rounded table size); elsewhere the contracts bound the values.

What the proofs found out about the code:

- `mpc_demux_seek` lands one byte late when it serves the seek from the window, the reader stands at the end of a byte
  (`count == 0`), and the fill that follows has to move the window: the fill then steps over the byte it believes to be
  used up. `Demuxing.Demux.Seek` states the position in both cases, and `Demuxing.LateHappens` drives a demuxer into
  the late one.
- A seek by sample does this when it comes to a block header near the end of a full window, for it repositions right
  after reading a header; it then reads that header a byte late and goes on from what it found. `Seeking.Seeker.SeekSample`
  gives the exact condition, computed from the lengths of the blocks and from where the window stands
  (`SeekIndexing.LateScan`): without a late step a seek that succeeds leads to the right place. A scan over blocks of
  eleven bytes and more that begins outside the window is never late (`SeekIndexing.LongInTime`); one over blocks of four
  bytes is, after 15294 of them (`SeekIndexing.ScanGoesLate`).
- The seek table survives exactly when all second differences are below 2^30 in magnitude (`SeekTables.SeekTableExact`;
  `SeekTables.LargeLost` is a table that does not).
- With decimation, a table of more entries than the length of the stream calls for can be refused although a longer one
  is accepted (`SeekTables.SeekTableRoundTrip` gives the exact condition, `SeekTables.DecimatedRefused` an instance). The
  encoder writes no such table (`SeekTables.WriterFits`).
- The SV8 header does not survive for an odd block power, of which the format keeps only the half
  (`StreamHeader.HeaderExact`, `StreamHeader.OddPowerLost`). The encoder program passes even ones only; it takes a caller
  of the encoder library to write such a header.
- The check of the header alone misses some changes within four consecutive bytes, when they straddle check and content
  (`HeaderGuard.MissedHappens`; `HeaderGuard.AcceptsExactly` says which changes it misses). The version test that follows
  it finds all of those (`HeaderGuard.HeaderBurst`).
- The lookup table of the band-count code is never filled; decoding is right nevertheless
  (`CanonicalHuffman.UnfilledLutAgrees`).
- The network worker accepts a 206 that is shorter than the range it asked for; if such a body ends before the position
  wanted, the length it reports is negative: the reader moves back by it, and what it hands over is the whole data region
  but for that many bytes (`Mailbox.ShortBody`, `Mailbox.ShortHappens`, `Mailbox.Safety`).
- `cft1st` tests its block loop at the end, so that a transform of length 16 changes the 16 values behind it
  (`Fft.Cft1st`, `FftLanes.Overrun`); the encoder only transforms 256, 1024 and 2048 values.
- Past the length of the stream, decoding again in a block that is still open counts that block down; when the count runs
  out with more than seven bits left, or at a block boundary that is not followed by the end block, it may report an error
  instead of the end (`Seeking.Seeker.Spent`, `Seeking.Seeker.DecodeFrame`).
- The table row of the enumerative coder that lists one value too few leaves that entry zero; the code stays decodable
  (`CnkTables.CodeIsRoomy`).

## Model

| member | source | states |
|---|---|---|
| `BitWriting.BitWriter.WriteBits` | codec/libmpcenc/libmpcenc.h:135-148 | appends exactly the `bits` low bits of the value to everything written so far, at any fill of the 32-bit register, through the split and the flush; bytes in the buffer and pending bits together are the string written |
| `BitWriting.BitWriter.EmptyBits` | codec/libmpcenc/bitstream.c:52-59 | moving whole bytes out of the register loses and reorders nothing; fewer than eight bits stay pending |
| `BitReading.FieldReads` | codec/libmpcdec/mpc_bits_reader.h:64-79 | the two-, three- and five-byte reads, shifted and masked, are the field of the byte string at any alignment |
| `BitReading.BitReader.Read` | codec/libmpcdec/mpc_bits_reader.h:64-79 | returns the next `nb` bits (up to 31) at any alignment and leaves exactly the rest |
| `BitReading.BitReader.Align` | codec/libmpcdec/mpc_demux.c:847 | dropping the bits left in the current byte puts the reader on the next byte boundary |
| `Integers.TruncRoundTrip` | codec/libmpcenc/bitstream.c:110-113 | truncated binary inverts for every table entry with `lost <= 2^(len-1)`, consuming exactly the bits written |
| `Integers.LogRoundTrip` | codec/libmpcenc/bitstream.c:116-122 | `encodeLog` then `mpc_bits_log_dec` is the identity on 0..max, for every max up to 32, consuming exactly the bits written |
| `Integers.EncodeLog` | codec/libmpcenc/bitstream.c:116-122 | the writer appends exactly the specified bits |
| `Integers.LogDecode` | codec/libmpcdec/mpc_bits_reader.c:83-93 | the reader returns what the specification parses and leaves the rest |
| `Sizes.SearchLen` | codec/libmpcenc/bitstream.c:63-70 | the search loop stops at the least length that holds the size, in both modes: the self-inclusive length is the minimal fixpoint |
| `Sizes.SizeRoundTrip` | codec/libmpcenc/bitstream.c:61-79 | the size code decodes to the size (plus its own length in self-inclusive mode) and that length, with the rest untouched |
| `Sizes.EncodeSize` | codec/libmpcenc/bitstream.c:61-79 | fills the buffer from the back with exactly that code and touches no byte beyond it |
| `Sizes.GetSize` | codec/libmpcdec/mpc_bits_reader.c:95-109 | reads it back, with the number of bytes read |
| `Sizes.BlockRoundTrip` | codec/libmpcenc/bitstream.c:152-154 | key and self-inclusive length parse to the payload size `writeBlock` framed, and the header length |
| `Sizes.GetBlock` | codec/libmpcdec/mpc_bits_reader.c:111-125 | reads key and payload size; a size smaller than the header itself is left as it is |
| `Golomb.GolombRoundTrip` | codec/libmpcenc/bitstream.c:81-92 | prefix of zeros, stop bit and suffix decode to the number, for every k, consuming exactly the bits written |
| `Golomb.EncodeGolomb` | codec/libmpcenc/bitstream.c:81-92 | the writer, in runs of at most 31 zeros, appends exactly that code |
| `Golomb.UnarySkip` | codec/libmpcdec/mpc_bits_reader.c:59-70 | skipping a run of zeros at once and one bit at a time count the same prefix |
| `Golomb.GolombDecode` | codec/libmpcdec/mpc_bits_reader.c:54-81 | the byte-skipping decoder returns the specified number at any alignment and leaves the rest |
| `CnkTables.CnkIsChoose` | codec/common/cnk_tables.h:45-63 | each of the 512 stored entries of the first table is the binomial coefficient it stands for |
| `CnkTables.CodeIsRoomy` | codec/common/cnk_tables.h:65-103 | for every 1 <= k <= 16 and k < n <= 32 the length and `lost` entries give a code without a word too many: `2^(len-1) < C(n,k)` and `lost + C(n,k) == 2^len`; only for k = 16, n = 32, whose entry the list leaves out, is `lost` zero and every word 30 bits long |
| `Enumerative.RankBound` | codec/libmpcenc/bitstream.c:94-106 | the rank of a mask with k of n bits set is below C(n,k) |
| `Enumerative.UnrankRank` | codec/libmpcdec/mpc_bits_reader.h:155-165 | greedy decoding inverts the rank for every mask |
| `Enumerative.RankUnrank` | codec/libmpcdec/mpc_bits_reader.h:155-165 | and the rank inverts greedy decoding for every code below C(n,k): exactly k bits are set |
| `Enumerative.EnumRoundTrip` | codec/libmpcenc/bitstream.c:94-114 | an enumerated mask reads back, consuming exactly the bits written |
| `Enumerative.EncodeEnum` | codec/libmpcenc/bitstream.c:94-114 | the loop over the low N bits of the register appends exactly that code, nothing for an empty mask |
| `Enumerative.UnrankLoop` | codec/libmpcdec/mpc_bits_reader.h:146-165 | the decode loop stops with exactly the k bits of the specification placed and never runs below bit 0 |
| `Enumerative.EnumDecode` | codec/libmpcdec/mpc_bits_reader.h:144-166 | reads a mask back from any alignment |
| `CanonicalHuffman.PlainLutAgrees` | codec/libmpcdec/huffman.c:277-299 | through a filled table every 16-bit window decodes as by the linear scan, at any depth |
| `CanonicalHuffman.CanLutAgrees` | codec/libmpcdec/huffman.c:301-331 | the same for canonical tables, on length and symbol, with the 8-bit wrap of the symbol index |
| `CanonicalHuffman.UnfilledLutAgrees` | codec/libmpcdec/huffman.c:333-356 | a table left all zeros (as that of the band-count code is) only loses the short cut |
| `CanonicalHuffman.HuffFillLut` | codec/libmpcdec/huffman.c:277-299 | the fill loop with its running index leaves in every slot what the agreement needs |
| `CanonicalHuffman.CanFillLut` | codec/libmpcdec/huffman.c:301-331 | the same for the canonical fill loop |
| `Codebooks.CanDecode` | codec/libmpcdec/mpc_bits_reader.h:96-117 | looks at 16 bits at any alignment, returns the scan's symbol and consumes its length |
| `Codebooks.PrefixFree` | codec/libmpcenc/encode_sv7.c:187 | in a valid book no two encoder words begin the same stream |
| `Codebooks.BookRoundTrip` | codec/libmpcenc/encode_sv7.c:187 | the word of encoder index i decodes to i, with the rest untouched |
| `Codebooks.BookTotal` | codec/libmpcdec/mpc_bits_reader.h:96-117 | on sixteen bits something always decodes |
| `Codebooks.BookRead` | codec/libmpcdec/mpc_bits_reader.h:96-117 | the table-driven decoder returns the symbol of the index whose word comes next |
| `Sv8Samples.MaskRoundTrip` | codec/libmpcenc/encode_sv7.c:341-345 | a mask given its count of ones is recovered whether it or its complement was enumerated, with counts 0 and all written as nothing |
| `Sv8Samples.HalfRoundTrip` | codec/libmpcenc/encode_sv7.c:327-347 | 18 samples of resolution 1: count, mask and sign bits give the samples back |
| `Sv8Samples.GroupRoundTrip` | codec/libmpcenc/encode_sv7.c:353 | packing samples into one index and unpacking it is the shift by the decoder's origin, for the 3-, 2- and 1-sample groups |
| `Sv8Samples.GroupsRoundTrip` | codec/libmpcenc/encode_sv7.c:348-381 | resolutions 2 to 8: the run of groups decodes although the book of each is chosen by an adaptive context, which encoder and decoder derive from different origins |
| `Sv8Samples.SidesAgree` | codec/libmpcdec/mpc_decoder.c:652-710 | the encoder's and the decoder's own thresholds, choice of code and running context agree, for every context and group |
| `Sv8Samples.Q2VarIs` | codec/libmpcenc/encode_sv7.c:317-318 | the 125 entries of `HuffQ2_var` are the distances of the three samples from the middle, added up |
| `Sv8Samples.StepsAre` | codec/libmpcdec/requant.c:67-71 | the quantisers have 3, 5, 7 and 9 steps, and from resolution 5 on one less than a power of two |
| `Sv8Samples.TripleWords` | codec/libmpcenc/encode_sv7.c:348-359 | resolution 2, word by word: three samples in one, the second code above context 3, first context 6, and the next context in numbers |
| `Sv8Samples.CoupleWords` | codec/libmpcenc/encode_sv7.c:360-367 | resolutions 3 and 4: two samples in a word, `q + 7 * q` and `q + 9 * q`, no context |
| `Sv8Samples.SingleWords` | codec/libmpcenc/encode_sv7.c:368-381 | resolutions 5 to 8: the second code above contexts 1, 3, 4 and 8, first contexts 2, 6, 8 and 16, and the next context in numbers |
| `Sv8Samples.PlainRoundTrip` | codec/libmpcenc/encode_sv7.c:382-389 | resolutions 9 to 15: Huffman-coded high byte and plain low bits |
| `Sv8Samples.SampleRoundTrip` | codec/libmpcenc/encode_sv7.c:313-394 | every band of every resolution decodes to its samples; noise bands and empty bands write and read nothing |
| `Sv8Header.BandsRoundTrip` | codec/libmpcenc/encode_sv7.c:179-188 | the band count, plain at a key frame and modulo 33 against the last one otherwise |
| `Sv8Header.ResPairRoundTrip` | codec/libmpcenc/encode_sv7.c:201-209 | resolutions of a band, modulo 17 against the band above, book chosen by it |
| `Sv8Header.ResWords` | codec/libmpcenc/encode_sv7.c:201-209 | the two words of a band in numbers: the change modulo 17, in the second code where the band above has a resolution above 2 |
| `Sv8Header.ResRoundTrip` | codec/libmpcenc/encode_sv7.c:192-209 | all resolutions of both channels, from the top band down |
| `Sv8Header.MsRoundTrip` | codec/libmpcenc/encode_sv7.c:211-225 | the mid/side flags of the coded bands as one mask |
| `Sv8Header.SpreadMask` | codec/libmpcdec/mpc_decoder.c:584-588 | the decoder, shifting the mask out from the top band, gives every coded band its own flag and leaves the others |
| `Sv8Scf.ScfiRoundTrip` | codec/libmpcenc/encode_sv7.c:235-249 | which of the three scalefactors repeat, one or two channels in a word |
| `Sv8Scf.DeltaRoundTrip` | codec/libmpcenc/encode_sv7.c:261 | differences modulo 128 invert on the scalefactor range, and a nonzero difference never has code 31, so that code is free to be the escape |
| `Sv8Scf.EscapedRoundTrip` | codec/libmpcenc/encode_sv7.c:269-278 | codes above 63 go through the escape and come back |
| `Sv8Scf.TripleRoundTrip` | codec/libmpcenc/encode_sv7.c:254-281 | the three scalefactors of a band come back, plain or relative, repeated ones for free |
| `Sv8Scf.ChanRoundTrip` | codec/libmpcenc/encode_sv7.c:254-281 | a band without samples writes none and keeps the old ones |
| `Sv8Frame.AllScfiRoundTrip` | codec/libmpcenc/encode_sv7.c:237-249 | all bands |
| `Sv8Frame.AllScfRoundTrip` | codec/libmpcenc/encode_sv7.c:253-310 | all bands, with each side's own memory of last scalefactors and key flags, given that the memories agree |
| `Sv8Frame.AllSampleRoundTrip` | codec/libmpcenc/encode_sv7.c:313-394 | all bands of both channels in the order written |
| `Sv8Memory.KeyedSync` | codec/libmpcenc/encode_sv7.c:230-233 | a key frame brings any decoder memory into step with any encoder memory |
| `Sv8Memory.FrameRoundTrip` | codec/libmpcenc/encode_sv7.c:164-394 | decoding what one frame wrote yields exactly the specified decoder state and the rest of the stream, for a key frame from any memory, otherwise from a memory in step |
| `Sv8Stream.AfterRecovers` | codec/libmpcdec/mpc_decoder.c:542-723 | that state holds the frame: every resolution up to the last band, the scalefactors of coded bands, the flags of coded bands and the samples of quantised bands |
| `Sv8Stream.FrameKeepsSync` | codec/libmpcdec/mpc_decoder.c:542-723 | and leaves encoder and decoder memories in step for the next frame (band count, last scalefactors, key flags) |
| `Sv8Stream.RunRoundTrip` | codec/libmpcenc/encode_sv7.c:164-405 | for every run of frames, decoding recovers each of them and consumes exactly the bits written |
| `Sv8Blocks.PayloadBits` | codec/libmpcenc/bitstream.c:139-140 | padding a block to bytes adds fewer than eight zero bits and nothing else |
| `Sv8Blocks.SkipExtras` | codec/libmpcdec/mpc_demux.c:852-866 | other blocks before an audio block are passed over |
| `Sv8Blocks.NextAudioCases` | codec/libmpcdec/mpc_demux.c:852-866 | what a block in front of the demuxer leads to, in numbers: `AP` is entered, `SE`, a key that is not two capital letters and more than 61173 bytes stop it, the rest is passed over |
| `Sv8Blocks.TooLong` | codec/libmpcdec/mpc_demux.c:867-868 | an audio block is entered unless it is longer than an eighth of the largest 32-bit number |
| `Sv8Blocks.KeyFirst` | codec/libmpcenc/bitstream.c:155-160 | a block that is written begins with its key, an audio block with the letters A and P |
| `Sv8Blocks.StreamRoundTrip` | codec/libmpcenc/encode_sv7.c:396-404 | for every stream of blocks, with other blocks between, a short last block, and any decoder memory at its start, decoding recovers every frame |
| `Sv8Blocks.JoinAtBlock` | codec/libmpcenc/encode_sv7.c:396-404 | and from the byte offset of any block on it recovers every later frame, whatever the decoder remembers |
| `Sv8Encoding.WriteHalf` | codec/libmpcenc/encode_sv7.c:329-346 | appends exactly the specified bits, with the 32-bit mask register as in the source |
| `Sv8Encoding.WriteGroups` | codec/libmpcenc/encode_sv7.c:348-381 | appends exactly the specified bits |
| `Sv8Encoding.WritePlain` | codec/libmpcenc/encode_sv7.c:382-389 | appends exactly the specified bits |
| `Sv8Encoding.WriteResolutions` | codec/libmpcenc/encode_sv7.c:192-209 | appends exactly the specified bits |
| `Sv8Encoding.WriteMs` | codec/libmpcenc/encode_sv7.c:211-225 | appends exactly the specified bits |
| `Sv8Encoding.WriteTriple` | codec/libmpcenc/encode_sv7.c:254-281 | appends exactly the specified bits |
| `Sv8FrameEncoding.CountBands` | codec/libmpcenc/encode_sv7.c:176-179 | finds the number of bands up to the last one used |
| `Sv8FrameEncoding.FrameEncoder.WriteScfs` | codec/libmpcenc/encode_sv7.c:253-310 | writes all scalefactors and updates last values and key flags of exactly the coded bands |
| `Sv8FrameEncoding.FrameEncoder.WriteFrame` | codec/libmpcenc/encode_sv7.c:164-396 | appends exactly the specified frame and turns the encoder's fields into the specified next memory |
| `Sv8StreamEncoding.WriteBlock` | codec/libmpcenc/bitstream.c:131-183 | pads the bits to bytes and up to the minimum size, adds the check if wanted, frames and empties the buffer: the bytes returned are key, self-inclusive size and content |
| `Sv8StreamEncoding.CheckedData` | codec/libmpcenc/bitstream.c:142-166 | a block written with a check passes the reader's test and shows what was put in, filled with zeros to the minimum size |
| `Sv8StreamEncoding.StreamSnoc` | codec/libmpcenc/encode_sv7.c:396-404 | adding a block to a stream of full blocks adds exactly its framed bytes |
| `Sv8StreamEncoding.PutStep` | codec/libmpcenc/encode_sv7.c:164-396 | one more frame keeps the record: output, open block and memory are those of the frames encoded |
| `Sv8StreamEncoding.CloseStep` | codec/libmpcenc/encode_sv7.c:397-404 | closing a block keeps it, with the seek table entry recorded before the block |
| `Sv8StreamEncoding.StoredDecodes` | codec/libmpcenc/encode_sv7.c:397-404 | end to end: the file decodes to every frame encoded, and from the position in table entry j/step it decodes to every frame from block j on |
| `Sv8StreamEncoding.StreamEncoder.Put` | codec/libmpcenc/encode_sv7.c:164-405 | encodes a frame, closing the block when it is full, and keeps the record |
| `Sv8StreamEncoding.StreamEncoder.CloseBlock` | codec/libmpcenc/encode_sv7.c:397-404 | records the position of every `1 << seek_pwr`-th block and writes the block |
| `Sv8StreamEncoding.StreamEncoder.Finish` | codec/libmpcenc/encode_sv7.c:396-404 | a last block may be short; then everything encoded is stored |
| `Sv8Decoding.ReadMask` | codec/libmpcdec/mpc_decoder.c:580-583 | the 32-bit register holds the mask, complemented or not |
| `Sv8Decoding.ReadHalf` | codec/libmpcdec/mpc_decoder.c:672-685 | reads 18 samples as specified |
| `Sv8Decoding.ReadGroups` | codec/libmpcdec/mpc_decoder.c:659-669 | reads groups as specified through the nibble and symbol forms the decoder tables use, context included |
| `Sv8Decoding.NibblesAre` | codec/libmpcdec/mpc_decoder.c:691-701 | the two samples packed in a symbol are the signed halves it is made of |
| `Sv8Decoding.ReadWide` | codec/libmpcdec/mpc_decoder.c:710-717 | reads high byte and low bits as specified |
| `Sv8FrameDecoding.ReadResolutions` | codec/libmpcdec/mpc_decoder.c:562-572 | fills the resolutions from the top band down and keeps those above |
| `Sv8FrameDecoding.ReadMs` | codec/libmpcdec/mpc_decoder.c:574-589 | sets the flags of coded bands only |
| `Sv8FrameDecoding.ReadTriple` | codec/libmpcdec/mpc_decoder.c:624-641 | reads three scalefactors as specified |
| `Sv8DecoderState.FrameDecoder.ReadFrame` | codec/libmpcdec/mpc_decoder.c:542-723 | the decoder's arrays after the parse are exactly the specified state, and the reader stands exactly behind the frame |
| `SeekTables.DeltaInverse` | codec/libmpcenc/libmpcenc.h:156-163 | the sign-and-magnitude code of a second difference is undone by the reader |
| `SeekTables.PredictExact` | codec/libmpcdec/mpc_demux.c:514-525 | a predicted entry is accepted exactly if it can be computed in 64 bits without a wrap |
| `SeekTables.StartExact` | codec/libmpcdec/mpc_demux.c:491-502 | a stored offset is accepted exactly if its place in bits is a 64-bit number |
| `SeekTables.EntriesExact` | codec/libmpcdec/mpc_demux.c:68-90 | there is room for entries exactly if the samples between two are a 64-bit number, and then for two more than fit |
| `SeekTables.DeltaLost` | codec/libmpcenc/libmpcenc.h:156-163 | and is not for magnitudes of 2^30 and more, which the 32-bit prefix cannot carry |
| `SeekTables.EntriesRoundTrip` | codec/libmpcdec/mpc_demux.c:490-530 | first entries and second differences give back `8 * (table[i] - ref + header)`; with decimation, exactly every `2^diff`-th of them |
| `SeekTables.SeekTableRoundTrip` | codec/libmpcdec/mpc_demux.c:447-531 | `mpc_demux_ST` on what `writeSeekTable` wrote: it succeeds exactly when the decimated size fits, with the power and entries expected |
| `SeekTables.SeekTableExact` | codec/libmpcenc/bitstream.c:199-221 | the undecimated table survives if and only if every second difference is below 2^30 in magnitude |
| `SeekTables.LargeLost` | codec/libmpcenc/bitstream.c:199-221 | a table of three entries with a second difference of 2^30 does not survive |
| `SeekTables.DecimatedRefused` | codec/libmpcdec/mpc_demux.c:471-487 | a table of 65539 entries is refused where one of 65540 is accepted: the count left after decimation is one above the capacity |
| `SeekTables.RoomKept` | codec/libmpcdec/mpc_demux.c:471-487 | a table with no more entries than the length of the stream calls for is never refused |
| `SeekTables.WriterFits` | codec/mpcenc/mpcenc.c:1786-1787 | which the encoder never exceeds: its entries, one for every `1 << seek_pwr` blocks, are always accepted |
| `SeekTables.WriteSeekTable` | codec/libmpcenc/bitstream.c:199-221 | the writer appends exactly the specified bits |
| `SeekTables.StReader.Read` | codec/libmpcdec/mpc_demux.c:399-411 | bit by bit, failing exactly when too few bits are left |
| `SeekTables.ReadSize` | codec/libmpcdec/mpc_demux.c:413-430 | as specified, with the limit on bytes and the overflow test |
| `SeekTables.ReadGolomb` | codec/libmpcdec/mpc_demux.c:432-445 | as specified, with the limit on the prefix |
| `SeekTables.CoarsenLoop` | codec/libmpcdec/mpc_demux.c:471-478 | the decimation loop |
| `SeekTables.ReadTail` | codec/libmpcdec/mpc_demux.c:505-529 | two alternating last entries suffice: the table gets exactly the entries whose index is a multiple of the spacing |
| `SeekTables.ReadST` | codec/libmpcdec/mpc_demux.c:447-531 | accepts and returns exactly what the specification parses, for every byte string |
| `Demuxing.Reader.Read` | codec/libmpcdec/mpc_reader.c:201-216 | the memory reader, made to deliver short or fail at will: bytes of the stream in order, nothing else touched |
| `Demuxing.TargetExact` | codec/libmpcdec/mpc_demux.c:149-153 | a fill aims for what it is asked for; for the whole window of 61184 bytes if it is asked for nothing or too much, or is to fill up, has too little and can seek |
| `Demuxing.Reader.Seek` | codec/libmpcdec/mpc_reader.c:218-228 | succeeds up to and including the end of the data, unless the script says otherwise; a seek that fails leaves the source where it was |
| `Demuxing.Demux.Compact` | codec/libmpcdec/mpc_demux.c:165-172 | moving the unread bytes to the front keeps window, position and unread count |
| `Demuxing.Demux.Fill` | codec/libmpcdec/mpc_demux.c:139-202 | for any reader: the window stays the stream bytes ending where the reader stands, within capacity, and the position does not move; with a reader that does not fail, less than the target means the end of the stream |
| `Demuxing.Demux.ReadAll` | codec/libmpcdec/mpc_demux.c:175-188 | stops at an error, at the end or when enough is read |
| `Demuxing.Demux.Seek` | codec/libmpcdec/mpc_demux.c:210-261 | a successful seek ends at the position asked for, or eight bits behind it exactly when the fill compacts under a bit count of zero left from before; it succeeds exactly when the position is in the window or reachable |
| `Demuxing.LateHappens` | codec/libmpcdec/mpc_demux.c:224-253 | a demuxer is driven there: the window filled, the reader left at the end of a byte by a block header, and a seek to a place in the window ends eight bits behind it |
| `Demuxing.Demux.GetBlock` | codec/libmpcdec/mpc_bits_reader.c:111-125 | read through the window, a header that lies in it is the one the stream has there |
| `Demuxing.Demux.Pos` | codec/libmpcdec/mpc_demux.c:269-279 | the bit position, or -1 beyond 64 bits |
| `Demuxing.Demux.WindowAt` | codec/libmpcdec/mpc_demux.c:269-279 | the bytes under the reader are those of the stream at that position |
| `Synthesis.RunForgets` | codec/libmpcdec/synth_filter.c:331-355 | after 15 slots neither output nor history depends on what the history was, for any transform and window |
| `Synthesis.RunConcat` | codec/libmpcdec/synth_filter.c:331-355 | running two stretches is running the first and then the second from its history |
| `Synthesis.RunAt` | codec/libmpcdec/synth_filter.c:331-355 | output k of step t, by the inputs alone: it weighs value k or, in every other place, k + 32 of the slots of steps t, t - 1, .., sixteen in all, and of the history where there are no more |
| `Synthesis.AfterAt` | codec/libmpcdec/synth_filter.c:331-363 | the history after a run: the slots of its last fifteen steps, the newest first, and what is left of the old one |
| `Synthesis.SynthFilter` | codec/libmpcdec/synth_filter.c:331-363 | the in-place filter with its descending pointer computes exactly the run, and leaves the history of the next frame at the front |
| `Synthesis.MoveHistory` | codec/libmpcdec/synth_filter.c:361 | the move of 960 values keeps them, though source and target regions belong to one array |
| `Signals.FrameOut` | codec/libmpcdec/mpc_decoder.c:199-228 | a frame synthesised from the true history, or from any history when at least 480 of its samples are skipped, contributes the same samples |
| `Signals.OneFrame` | codec/libmpcdec/mpc_decoder.c:179-230 | one frame on the way to the end of the stream: what it delivers and what is due behind it make up what was due before it, however much is skipped |
| `Requantising.Requantise` | codec/libmpcdec/mpc_decoder.c:232-381 | for every band up to the last one, in the arrays of the decoder: samples 0 to 11 are step size times first scalefactor times value, 12 to 23 with the second, 24 to 35 with the third; of a mid and side band the left channel is the sum and the right one the difference; the other bands stay |
| `Requantising.RowsAre` | codec/libmpcdec/mpc_decoder.c:232-381 | whatever else the decoder remembers, they are those of the frame the encoder was given |
| `Programmes.FrameIn` | codec/libmpcenc/encode_sv7.c:396-404 | frame n of the stream is frame `n mod 2^block_pwr` of run `n >> block_pwr` |
| `Programmes.MoreThere` | codec/libmpcdec/mpc_demux.c:845-873 | while the length of the stream calls for more, the open block has a frame left, or the way to the next audio block ends at one |
| `Programmes.HomeThere` | codec/libmpcdec/mpc_demux.c:932-936 | every sample of the stream lies in a block that a scan can reach |
| `Delivery.Player.Synthesise` | codec/libmpcdec/mpc_decoder.c:199-202 | frames that will be skipped with their delay are not synthesised; the others are requantised and filtered from the history there is |
| `Delivery.Player.DecodeFrame` | codec/libmpcdec/mpc_decoder.c:179-230 | on the real demuxer: every frame delivers exactly the next samples of the reference signal, trimmed at the end and cut by the skip; no frame comes when the length of the stream calls for none, or when the place is lost |
| `Delivery.Player.NextFrame` | codec/libmpcdec/musepack_decoder.c:79-99 | frames swallowed by the skip are passed over without losing a sample |
| `Delivery.Player.Read` | codec/libmpcdec/musepack_decoder.c:214-255 | delivers the next samples, as many as asked for or as are left, and advances the position by as many; an error or the end is reported only when there are none |
| `Delivery.Player.Seek` | codec/libmpcdec/musepack_decoder.c:257-275 | through the demuxer's own seek: a seek that succeeds with no late step leaves exactly the samples from the clamped position on (of one with a late step nothing is said); one that fails leaves what was to come, or, if the source could not be put back, nothing; with a source that does not fail, it succeeds unless a step is late, and that is decided by where the window stood |
| `Delivery.PlayAll` | codec/libmpcdec/musepack_decoder.c:214-255 | for every chunking of reads, from open or after a seek, the samples are those of a decoder that synthesises everything, from its sample 481 and the initial silence on, and the position ends at the length |
| `Delivery.PcmAt` | codec/libmpcdec/mpc_decoder.c:204-228 | what is heard is the signal of the whole stream from sample 481 and the initial silence on, for as long as the stream is |
| `SeekIndexing.NextOpenUnique` | codec/libmpcdec/mpc_demux.c:852-866 | two places with the same audio blocks before them and nothing between that stops lead to the same audio block |
| `SeekIndexing.NextOpenStops` | codec/libmpcdec/mpc_demux.c:852-866 | in a stream with an end block the way to the next audio block ends within it |
| `SeekIndexing.DueIs` | codec/libmpcdec/mpc_demux.c:92-100 | at a block boundary an entry is due exactly when the next audio block is the one it is for |
| `SeekIndexing.Extend` | codec/libmpcdec/mpc_demux.c:102-107 | an appended entry keeps the index right: entry j leads to audio block `j << shift` |
| `SeekIndexing.LongInTime` | codec/libmpcdec/mpc_demux.c:959-981 | if every block is at least eleven bytes long and the first is not in the window, no step of a scan is late |
| `SeekIndexing.ScanGoesLate` | codec/libmpcdec/mpc_demux.c:959-981 | in a stream of four-byte audio blocks, a scan without a stored table to a block behind the 15294th is late |
| `Seeking.Seeker.Reach` | codec/libmpcdec/mpc_demux.c:962-964 | one repositioning and the header there, through the window: at the place asked for, or a byte behind it exactly in the late case |
| `Seeking.Seeker.CountAudio` | codec/libmpcdec/mpc_demux.c:966-973 | an audio block passes: indexed if that is due, and counted |
| `Seeking.Seeker.Scan` | codec/libmpcdec/mpc_demux.c:963-981 | with a source that withholds nothing, a scan that succeeds stands in front of the block wanted, with index and counts right, if no step was late, and a late step has read its header one byte behind it; with one that does not fail, a step is late exactly as computed from the lengths of the blocks and where the window stood, and nothing else makes the scan fail |
| `Seeking.EntryIs` | codec/libmpcdec/mpc_demux.c:951-955 | a scan starts from the last entry of the table that is not behind the block wanted |
| `Seeking.Seeker.SeekInner` | codec/libmpcdec/mpc_demux.c:920-1002 | clamp, initial silence, block and skip, entry, scan |
| `Seeking.Seeker.PutBack` | codec/libmpcdec/mpc_demux.c:1037-1047 | window, its place in the source, reader bits, block counters, table, sample count and skip are what they were when the snapshot was taken |
| `Seeking.Seeker.SeekSample` | codec/libmpcdec/mpc_demux.c:1004-1048 | all or nothing: success, or everything as it was, the place in the source and the frames to come included; if the source cannot be put back, sync is lost until a seek succeeds |
| `Seeking.Seeker.OpenBlock` | codec/libmpcdec/mpc_demux.c:845-873 | indexes when due and goes over other blocks to the next audio block, the end block, or a block that is refused: a bad key, or one too large for the window |
| `Seeking.Seeker.TakeFrame` | codec/libmpcdec/mpc_demux.c:875-884 | the next frame of an open block is parsed in the window, and block bits and block frames are counted down to the end of the block |
| `Seeking.Seeker.DecodeFrame` | codec/libmpcdec/mpc_demux.c:837-912 | frame n of the stream is what the decoder holds after it; an open block always gives its next frame while the length calls for one, and is counted down beyond it; without sync nothing is decoded and nothing changes |
| `SeekLayout.GroupsLie` | codec/libmpcenc/encode_sv7.c:396-404 | the blocks of a stream lie one behind the other where their bytes are |
| `SeekLayout.GroupStart` | codec/libmpcenc/encode_sv7.c:397-404 | the recorded start of audio block j is where, of the blocks, the one with j audio blocks before it begins |
| `SeekLayout.FileReady` | codec/libmpcenc/encode_sv7.c:396-404 | all that demuxer, seeker and player assume of a stream holds of a file the encoder wrote: where its blocks lie, that it ends, which frames they carry, and that the stored table is an index of them |
| `Mailbox.FetchBlock` | demo/networker.js:37-68 | a body is accepted exactly for a 206 whose range starts at the block and has the length of the body; every other reply is an error, and each of the five codes is for exactly one kind of reply |
| `Mailbox.FetchHonest` | demo/networker.js:50-60 | a server that follows sections 14.2 and 14.4 of RFC 9110 gives bytes of the stream from the start of the block or an error, however the transfer is cut short and even if it names a shorter range than asked for; one that answers whole blocks gives the whole block |
| `Mailbox.WholeReply` | demo/networker.js:37-60 | the plain reply to a request for a block, all of it, is a truthful one, and brings the block |
| `Mailbox.CutRight` | demo/networker.js:91-94 | the slice of what was served is the part of the stream asked for, as far as the served bytes go |
| `Mailbox.ShortBody` | demo/networker.js:91-95 | a read brings bytes exactly if what was served goes beyond its position; the count is negative exactly if it ends before it, and the reader then moves back to that end; with whole blocks neither happens |
| `Mailbox.ShortHappens` | demo/networker.js:50-60 | a truthful reply that names one byte of the block passes every check and makes the count negative |
| `Mailbox.ClientKeeps` | demo/rangereader.js:41-63 | no step of the reader breaks the invariant |
| `Mailbox.ServerKeeps` | demo/networker.js:70-122 | no step of the network worker breaks it, whatever is fetched and evicted |
| `Mailbox.RunInv` | demo/reader_mailbox.js:8-18 | it holds in every state of every interleaving |
| `Mailbox.BlocksStay` | demo/networker.js:81-90 | serving a request drops at most the oldest of sixteen blocks, and only if it has to fetch |
| `Mailbox.ServedIsThere` | demo/networker.js:81-90 | a block that was served answers the next request in it whatever the network would bring |
| `Mailbox.NothingServed` | demo/networker.js:75-79 | a request for nothing is answered with nothing, and is no error |
| `Mailbox.Safety` | demo/reader_mailbox.js:8-18 | for every truthful server: requests and responses alternate one to one, and the cache is bounded by 16; a read that ends has brought no more than was asked for, exactly the bytes of the stream from where it began, and stands behind them; it has brought none exactly if the served block ends at or before that place; with whole blocks it has brought all that was asked for, up to 262144 bytes, the end of the 65536-byte block and the end of the stream |
| `Mailbox.ReadStarts` | demo/rangereader.js:41-44 | a read of nothing, or at or behind the end, leaves everything at rest; any other starts with the size asked for |
| `Mailbox.FlagsTurned` | demo/rangereader.js:48 | the response flag is cleared before a request is posted and set by its answer, whatever it was |
| `Mailbox.SeekMoves` | demo/rangereader.js:64-67 | a seek puts the reader at the place asked for, and changes nothing else |
| `Mailbox.ReadBrings` | demo/rangereader.js:41-63 | one call over any interleaving: the bytes are those from where the reader stood when it was called, never more than asked for; a call that fails leaves the place |
| `Mailbox.NoDeadlock` | demo/reader_mailbox.js:8-18 | with a read under way one of the workers has a step, sleeping and notifying included |
| `Mailbox.ReadEnds` | demo/reader_mailbox.js:8-18 | every read ends within a bounded number of steps of either worker |
| `Levinson.StepSolves` | codec/libmpcpsy/ans.c:116-138 | one order more: the new coefficients solve the larger system, the new error is the last row |
| `Levinson.DurbinSolves` | codec/libmpcpsy/ans.c:105-140 | over the reals, for every order with nonzero errors, h solves the symmetric Toeplitz normal equations |
| `Levinson.ErrorIsProduct` | codec/libmpcpsy/ans.c:126 | the error is `akf[0]` times the product of `1 - k^2` |
| `Levinson.DurbinInPlace` | codec/libmpcpsy/ans.c:105-140 | the in-place update from both ends computes the recursion, the middle element included |
| `Levinson.DurbinOne` | codec/libmpcpsy/ans.c:63-69 | the unrolled order equals the general one |
| `Levinson.DurbinTwo` | codec/libmpcpsy/ans.c:71-82 | the unrolled order equals the general one |
| `Levinson.DurbinThree` | codec/libmpcpsy/ans.c:84-102 | the unrolled order equals the general one |
| `Crc32.TableStep` | codec/common/crc32.c:51 | eight single-bit steps are one table step, for every register value |
| `Crc32.MakeCrcTable` | codec/common/crc32.c:19-35 | each entry is eight single-bit steps of its index |
| `Crc32.UpdateCrc` | codec/common/crc32.c:43-54 | the table-driven loop computes the bit-at-a-time register of Annex D of the W3C PNG specification, for messages of any length |
| `Crc32.BurstDetected` | codec/common/crc32.c:57-60 | two messages that differ only within four consecutive bytes have different checks |
| `CrcValues.CheckValue` | codec/common/crc32.c:57-60 | the check of the digits 1 to 9 is 0xCBF43926 |
| `CrcValues.Residue` | codec/common/crc32.c:57-60 | every message followed by its check, the lowest byte first, leaves the register at 0xDEBB20E3 |
| `Crc32.HeaderCheck` | codec/libmpcdec/streaminfo.c:202-204 | the check alone accepts what was framed and rejects it with up to four consecutive bytes of content, or of the check, changed |
| `HeaderGuard.AcceptsExactly` | codec/libmpcdec/streaminfo.c:202-204 | and any other change exactly if the change of the stored check is not the one the change of the content makes |
| `HeaderGuard.MissedHappens` | codec/libmpcdec/streaminfo.c:202-204 | for every nine bytes of content there is a change of the last three bytes of the check and the first one of the content that the check misses |
| `HeaderGuard.HeaderBurst` | codec/libmpcdec/streaminfo.c:202-208 | with the version test no change within four consecutive bytes is missed, wherever it lies, for content of 5 to 13 bytes |
| `HeaderGuard.WriterBurst` | codec/libmpcenc/bitstream.c:131-166 | so none is in a header block as the writer makes it, zero padding included |
| `StreamHeader.HeaderExact` | codec/libmpcdec/streaminfo.c:194-233 | the stream header comes back if and only if the reader's limits are kept (last band below 32, at most two channels, no more silence than samples) and the block power is even |
| `StreamHeader.HeaderRead` | codec/libmpcdec/streaminfo.c:194-233 | what is read back otherwise: an odd block power loses its half |
| `StreamHeader.Rates` | codec/libmpcdec/streaminfo.c:216-220 | the four sample rates and their codes; the other four codes are refused |
| `StreamHeader.OddPowerLost` | codec/libmpcenc/encode_sv7.c:145 | a header with a block power of 1 comes back with 0 |
| `Kraft.PrefixKraft` | codec/common/huffman-bcl.c:103-120 | the lengths of every prefix code satisfy Kraft's inequality |
| `Kraft.JoinLower` | codec/common/huffman-bcl.c:147-170 | the greedy choice loses nothing: a bound on the cost after joining two lightest counts, plus the two, bounds the cost before, over all lengths that satisfy Kraft's inequality |
| `Kraft.LowerIsBound` | codec/common/huffman-bcl.c:128-185 | such a bound holds of every prefix code |
| `HuffmanTrees.StoreTree` | codec/common/huffman-bcl.c:54-68 | stores depth below the start depth for the symbols of the tree and nothing else |
| `HuffmanTrees.StoredWeight` | codec/common/huffman-bcl.c:54-68 | the stored lengths take exactly the share of the code space of the tree's root |
| `HuffmanTrees.StoredCost` | codec/common/huffman-bcl.c:54-68 | their cost is the sum of the joined counts |
| `HuffmanTrees.FindLightest` | codec/common/huffman-bcl.c:148-159 | the scan with its two pointers finds the two lightest live nodes, later ones first among equals |
| `HuffmanTrees.ForestJoin` | codec/common/huffman-bcl.c:161-169 | a join keeps the partition of the symbols and the bound on the cost |
| `HuffmanTrees.MakeTree` | codec/common/huffman-bcl.c:128-182 | for two or more symbols the lengths fill the code space exactly and cost no more than those of any prefix code; one symbol gets one bit |
| `HuffmanCodes.RoundUp` | codec/common/huffman-bcl.c:114-118 | shifting out what the next word has no room for and adding one rounds up to its share, and never past what the words still to come leave |
| `HuffmanCodes.MakeCodes` | codec/common/huffman-bcl.c:103-120 | for lengths of any prefix code, longest first: each code stands at or behind the words before it, no two shares overlap and room is left for the rest; if the lengths fill the space, each stands exactly where the words before it end |
| `HuffmanCodes.CodeFits` | codec/common/huffman-bcl.c:103-120 | every code fits its length |
| `HuffmanCodes.CodesPrefixFree` | codec/common/huffman-bcl.c:103-120 | no word begins with another |
| `HuffmanCodes.CompletePermuted` | codec/common/huffman-bcl.c:108-109 | sorting the symbols keeps the lengths complete |
| `CanonicalCodes.SortAndNumber` | codec/common/huffman-bcl.c:103-120 | sorting by length and symbol and numbering: every symbol keeps its length and each code stands exactly where those before it end |
| `CanonicalCodes.HuffmanCode` | codec/common/huffman-bcl.c:103-185 | from counts to codes: every symbol gets one code, none begins with another, and no prefix code for the counts is shorter |
| `HuffmanCodes.BuiltCodeDecodes` | codec/common/huffman-bcl.c:217-226 | printed as a decoding table, the codes make a table the decoder is for, and its scan finds every word |
| `BuiltBooks.BuiltValid` | codec/common/huffman-bcl.c:128-185 | a constructed code of up to 256 symbols and 16 bits, with its decoding table in canonical form, is a valid book: all that the codec theorems assume of a Huffman table holds of it |
| `BitReversal.RowOffsets` | codec/libmpcpsy/fft4g.c:41-51 | the doubling loop fills the table with the bit-reversed row offsets and stops with rows of 4 or 8 times their number |
| `BitReversal.CrossedCell` | codec/libmpcpsy/fft4g.c:53-131 | the exchanges for a pair of rows send each cell to its mirror image and touch no other |
| `BitReversal.Bitrv2` | codec/libmpcpsy/fft4g.c:36-135 | for every power of two from 4 on: the complex value at index x ends up at the index with its bits reversed |
| `BitReversal.PermutedTwice` | codec/libmpcpsy/fft4g.c:36-135 | doing it twice restores the order |
| `Fft.BlockPlace` | codec/libmpcpsy/fft4g.c:303-374 | every block of a stage lies within the data, and the factors it reads within the table |
| `Fft.TurnFly` | codec/libmpcpsy/fft4g.c:314-340 | the butterfly in place: eight values are replaced by the specified ones, nothing else is touched |
| `Fft.BackFly` | codec/libmpcpsy/fft4g.c:347-373 | the same for the second half of a block |
| `Fft.Cft1st` | codec/libmpcpsy/fft4g.c:138-243 | the unrolled first stage is the general stage of width 2; for length 16 it is that of length 32 |
| `Fft.CftMdl` | codec/libmpcpsy/fft4g.c:245-376 | the general stage: opening loops, then blocks with their factors |
| `Fft.CftfSub` | codec/libmpcpsy/fft4g.c:378-429 | all stages of growing width, and a last one of radix four or two as the length requires |
| `Fft.RftfSub` | codec/libmpcpsy/fft4g.c:432-459 | the conversion from both ends never leaves data or table, with the stride of a table made for a longer transform |
| `Fft.RdftInPlace` | codec/libmpcpsy/fft4g.c:477-500 | the whole transform in place, for lengths 2, 4, 8 and powers of two from 32, over any arithmetic |
| `Dft.FourTimesLong` | codec/libmpcpsy/fft4g.c:245-376 | every fourth value of a discrete Fourier transform is a value of one of a quarter of the length, of folded and turned coefficients |
| `Fourier.StagePlaces` | codec/libmpcpsy/fft4g.c:245-376 | a stage sends every group of eight values through the butterfly of its half block |
| `Fourier.KindTurns` | codec/libmpcpsy/fft4g.c:303-374 | with the table of a root of unity a butterfly turns its results by 1, c, c squared and c cubed, c the root to the bit-reversed index |
| `Fourier.LevelsMean` | codec/libmpcpsy/fft4g.c:378-429 | the stages, on input in bit-reversed order, compute the complex discrete Fourier transform |
| `Fourier.RdftMeans` | codec/libmpcpsy/fft4g.c:477-500 | over the reals, value t of the result is the discrete Fourier sum of the input at the t-th power of the root of unity, and the first two values are the sums at 1 and at -1 |
| `Fourier.FirstRoots` | codec/libmpcpsy/fft4g.c:504-535 | the roots that the transforms of length 2 and 4 take are -1 and i |
| `FourierTables.MakeWt` | codec/libmpcpsy/fft4g.c:504-535 | makes the table of powers in bit-reversed order, from cosines and sines |
| `FourierTables.MakeCt` | codec/libmpcpsy/fft4g.c:538-555 | makes the table of half cosines and half sines of the conversion |
| `FourierTables.GenerateTables` | codec/libmpcpsy/fft4g.c:462-474 | together they are the tables the transform needs |
| `FourierTables.TablesShorter` | codec/libmpcpsy/fft4g.c:432-459 | and those of a longer transform serve a shorter one |
| `FftLanes.LanesHom` | codec/libmpcpsy/fft4g_simd.c:43-48 | each lane of the four-lane operations is the scalar operation, the negated product included |
| `FftLanes.FlyLane` | codec/libmpcpsy/fft4g_simd.c:322-379 | so each lane of a butterfly is the scalar butterfly |
| `FftLanes.RdftLane` | codec/libmpcpsy/fft4g_simd.c:469-490 | and of everything built from them, whatever the arithmetic |
| `FftLanes.FourLanes` | codec/libmpcpsy/fft4g_simd.c:469-490 | lane n of a transform of groups of four is the scalar transform of lane n on the same tables |
| `FftLanes.Overrun` | codec/libmpcpsy/fft4g.c:167-243 | the first stage of a transform of length 16 changes a value behind the input |
| `FftFour.Bitrv2` | codec/libmpcpsy/fft4g_simd.c:50-147 | on the interleaved array, the complex values of all lanes end up at the index with its bits reversed |
| `FftFour.CftMdl` | codec/libmpcpsy/fft4g_simd.c:255-385 | the general stage on the interleaved array, with loads and stores of four values |
| `FftFour.RftfSub` | codec/libmpcpsy/fft4g_simd.c:439-465 | the conversion on the interleaved array |
| `FftFour.Rdft4` | codec/libmpcpsy/fft4g_simd.c:469-490 | every lane of the interleaved array ends up with what the scalar transform makes of it |

## Left out

- Sv8Samples.SampleRoundTrip: noise bands (resolution -1) carry no samples; what the decoder's random generator fills in is not modelled.
- Codebooks.BookRoundTrip: the contents of the codec's own Huffman tables are not listed; a book stands for any encoder and decoder table that agree, and `BuiltBooks.BuiltValid` shows that every constructed code is one. What the decoder's symbol lists hold is the assumption `SymsOk`.
- Sv8DecoderState.FrameDecoder.ReadFrame: assumes a frame that parses and three bytes behind it, which the demuxer's padding provides; what the parser does with damaged frames is not modelled.
- BitWriting.BitWriter.WriteBits: assumes room in the buffer, which the source reserves by its size and does not test.
- Sv8StreamEncoding.WriteBlock: the file the block is written to is the value returned, and a full disk is not modelled.
- Integers.LogRoundTrip: the two logarithm tables are given as runs of equal length, not entry by entry.
- Sv8Samples.GroupsRoundTrip: the unpacking tables of the 125-entry book are given as the formulas they tabulate.
- Synthesis.SynthFilter: one channel; the 32-point transform and the window are any functions, and sums are over the reals.
- Delivery.Player.Seek: after a seek that landed late nothing is said of what is decoded; streams of unknown length (`samples == 0`) are not played.
- Delivery.Player.Read: one channel of the two, and for streams without noise bands, whose samples come from a generator that a seek does not put back; a source that fails in the middle of a stream makes reading fail, and what is decoded after that is not stated.
- Delivery.Player.DecodeFrame: streams in which no frame is longer than the 4352 bytes the decoder reads ahead, nothing stops the way to the last audio block, and whose last block is followed by an end block.
- Demuxing.Demux.Fill: without the word swapping of SV7.
- Demuxing.Reader.Read: a reader that reports more bytes than it was asked for is not modelled.
- Demuxing.Demux.GetBlock: a size code that runs beyond the 64 KiB of the buffer gives no block; the source reads on.
- Seeking.Seeker.SeekSample: a source that cannot tell its position and memory that cannot be had make it fail at once, which is left out; so is a seek power below the block power, which a stored table cannot have.
- Seeking.Seeker.DecodeFrame: stated for a place that is a right one; what is decoded from a wrong place is not modelled.
- Seeking.Seeker.OpenBlock: a block power of 32 and more is refused there; headers hold none above 14.
- Mailbox.Safety: the statistics word and the error detail are left out, and a fetch is one step.
- HuffmanCodes.MakeCodes: the codes are for symbols already sorted; `CanonicalCodes.SortAndNumber` sorts first, by an insertion sort in place of the C library's.
- HuffmanTrees.MakeTree: nodes are trees instead of pointers, with the array of counts as in the source; counts do not overflow.
- Levinson.DurbinInPlace: over the reals, for inputs without a zero error, where the source divides.
- Fft.RdftInPlace: length 16, for which the first stage overruns the data; tables are arguments, as values.
- Fourier.RdftMeans: over the reals; floating-point rounding is not modelled.
- FourierTables.MakeWt: cosine and sine are functions whose values are the powers of a point on the circle; the two words in which the source keeps the lengths of the tables are left out.
- FftFour.Rdft4: over the reals, where the product with minus one is the negated product.
- SV7: its frame parser, word-swapped buffering and header.
- Chapters, ID3 and APE tags, ReplayGain, encoder information blocks.
- Quantisation, psychoacoustics and the analysis filter: tuned floating-point code without a crisp specification.
- The WebAssembly bindings, command-line programs, file and pipe readers.
