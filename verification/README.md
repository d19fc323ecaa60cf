# Random access to gzip files, modelled and verified

The repository reads gzip files at any position. On a first pass it saves checkpoints of the inflater;
later a reader continues from the checkpoint before the position asked for. This project models the code
that has to be right for that and proves that it is:

- the inflater (`HuffmanTable`, `BitReader`, `BlockCodes`, `Matches`, `Window`, `Inflate`) against an
  abstract machine for RFC 1951 (`Deflate`) that reads one syntactic element at a time and has an unbounded
  output and no buffers;
- checkpoints (`Checkpoints`, `Resume`): what a decoder that continues from one delivers;
- gzip files of any number of members (`Members`, `Checksum`, `Gzip`), and files put one after the other
  (`Embedding`, `Concatenation`);
- files as they are written, down to the bits, by definitions that share neither tables nor constants with the
  reading side but the base values and extra bits of lengths and distances: tokens (`Tokens`), fixed codes
  (`FixedCodes`), dynamic headers (`DynamicHeaders`), gzip headers (`GzipHeaders`), whole files (`WrittenFiles`), and
  streams and files given byte by byte (`Examples`);
- the pool of readers behind `ReadAt` (`Readers`, `Pool`): calls, reads and the goroutine that collects
  checkpoints, interleaved in any way; the runs in which a call goes wrong (`Astray`), and what holds on a file
  that is not good (`AnyFile`);
- the Huffman encoder (`PackageMerge`, `CodeLengths`, `Encoder`) and its round trip through the decoder
  (`RoundTrip`);
- the tar index and the links in it (`Tarfs`, `Links`).

`Bits` and `Canonical` hold the arithmetic of bit streams and of canonical Huffman codes. Objects that the
Go code updates in place are classes, and loops are loops; the specifications are functions over sequences.
What is known only to the proof (the goal of a decoder, the note that belongs to a checkpoint) is ghost.

The main results, and what each rests on:

- **Decoding.** `Inflate.Decompressor.Read`: whatever the buffer sizes and the points of suspension, the
  bytes handed out are the output of the machine, each once and in order. It rests on
  `HuffmanTable.HuffmanDecoder.Init` (the two-level table answers every lookup like the canonical code),
  `HuffmanTable.LazyLookup` and `BitReader.BitReader.HuffSym` (looking up before the bits are there is
  harmless), `Window.DictDecoder.WriteCopy` (doubling copies in the ring buffer are byte-at-a-time copies)
  and `BlockCodes.HuffmanCodes.ReadHuffman`.
- **Resuming.** `Resume.ResumeFrom`, by a simulation between machines with the same window.
- **Files.** `Gzip.GzipReader.Read`, `Readers.ReadAll`, `Concatenation.Concatenated`.
- **What is read is what was written.** `WrittenFiles.Unzip`: a file is read to its end without an error exactly if it
  is made of members with a header, blocks and a trailer as written down in `WrittenFiles`, and then the texts of the
  members come out. It rests on such an equivalence for each part: `Tokens.TokensRead` and `Tokens.TokensWritten`,
  `DynamicHeaders.CodesRead` and `DynamicHeaders.CodesWritten`, `GzipHeaders.HeaderReads` and
  `GzipHeaders.HeaderWritten`.
- **The pool.** `Pool.NextKeeps` is the invariant; `Pool.ReadAtIsSlice`, `Pool.DecodedAnswers`,
  `Pool.ScannedAnswers`, `Pool.OneMemberSlices` and `Pool.GuardedSlices` say when `ReadAt` is slicing,
  `Astray.ChoiceDecides` and `Astray.IndexAnswersIff` exactly when it is not, and `Astray.CallGoesAstray` is a run.
  What the pool takes for granted of readers and checkpoints is proved of the gzip reader in `Readers`.
- **Encoding.** `Encoder.Generate`: the code made is one of least cost within the limit. It rests on
  `CodeLengths.BitCounts` and `PackageMerge.NoCheaper`. `RoundTrip.DecodeSymbols` reads the code back.

## Findings

Where the code does not do what its documentation says, the model follows the code.

1. **A checkpoint taken at the end of a member leads `ReadAt` astray.** `finishBlock` saves one at the end
   of the last block of a member too (inflate.go:772-795), but a reader that continues from it takes the
   trailer for compressed data (`Gzip.ContinuesAtTrailer`). If that starts no block, which is so whenever the
   block ends at least three bits before its last byte does, padded with zeros, and the halves of the checksum
   are not each other's complement (`Gzip.PaddingThenTrailer`), the reader delivers nothing and fails. The
   checkpoint is the last one received for up to a window of output before its position
   (`Gzip.GzipReader.StandsBefore`). A `ReadAt` picks it (gsip.go:109-117) exactly if then its
   position is not past the one asked for and not the end of the file (`Pool.GoesAstrayIff`); and a call that
   asks for any bytes and continues from a checkpoint gets them exactly if it has not picked such a one
   (`Astray.ChoiceDecides`). With the span of 1<<22 of the repository, one caller and two calls are
   enough, for every file with a member longer than that which is not the last (`Astray.CallGoesAstray`). The
   reader made for a call that asks for the very position of the checkpoint stays in the pool and spoils later
   calls that take it, and no others (`Pool.ReadAtIsSlice`). It cannot happen in a pool decoded from a complete
   index, after a first pass and `Wait`, or in a file of one member.
2. **An index saved too early has the same flaw.** An index made of the checkpoints received so far serves all
   calls exactly if there are any and the last one is not of that kind (`Astray.IndexAnswersIff`); with one of
   that kind a single call is enough to go wrong (`Astray.EarlyIndexFails`).
3. **A checkpoint after an empty stored block has the wrong position** if the span is negative: `dataBlock`
   flushes the window before `finishBlock` (inflate.go:734-738), which then does not count what was flushed
   (inflate.go:770). With a span that is not negative such a block never sends a checkpoint, because
   everything before it has been counted for the checkpoint before (`Resume.StepExactly`).
   `Resume.LosesByte` is a stream on which a byte is lost. All spans in the repository are 0 or 1<<22.
4. The distance to the first checkpoint of a file is counted from the length of its gzip header, a position
   in the compressed file (inflate.go:1017), not from position 0 of the output; this only shifts the point
   where it is sent.
5. **A reader whose discard fails is lost.** The early return leaves it marked as in use (gsip.go:137-139), and no
   later call can take it (`AnyFile.FailedReaderIsLost`).
6. **On a truncated file `ReadAt` reports a clean end.** `io.ErrUnexpectedEOF` becomes `io.EOF` (gsip.go:197), whether
   it comes from `io.ReadFull` or from the gzip reader. An EOF of a call on the first reader of a file that is not
   good always hides that the data has run out (`AnyFile.EofIsNotTheEnd`, `AnyFile.TruncatedLooksEnded`). The bytes
   returned are right all the same (`AnyFile.ReadAtIsPart`).

## Model

| member | source | states |
|---|---|---|
| HuffmanTable.HuffmanDecoder.Init | gsip/internal/flate/inflate.go:197-340 | accepts exactly the empty, complete and single one-bit length vectors; the tables then answer every lookup like the canonical code (`Consistent`, part of `Valid`), no slot is left out or written twice, and `min` is the least length |
| HuffmanTable.HuffmanDecoder.Lookup | gsip/internal/flate/inflate.go:841-846 | the two-level lookup finds the entry of the symbol whose reversed code the low bits start with, and 0 if there is none |
| HuffmanTable.HuffmanDecoder.EnterAll | gsip/internal/flate/inflate.go:275-313 | entering the symbols one by one with stride writes builds the table of all of them, each slot once |
| HuffmanTable.LazyLookup | gsip/internal/flate/inflate.go:166-170 | a lookup padded with zeros gives the symbol, if its entry asks for no more bits than are there; otherwise a lower bound of the bits needed; and no entry means no symbol |
| Canonical.MatchUnique | gsip/internal/flate/inflate.go:231-247 | the codes assigned from `nextcode` are prefix free: at most one of them is matched by given bits |
| Canonical.CompleteMatch | gsip/internal/flate/inflate.go:243-253 | the codes of a vector that passes the completeness check are matched by all bit strings, so no slot stays empty |
| BitReader.BitReader.MoreBits | gsip/internal/flate/inflate.go:807-816 | one more byte goes above the pending bits; at the end of the input the error is an unexpected EOF, or that of the storage |
| BitReader.BitReader.HuffSym | gsip/internal/flate/inflate.go:819-859 | the symbol whose code stands at the position, with its length consumed; if `min` is the least length, an error exactly if no code stands there (with a larger `min`, also if fewer than `min` bits are left): corrupt exactly if no continuation of the data could have one, otherwise the data has run out; reads less than a byte past the code, or past `min` bits |
| BlockCodes.FixedHuffmanDecoder | gsip/internal/flate/inflate.go:868-886 | the decoder for the fixed lengths of section 3.2.6 of RFC 1951 is accepted and valid; `FixedCodes.FixedLitSymbol` says what it reads |
| FixedCodes.FixedLitSymbol | gsip/internal/flate/huffman_code.go:64-92 | a literal/length symbol of a fixed block is read exactly if the bits listed for it stand there: 8 bits from 00110000 for 0 to 143, 9 bits from 110010000 for 144 to 255, 7 bits from 0 for 256 to 279, 8 bits from 11000000 for 280 to 287 |
| FixedCodes.GenerateFixedLiteralEncoding | gsip/internal/flate/huffman_code.go:64-92 | the encoder's fixed codes are the canonical ones of the fixed lengths, reversed |
| FixedCodes.GenerateFixedOffsetEncoding | gsip/internal/flate/huffman_code.go:94-101 | likewise for distances |
| FixedCodes.AcceptedIff | gsip/internal/flate/inflate.go:243-253 | lengths are accepted exactly if there are none, if their Kraft sum is 1, or if there is just one code of one bit |
| BlockCodes.HuffmanCodes.ReadRun | gsip/internal/flate/inflate.go:499-549 | one code length symbol with its repeat count extends the list as section 3.2.7 of RFC 1951 says, across the boundary between the two codes, and makes progress; or the header is bad; `DynamicHeaders` says what a repeat stands for |
| DynamicHeaders.ZerosRead | gsip/internal/flate/inflate.go:526-533 | k zeros, for k from 3 to 138, are read from just one symbol, 17 up to 10 zeros and 18 from 11 on, with just one value of its extra bits |
| DynamicHeaders.AgainRead | gsip/internal/flate/inflate.go:518-525 | the last length is repeated k times, for k from 3 to 6, by just one value of two bits after symbol 16 |
| DynamicHeaders.OrderIs | gsip/internal/flate/inflate.go:456 | the code length code lengths come in the order 16, 17, 18, 0 and then from 8 outwards |
| DynamicHeaders.CodesRead | gsip/internal/flate/inflate.go:458-564 | any header written with counts less 257, 1 and 4, code length code lengths in that order, and lengths and repeats in that code, is read as the two codes written |
| DynamicHeaders.CodesWritten | gsip/internal/flate/inflate.go:458-564 | any header that is read has been so written |
| DynamicHeaders.TooManyCodes | gsip/internal/flate/inflate.go:465-474 | more than 286 literal/length codes or 30 distance codes are refused |
| BlockCodes.HuffmanCodes.ReadHuffman | gsip/internal/flate/inflate.go:458-564 | the two codes are those the header of a dynamic block defines, and less than a byte is read past it although `min` is raised; an error exactly if the header defines none: corrupt only if it is bad whatever follows the data, otherwise the data has run out |
| BlockCodes.FiveBitCode | gsip/internal/flate/inflate.go:646-655 | reversing five bits as the top of a byte reads them as a fixed distance code |
| Matches.ReadLength | gsip/internal/flate/inflate.go:606-642 | the shifts give the base and extra bits of the table in section 3.2.5 of RFC 1951, and the length follows; an error exactly if bits are missing |
| Tokens.LengthFits | gsip/internal/flate/token.go:19-46 | every length from 3 to 258 can be written with the symbol the encoder has for it and extra bits |
| Tokens.LengthReads | gsip/internal/flate/inflate.go:606-642 | and is read back from these |
| Tokens.DistanceFits | gsip/internal/flate/token.go:88-97 | every distance from 1 to 32768 can be written with the symbol the encoder has for it and extra bits |
| Tokens.DistanceReads | gsip/internal/flate/inflate.go:644-682 | and is read back from these |
| Tokens.LengthWritten | gsip/internal/flate/inflate.go:606-642 | no other length is ever read, and none in another way but 258 with the symbol before its own |
| Tokens.DistancesRead | gsip/internal/flate/inflate.go:644-690 | no distance is ever read that does not fit the window of 32768 bytes |
| Tokens.DistanceWritten | gsip/internal/flate/inflate.go:644-682 | no distance is read in another way |
| Tokens.TokensRead | gsip/internal/flate/inflate.go:570-711 | literals and matches written one after the other with any two codes, and an end of block, are decoded to what they stand for; a match may go back to the start of the output, up to 32768 bytes |
| Tokens.TokensWritten | gsip/internal/flate/inflate.go:570-711 | symbols that are decoded up to an end of block have been so written |
| Matches.ReadDist | gsip/internal/flate/inflate.go:644-682 | likewise for the distance, with the fixed or a dynamic code; an error exactly if there is no distance at the position: corrupt only if there is none whatever follows the data, otherwise the data has run out |
| Window.DictDecoder.constructor | gsip/internal/flate/dict_decoder.go:39-56 | the window holds the end of the preset dictionary |
| Window.DictDecoder.HistSize | gsip/internal/flate/dict_decoder.go:59-64 | the window holds all of the history, or as much as it has room for |
| Window.DictDecoder.WriteByte | gsip/internal/flate/dict_decoder.go:93-96 | the history grows by the byte, and the window still holds its end |
| Window.DictDecoder.WriteMark | gsip/internal/flate/dict_decoder.go:79-88 | the history grows by the bytes stored in the slice handed out for writing |
| Window.DictDecoder.WriteCopy | gsip/internal/flate/dict_decoder.go:103-145 | a copy with wrap and doubling is the byte-at-a-time copy from an unbounded history, cut off at the end of the buffer; the number copied is returned |
| Window.DictDecoder.TryWriteCopy | gsip/internal/flate/dict_decoder.go:153-169 | copies all or nothing, like the above, and nothing exactly if the source would wrap or there is no room |
| Window.CopyPeriod | gsip/internal/flate/dict_decoder.go:128-141 | an overlapping copy repeats with the distance as its period, which is why the source may double |
| Window.DictDecoder.ReadFlush | gsip/internal/flate/dict_decoder.go:174-182 | what is handed out is the part of the history not handed out before; afterwards there is room again |
| Inflate.Decompressor.HuffmanBlock | gsip/internal/flate/inflate.go:570-711 | decodes symbols and copies until the block ends or the window is full, and stays on the way to the same final state of the machine, which is that of `Tokens.TokensRead`; a checkpoint is sent exactly if one is due |
| Inflate.Decompressor.DataBlock | gsip/internal/flate/inflate.go:714-742 | a stored block does what the machine does; an empty one ends the block and hands out all pending output, which is the `lag` of a checkpoint sent then |
| Inflate.Decompressor.CopyData | gsip/internal/flate/inflate.go:746-767 | a stored block is copied in parts as the machine copies it, and an error is reported if its data is missing |
| Inflate.Decompressor.FinishBlock | gsip/internal/flate/inflate.go:769-797 | a checkpoint is sent exactly if more than the span has been handed out since the last; it is a picture of the state of the machine, and EOF is set exactly at the last block |
| Inflate.Decompressor.NextBlock | gsip/internal/flate/inflate.go:391-422 | each type of block does what the machine does with it, and progress is made |
| Inflate.Decompressor.Read | gsip/internal/flate/inflate.go:424-444 | hands out the output of the machine, each byte once and in order, across any buffer sizes; EOF exactly after all of it, with the position right behind the last block; an error only if the stream is bad, after all the output written on the way to it, in a state in which the next step fails or no room is left for the end of the block: corrupt only if the stream is bad whatever follows, otherwise the data has run out; then always the same; checkpoints sent are pictures, in order, more than a span apart |
| Inflate.Decompressor.PositionIsGiven | gsip/internal/flate/inflate.go:888-894 | the position reported is the one to begin with plus all bytes handed out |
| Inflate.Decompressor.WithSpans | gsip/internal/flate/inflate.go:1007-1021 | a new decoder is on the way to the final state of the machine from the current position |
| Inflate.Decompressor.Continue | gsip/internal/flate/inflate.go:1023-1049 | a decoder that continues from a checkpoint is on the way to the final state of the machine from the state saved |
| Inflate.Decompressor.AfterReset | gsip/internal/flate/inflate.go:896-910 | a reset starts the next member and goes on counting the output |
| Deflate.SameWindowRun | gsip/internal/flate/inflate.go:769-797 | from states with the same position and window the machine writes the same bytes and stops at the same place: what a checkpoint leaves out does not matter |
| Resume.ResumeFrom | gsip/internal/flate/inflate.go:1023-1049 | continuing from a checkpoint at the end of a block delivers the plaintext from its position plus its lag on, and stops at the same place in the file |
| Resume.StepExactly | gsip/internal/flate/inflate.go:769-797 | when exactly a step sends a checkpoint; continuing from it delivers the plaintext from its `Out` on exactly if the step was not an empty stored block with output pending, and with a span that is not negative such a step sends none |
| Resume.LosesByte | gsip/internal/flate/inflate.go:734-738 | a stream on which, with a negative span, a checkpoint is sent from which continuing loses a byte |
| Checksum.UpdateAppend | gsip/internal/gzip/gunzip.go:347 | updating the CRC part by part is updating it at once |
| Gzip.GzipReader.ReadString | gsip/internal/gzip/gunzip.go:186-215 | reads and digests a name up to its zero byte, and fails exactly if there is none in 512 bytes |
| Gzip.GzipReader.ParseHeader | gsip/internal/gzip/gunzip.go:219-286 | succeeds exactly if there is a header as section 2.3 of RFC 1952 defines it, and stops behind it; EOF only at the end of the file; `GzipHeaders` says which bytes are a header |
| GzipHeaders.HeaderReads | gsip/internal/gzip/gunzip.go:219-286 | a header written is one, and ends where it has been written: 1F 8B 08, flags and six bytes; for flag 4 two length bytes and as many bytes; for flags 8 and 16 a name and a comment of fewer than 512 bytes, each with a zero; for flag 2 the lower half of the checksum of all before |
| GzipHeaders.HeaderWritten | gsip/internal/gzip/gunzip.go:219-286 | any header there is has been so written |
| WrittenFiles.ParseWritten | gsip/internal/gzip/gunzip.go:219-286 | parsing a header written stops right behind it, whatever follows |
| Gzip.GzipReader.ReadHeader | gsip/internal/gzip/gunzip.go:219-317 | sets up a new, continued or reset decoder behind the header, and sends a checkpoint for the start of a member, at the position reached |
| Gzip.GzipReader.Open | gsip/internal/gzip/gunzip.go:107-160 | opens exactly if a checkpoint is given or there is a header; the reader then has all of the file, or the rest from the checkpoint, to deliver |
| Gzip.GzipReader.ReadTrailer | gsip/internal/gzip/gunzip.go:355-368 | succeeds exactly if there is a trailer that agrees with what was counted, or the reader began at a checkpoint |
| Gzip.GzipReader.Read | gsip/internal/gzip/gunzip.go:340-383 | hands out the output of all members, in order and once; EOF only if every trailer is right and the file ends well; an error only if it does not, after all of the output, or where the data of a member is bad, after all the decompressor has written; then always the same; checkpoints sent are faithful, those sent before stay |
| Gzip.GzipReader.StandsBefore | gsip/internal/flate/inflate.go:769-797 | as long as a checkpoint at the end of a member is the last one sent, the reader stands before its position, by no more than a window |
| Gzip.ContinuesAtTrailer | gsip/internal/flate/inflate.go:1023-1049 | continuing from a checkpoint at the end of a member delivers nothing and fails, if no block starts there |
| Gzip.PaddingThenTrailer | gsip/internal/flate/inflate.go:714-732 | that is so if the block ends three bits or more before the end of its last byte, padded with zeros, and the halves of the checksum are not complements |
| Gzip.GzipReader.Recording | gsip/internal/gzip/gunzip.go:285-316 | the checkpoints sent are in the order of the output; one at the end of a member is more than a span after the one before it and followed by the one at the start of the next, at the same position, and in a file of one member stands right before its trailer |
| Readers.ReadAll | gsip/internal/gzip/gunzip.go:340-383 | reading a file to its end gives all of its output exactly if the file is good, and a part of it otherwise |
| WrittenFiles.BlockReads | gsip/internal/flate/inflate.go:391-422 | a stored, fixed or dynamic block written is decoded to its text |
| WrittenFiles.StreamReads | gsip/internal/flate/inflate.go:391-444 | blocks written one after the other, the last one marked, are decoded to their text, and decoding stops behind them |
| WrittenFiles.StreamWritten | gsip/internal/flate/inflate.go:391-444 | any stream that is decoded has been so written |
| WrittenFiles.GoodIff | gsip/internal/gzip/gunzip.go:340-383 | a file ends well exactly if it is members one after the other, each with its header, blocks, checksum and size, and its output is their texts |
| WrittenFiles.Unzip | gsip/internal/gzip/gunzip.go:340-383 | reading a file to its end succeeds exactly for those files, and gives their texts |
| Examples.DynamicDecodes | gsip/internal/flate/inflate.go:456-564 | a dynamic block given byte by byte, with all kinds of repeats and a match of 258 bytes, and its text |
| Examples.LetterReads | gsip/internal/gzip/gunzip.go:340-383 | the gzip file of one letter, given byte by byte, with its checksum |
| Examples.CodeOfLetters | gsip/internal/flate/inflate.go:231-247 | the example of section 3.2.2 of RFC 1951 |
| Concatenation.Concatenated | gsip/internal/gzip/gunzip.go:340-383 | the output of a good file followed by any other is the outputs one after the other, and it ends well exactly if the other one does |
| Embedding.RunMoved | gsip/internal/flate/inflate.go:391-422 | decoding does not depend on where the stream stands in a file, nor, if it ends, on what follows |
| Readers.ReadView | gsip/internal/gzip/gunzip.go:340-383 | reading a gzip reader is the `Reads` step of the pool |
| Readers.ReadFrontier | gsip/internal/gzip/gunzip.go:340-383 | reading the first reader is that step, and the log of its checkpoints grows by the `LogStep` the pool assumes |
| Readers.OpenFrontier | gsip/gsip.go:54-91 | the first reader stands at the start of the file with one checkpoint sent, as the pool assumes |
| Readers.FirstPass | gsip/gsip.go:54-91 | opening the first reader and reading it to its end gives a good file, and a log of checkpoints that is complete |
| Readers.OpenAt | gsip/gsip.go:153-164 | a reader that continues from a checkpoint stands at its position and has what remains from there to deliver, as the pool assumes |
| Readers.LogOfReader | gsip/internal/flate/inflate.go:780-795 | the checkpoints of a good file are ordered; those not at the end of a member have the rest of the plaintext to deliver; those that are stand more than a span after the one before; in a file of one member the last is at the end of the output |
| Readers.EndsFailOnTrailers | gsip/internal/flate/inflate.go:1023-1049 | if no block starts after the ends of members, the checkpoints taken there have nothing to deliver |
| Pool.Scan | gsip/gsip.go:109-117 | the scan that stops at the first checkpoint past the position finds the last one that is not |
| Pool.NextKeeps | gsip/gsip.go:93-204 | every step of every call, reader, goroutine and `Wait` keeps the invariant, in any order |
| Pool.OneCallPerReader | gsip/gsip.go:99-105 | no reader is used by two calls at once, and none in use is idle in the pool |
| Pool.ReadAtIsSlice | gsip/gsip.go:178-204 | a call inside the plaintext whose reader has the plaintext to deliver does not fail on it and returns exactly the slice, cut off at the end with EOF, whatever other calls do |
| Pool.PickedIsGood | gsip/gsip.go:109-117 | a checkpoint picked has the rest of the plaintext to deliver, or was taken at the end of a member and is the last one received |
| Pool.GoesAstrayIff | gsip/gsip.go:109-117 | a call picks a checkpoint it cannot continue from exactly if the last one received is at the end of a member before the end of the file and not past the position |
| Pool.GuardedSlices | gsip/gsip.go:178-204 | if that is never so when a call picks, every call that has ended returned its slice, or found nothing to read from |
| Pool.IdleReaderDelivers | gsip/gsip.go:99-105 | in a run without such a pick, an idle reader inside the plaintext next delivers the plaintext at its `Offset`, without an error |
| Pool.OneMemberSlices | gsip/gsip.go:178-204 | in a file of one member it never is |
| Pool.DecodedAnswers | gsip/gsip.go:40-52 | in a pool decoded from an index no call inside the plaintext fails, and each returns its slice |
| Pool.ScannedAnswers | gsip/gsip.go:207-213 | a first pass returns the file in order; once it is over and `Wait` has returned, no call inside the plaintext fails, and each returns its slice |
| Pool.WaitCollectsAll | gsip/gsip.go:207-213 | when `Wait` returns after the file has been read, the list holds every checkpoint there is, and stays so |
| Astray.NeverCorrect | gsip/gsip.go:153-204 | a call for any bytes inside the plaintext that continues from a checkpoint with nothing to deliver returns none of them or fails, in every run |
| Astray.ChoiceDecides | gsip/gsip.go:109-204 | where no block starts after the end of a member, a call for any bytes that continued from a checkpoint and has ended got them exactly if, when it picked, the last checkpoint received was not at the end of a member before its position |
| Astray.CallGoesAstray | gsip/gsip.go:109-117 | for every plaintext and every end of a first member more than 1<<22 after the start: a call that ends in the window before it, then a call for any bytes after it, which fails or returns nothing |
| Astray.IndexAnswers | gsip/gsip.go:32-52 | every call inside the plaintext on a pool decoded from an index made of the checkpoints received so far gets its slice, if there are any and the last is not at the end of a member before the end of the file |
| Astray.IndexAnswersIff | gsip/gsip.go:32-52 | all runs of the pool so decoded answer all calls exactly in that case, where no block starts after the end of a member |
| AnyFile.ReadAtIsPart | gsip/gsip.go:178-204 | on any file, what a call returns is the part at its position of what its reader has to deliver; it is short only if the reader has stopped there |
| AnyFile.EofIsNotTheEnd | gsip/gsip.go:191-200 | on a file that is not good, an EOF of a call on the first reader means that the reader stopped because its data ran out |
| AnyFile.TruncatedLooksEnded | gsip/gsip.go:191-200 | a run in which that happens, for any output before the truncation |
| AnyFile.FailedReaderIsLost | gsip/gsip.go:137-139 | a reader on which a call has failed is never idle or in use again, in any run on any file |
| CodeLengths.MakeItems | gsip/internal/flate/huffman_code.go:157-224 | the loop over levels ends, never leaves its arrays, uses all n symbols at the top level, and its items there are the sum over the row of leaf counts |
| CodeLengths.BitCounts | gsip/internal/flate/huffman_code.go:132-242 | every symbol gets a length, none longer than the limit, and the Kraft sum is exactly 1; no other lengths within the limit with a Kraft sum of at most 1 cost less |
| PackageMerge.NoCheaper | gsip/internal/flate/huffman_code.go:132-242 | the first 2 n - 2 items of the top level cost no more than any code within the limit |
| PackageMerge.ClampedFits | gsip/internal/flate/huffman_code.go:140-144 | a code for n symbols is still one when its lengths are cut off at n - 1 bits |
| Encoder.ReverseBitsIs | gsip/internal/flate/huffman_code.go:343-345 | shifting and reversing 16 bits reverses the code |
| Encoder.AssignEncodingAndSize | gsip/internal/flate/huffman_code.go:246-266 | each symbol gets the next code of its length, in the order of symbols within a length; the others are left alone |
| Encoder.CodesAreCanonical | gsip/internal/flate/huffman_code.go:246-266 | the codes so assigned are the canonical codes of their lengths, reversed |
| Encoder.Generate | gsip/internal/flate/huffman_code.go:272-308 | exactly the symbols that occur get codes, none too long, canonical, and such that the decoder accepts their lengths; no other code within the limit costs less, and no symbol has a longer code than a rarer one; one or two symbols get one bit each |
| Encoder.BitLength | gsip/internal/flate/huffman_code.go:106-114 | the cost computed is the sum of frequencies times lengths that `Generate` makes least |
| RoundTrip.ReadsBack | gsip/internal/flate/huffman_code.go:246-266 | the code written for a symbol is read as that symbol |
| RoundTrip.DecodeSymbols | gsip/internal/flate/inflate.go:819-859 | any sequence of symbols written with a generated code is decoded back by `huffSym` from the tables built of its lengths |
| Links.OpenIsChain | tarfs/tarfs.go:189-241 | opening with some hops left comes to what that many rewriting steps come to, or to an error if they have not arrived |
| Links.OpensIff | tarfs/tarfs.go:184-241 | a name opens as an entry exactly if at most 255 rewriting steps lead to it |
| Links.Normalized | tarfs/tarfs.go:452-456 | a name is listed under itself, however it is written: with a slash or `./` before it, or a slash behind |
| Links.LinkedDirFirst | tarfs/tarfs.go:172-209 | the directory on the way that is rewritten is the first one that is a symbolic link |
| Links.RelativeLinkOpens | tarfs/tarfs.go:224-231 | a relative symbolic link opens as the file its target leads to from its directory |
| Links.AbsoluteLinkOpens | tarfs/tarfs.go:224-231 | an absolute one opens as the file behind the slash |
| Links.HardLinkOpens | tarfs/tarfs.go:224-231 | a hard link opens as the file of its target, however that is written |
| Links.LinkedDirOpens | tarfs/tarfs.go:197-214 | a name below a linked directory opens as the file in the directory linked to |
| Links.HopsDoNotMatter | tarfs/tarfs.go:189-241 | the result does not depend on the hops left, unless they run out |
| Links.CyclesNeverOpen | tarfs/tarfs.go:190-192 | a name whose links lead back to it fails for too many hops |
| Tarfs.FS.OpensFile | tarfs/tarfs.go:244-254 | `.` opens as the root itself; any other name as an entry of the table that is no link |
| Tarfs.FS.New | tarfs/tarfs.go:293-377 | the index leads to the last entry of each name, the root is the last entry for `.` or made up, and directories are sorted |
| Tarfs.FS.HeaderOpens | tarfs/tarfs.go:320-353 | the last header of a name, however it is written there, is found under the name, and opened if it is no link |
| Tarfs.FS.RootOpens | tarfs/tarfs.go:331-351 | the last header for the root is what opens as the root, and the root is not listed in itself |
| Tarfs.LessFirstDiffers | tarfs/tarfs.go:371-373 | names are compared at the first character in which they differ, and a name comes before those it begins |
| Tarfs.FS.Decode | tarfs/tarfs.go:397-446 | likewise, from a table of contents |
| Tarfs.Rebuild | tarfs/tarfs.go:397-446 | a file system decoded from the table of contents of another is that one, up to the order of equal names in a directory |
| Tarfs.DirsPartition | tarfs/tarfs.go:355-374 | the directories partition the entries, each as often as it occurs |
| Tarfs.File.ReadDir | tarfs/tarfs.go:97-125 | lists the next part of the directory, with EOF exactly at its end for a positive count |
| Tarfs.FS.LookupIsLast | tarfs/tarfs.go:379-387 | of the entries of a name, the last one is found |
| Tarfs.ListAll | tarfs/tarfs.go:97-125 | calls with any positive counts list the directory once, in order, as far as the counts go; EOF exactly if a call comes after the last entry |

## Left out

- CodeLengths.BitCounts: requires the top level times the sum of the frequencies to stay below MaxInt32, which is
  enough for no sum to reach it but not necessary.
- CodeLengths.MakeItems: the same bound.
- Encoder.Generate: the same bound, for three symbols or more.
- HuffmanTable.HuffmanDecoder.Init: refuses a bad length vector, where the Go code panics because its `sanity` is on.
- Inflate.Decompressor.Read: when the stream is bad, does not say how much more the machine would write: a raised
  `min` can stop the decoder before the last symbols that are there.
- Gzip.GzipReader.Read: which of the errors of a header or trailer is returned.
- Gzip.GzipReader.Open: `gzip.Continue` with a channel for further checkpoints is not modelled; its one caller
  (gsip.go:161) passes none.
- Gzip.ContinuesAtTrailer: what a reader delivers where the trailer happens to start a block is not described.
- Astray.CallGoesAstray: the plaintext and the end of the member are any; no file of more than 1<<22 bytes of output
  is written out byte by byte.
- Safety only: that calls end is not proved for the pool (`Skip` and `Fill` may be repeated as long as bytes come).
- The pending bits `b`, `nb` and `roffset` are fields of a `BitReader`, the Huffman decoders and their scratch
  fields of `HuffmanCodes`; in Go all are fields of the decompressor. `toRead` is a range of the window.
- The second-level tables are sequences, not slices updated in place; `chunks` is an array.
- The sorts of the standard library are modelled as insertion sorts; sorting by symbol and by frequency order as
  the Go comparisons do.
- `Reset` makes a new decompressor object in place of the old one.
- The channel holds any number of checkpoints, so sending never blocks; sending on a closed one, which panics in
  Go, is a step that cannot be taken.
- Integer widths: `uint32` pending bits and `int64` positions are natural numbers with the bounds proved where
  they matter (less than 24 pending bits); a size field is taken modulo 2^32.
- `Multistream(false)`, header texts and times, `bufio` read-ahead, sections of files: the input is a sequence
  with a position. A storage failure is an end of input with another error.
- `path.Dir` and `path.Join` are parameters; `path.IsAbs` and `normalize` are modelled.
- JSON, the parsing of tar headers, `Lstat`, `ReadLink`, `Index`, the HTTP ranger and the command line.
