# DEFLATE core: encoder, decoder and match finders

A Dafny model of the entropy-coding core of a DEFLATE library (section 3 of RFC 1951) and of the match
finders that feed it, with proofs. What the source changes in place is changed in place here: the sorting
and tree arrays of the Huffman construction, the decoder's tables, the bit writer's accumulator and buffer,
the token buffer with its histograms, the block writer with its open block and header cache, the ring-buffer
history, the resumable decoder, and the windows and hash tables of the match finders are classes and arrays,
each method proved against a function of values. Machine words are natural numbers with their width written
out; bit streams are sequences of bits, least significant first.

The layers, each with its main results:

- **Canonical codes** (`Canon`): what a vector of code lengths means, once, for encoder and decoder.
- **Huffman construction** (`HuffmanTree`, `HuffmanOptimal`, `HuffmanHeight`, `HuffmanLengths`, `HuffmanSort`,
  `HuffmanCode`, `HuffmanEncoder`, `HuffmanLimit`): counting sort, two-queue tree in place, depth pass with
  clamping, canonical words. The result is complete, canonical, monotone in frequency, and of minimum cost over
  all prefix codes exactly if the tree is within the limit.
- **Decoder tables** (`DecoderTable`, `HuffmanDecoder`, `BitReader`, `StaleTables`): acceptance is exactly
  completeness (or a single 1-bit code), and looking up with unread bits finds the symbol without reading a
  byte too many.
- **Bits and tokens** (`Lz`, `LzCodes`, `Format`, `Tokens`, `TokenBuffer`, `BitWriter`): every flush
  discipline appends exactly the bits it should.
- **Headers and blocks** (`Codegen`, `Header`, `Blocks`, `Trim`, `HuffmanCodes`, `HeaderWriter`, `BlockSize`,
  `LiteralChoice`, `WriterState`, `BlockWriter`, `HeaderReplay`, `LostFinal`, `WriterRun`): headers and blocks
  read back; the block writer keeps, over any calls and any streams, that what it emitted decodes to what it
  was given, with the header cache coherent; a replayed header is bit for bit the one written anew.
- **Decoder** (`DictDecoder`, `InflateSpec`, `ReadSpec`, `ReadAgrees`, `HeaderReader`, `TokenReader`, `Inflate`,
  `RoundTrip`, `Truncated`, `CutStream`, `KnownStream`): on any input whatever, the step machine gives, for any read
  sizes, the bytes and then the error that `ReadSpec.StreamOf` gives for it; that is what the format says exactly on
  streams; and a stream cut short gives a beginning of its data and the end of the input.
- **Fast match finders** (`MatchLen`, `Covering`, `FastGen`, `FastLog`, `FastMatch`, `Level1`, `Level6`): tokens
  expand to exactly the input, whatever the hash tables hold. The tables, with their position counters, rebasing,
  resets and moving window, keep a log of the positions stored, and the tokens are exactly those of a reference match
  finder that looks up in the log.
- **Lazy match finder** (`LazyMatch`, `HashChains`, `Lazy`): the same covering; over every run the hash chains hold
  exactly the hashed positions with the same hash, newest first, so a search tries the most recent of them in reach;
  and each step takes or holds the match that this search and the end of the held match decide.
- **Whole compressors** (`FastCompress`, `EndToEnd`, `SmallBlocks`, `SmallStream`, `DictStored`): what is
  written to a compressor of level 1, 6 or 7 to 9, flushed anywhere, comes out of the decompressor, and exactly
  when it does not.

## Where the code does not do what is said of it

Each of these is stated exactly: a failing input, and the condition under which the code is right.

- An all-zero length vector leaves earlier tables in place, so lookups succeed where the comment at
  `inflate.go:741-744` says they fail: all fail exactly if no vector with a code was accepted before
  (`HuffmanDecoder.Decoder.AllFail`), and a match is decoded with a distance that the format does not give
  (`StaleTables.StaleMatch`).
- The generic reader reports a clean end of input when the input is cut off inside the extra bits of a length,
  a fixed distance or the extra bits of a distance. On any input, apart from the end of a final block, it is reported
  exactly if decoding stops at such a token (`ReadAgrees.StreamEof`, `Inflate.Decompressor.Read`); two bytes for
  which it is (`CutStream.CutStreamIsCutOff`, `CutStream.ReadCutStream`).
- With `eof`, `writeBlockHuff` may continue a block opened as not final. It does exactly if
  `LiteralChoice.Continuing` holds before the call, and then the stream has no final block
  (`LostFinal.EndWithLiterals`); 4096 zero bytes written twice are an input (`LostFinal.ZerosTwice`).
- `generate` keeps to the limit but is not always minimum-cost under it: counts 1,1,1,6,8,10,46,53,90 with
  limit 7 (`HuffmanLimit.LimitCosts`). It is minimum-cost over all prefix codes exactly if the tree is within
  the limit (`HuffmanEncoder.GenerateOptimal`).
- At levels 7 to 9 the first block after a preset dictionary is given the dictionary along with its data; if
  the size comparison then chooses to store it, the dictionary is emitted as data. The output is right exactly
  if that does not happen (`EndToEnd.LazyStream`); with the dictionary 7 and every byte value once, it does
  (`DictStored.DictStored`).
- A full window of 1 to 12 bytes (a block size that small is documented as legal) is written from stale
  tokens, and comes out as zeros. The output is right exactly if those bytes are zero
  (`SmallStream.SmallStream`, `SmallStream.RightExactly`, `SmallStream.OneByteLost`).
- A preset dictionary longer than a block is encoded into a token buffer made for a block. At levels 1 and 6 it
  overruns exactly if the level finds more tokens in the dictionary than the block size and one
  (`EndToEnd.FastStream`), which it does in none of which at most a block counts; 4096 zero bytes before blocks of 13
  overrun (`EndToEnd.LongDictionary`).
- A store in the level 1 match finder is unreachable (`Level1.FastEncL1.MatchOnce`).

## Model

| member | source | states |
|---|---|---|
| `Words.AppendBits` | flate/huffman_bit_writer.go:232-234 | Shifting a field of m bits left by n and OR-ing it onto n occupied bits gives, within 64 bits, exactly the n bits followed by the m bits. |
| `Canon.CodeFits` | flate/huffman_fast.go:196-211 | In a code that fits (Kraft sum at most 1) every canonical code value fits in its length, so no code word is cut off when it is stored reversed. |
| `Canon.PrefixFree` | flate/huffman_fast.go:181-212 | The canonical code of section 3.2.2 of RFC 1951 is prefix-free: one code word starts another only if they are the same symbol's. |
| `Canon.FindSymbol` | flate/inflate.go:158-176 | In a complete code every bit string of full width starts with some code word. |
| `Canon.DecodeEncode` | flate/huffman_code.go:53-59 | Decoding the code word of a symbol gives the symbol back, whatever bits follow. |
| `Canon.CanonEmits` | flate/huffman_code.go:21-55 | A packed code word holding the canonical code bit-reversed writes the code most significant bit first; it is zero exactly for a symbol without a code. |
| `HuffmanEncoder.InsertionSort` | flate/huffman_fast.go:93-103 | The slice is sorted in place and holds the same words as before; the rest of the array is unchanged. |
| `HuffmanSort.PlacedOrder` | flate/huffman_fast.go:68-80 | After placing by counting, all slots below the saturated bucket are strictly ascending and come before that bucket, and no two slots hold the same entry. |
| `HuffmanSort.SpanSorted` | flate/huffman_fast.go:82-86 | Sorting only the saturated bucket leaves the whole array sorted by frequency and then by symbol. |
| `HuffmanEncoder.Encoder.SortSymbols` | flate/huffman_fast.go:43-88 | The first numUsed nodes are exactly the symbols in use, each once, packed, strictly ascending by frequency and then symbol; unused symbols lose their code words. |
| `HuffmanTree.MergeFrontier` | flate/huffman_fast.go:105-142 | Merging two least roots creates an internal node at least as heavy as every earlier one: the queue of internal nodes stays in order. |
| `HuffmanTree.TreeInv` | flate/huffman_fast.go:112-142 | The finished tree has ordered weights and parents, and every internal node has two children. |
| `HuffmanTree.MergeWeight` | flate/huffman_fast.go:118-136 | A merge keeps the total weight of the roots, which bounds every packed frequency (22 bits above the symbol). |
| `HuffmanEncoder.MergeOnce` | flate/huffman_fast.go:116-141 | One pass of the in-place loop is one merge of the two lightest roots: parents, weights and symbols share the words without overwriting what is still needed. |
| `HuffmanEncoder.BuildTree` | flate/huffman_fast.go:112-142 | The array afterwards lays out the two-queue Huffman tree of the sorted frequencies, parents above the untouched symbols. |
| `HuffmanLengths.ShorterInUse` | flate/huffman_fast.go:160-171 | With the Kraft equality and fewer code words than the longest length could number, some length from 1 up and below the limit is in use: the clamping search stops inside the array. |
| `HuffmanEncoder.Clamp` | flate/huffman_fast.go:165-171 | The clamped depth is the deepest length in use below the limit, and at least 1. |
| `HuffmanLengths.LeafOrder` | flate/huffman_fast.go:154-158 | Leaves of smaller weight are at least as deep: depths do not increase along the sorted symbols. |
| `HuffmanEncoder.ComputeLengthCounts` | flate/huffman_fast.go:148-179 | The counts are non-negative, at lengths 1 to maxLen only, number the used symbols and satisfy the Kraft equality exactly; when no internal node reaches maxLen they are the numbers of leaves at each depth. |
| `HuffmanLengths.RankIsDepth` | flate/huffman_fast.go:188-194 | Handing out lengths longest first gives every symbol its own tree depth when the counts are exact. |
| `HuffmanEncoder.Encoder.GenCodewords` | flate/huffman_fast.go:185-212 | Lengths for exactly the used symbols, never longer for a more frequent symbol, complete; and the stored code words are the canonical ones for these lengths. |
| `HuffmanEncoder.Encoder.OneBitCodes` | flate/huffman_fast.go:225-239 | One or two used symbols get 1-bit canonical codes, all others none. |
| `HuffmanEncoder.Encoder.Generate` | flate/huffman_fast.go:216-258 | For any frequencies with total below 2^22: lengths within the limit for exactly the used symbols, rarer never shorter, complete from two symbols on, the tree's depths when the limit does not bind, and canonical reversed code words. The working arrays hold frequency, parent and depth in turn. |
| `HuffmanEncoder.GenerateOptimal` | flate/huffman_fast.go:214-258 | The total cost is at most that of every prefix code for the same frequencies exactly if the tree is no higher than the limit. |
| `HuffmanHeight.LeastHeight` | flate/huffman_fast.go:105-142 | Of all lengths that cost as little as the two-queue tree, none has a shorter longest length: taking leaves first on equal weights gives the least height. So a limit below the tree's height rules out every optimal code. |
| `HuffmanHeight.TreeWords` | flate/huffman_fast.go:105-142 | There is a prefix code with the lengths of the tree: the optimum is reached. |
| `HuffmanEncoder.BuiltOnce` | flate/huffman_fast.go:216-258 | What generate builds is determined by the frequencies and the limit. |
| `HuffmanLimit.LimitCosts` | flate/huffman_fast.go:148-179 | A failing input for "minimum-cost length-limited code" (comment at 214; the comment at 19-24 is right): for counts 1,1,1,6,8,10,46,53,90 and limit 7, whatever is built costs 477 bits, and lengths 7,7,6,5,5,5,3,2,1 within the limit cost 474. |
| `HuffmanOptimal.TreeBeatsPrefixCodes` | flate/huffman_fast.go:105-142 | The two-queue tree has minimum cost among all prefix codes, proved by exchange against arbitrary sets of code words. |
| `HuffmanOptimal.TreeOptimal` | flate/huffman_fast.go:105-142 | The tree's depths cost no more than any lengths that satisfy the Kraft inequality. |
| `HuffmanOptimal.PrefixCodeFits` | flate/huffman_fast.go:105-142 | Kraft: the lengths of any prefix code satisfy the inequality, so the optimum is over all codes. |
| `HuffmanEncoder.GenerateAccepted` | flate/huffman_fast.go:225-257 | What generate builds for an alphabet in use is what the decoder's init accepts: complete, or a single 1-bit code. |
| `HuffmanDecoder.FullIffComplete` | flate/inflate.go:158-176 | The test on the code after the last one succeeds exactly if the Kraft sum of the lengths is 1. |
| `HuffmanDecoder.OneIffSingle` | flate/inflate.go:166-176 | The exception in that test is exactly the code of a single 1-bit symbol. |
| `HuffmanDecoder.Decoder.Init` | flate/inflate.go:116-279 | Accepts exactly the empty, the complete and the single 1-bit codes; on a non-empty accepted vector the tables decode it whatever they held before, and maxRead is the shortest length. On an empty or refused vector the tables are left as they were. |
| `DecoderTable.StoreShort` | flate/inflate.go:223-234 | Writing a short code's entries keeps all earlier symbols right and adds this one: each entry of the primary table is written for one symbol only. |
| `DecoderTable.StoreLong` | flate/inflate.go:235-251 | The same for a code longer than nine bits in its link table, so a reused link table never shows an old entry. |
| `HuffmanDecoder.Decoder.Build` | flate/inflate.go:178-252 | The chunk and link tables hold every symbol of the code and nothing else. |
| `DecoderTable.LookupFinds` | flate/inflate.go:762-767 | A lookup finds the symbol whose reversed code the bits start with, and its length, in the primary or a link table, whatever the higher bits are. |
| `HuffmanDecoder.Decoder.FindsNothing` | flate/inflate.go:768-777 | With a single 1-bit code, bits that start with no code find a zero entry. |
| `BitReader.EstimateIsLow` | flate/inflate.go:77-89 | Looking up with unread bits taken as zero gives a length no longer than that of the symbol the full bits start with, and one not read yet: no byte is read too early. |
| `BitReader.Reader.MoreBits` | flate/inflate.go:728-737 | One byte goes above the waiting bits; the bits to come are unchanged and at most 32 are ever waiting. |
| `BitReader.Reader.HuffSym` | flate/inflate.go:740-783 | On any bits, with the tables of any code accepted or of none, also those left from an earlier code: exactly what AskedSymbol gives, a symbol with the bits after it, the end of the input, or no code; an error takes no bits. No more bytes are taken than the code or maxRead needs. |
| `DecoderTable.LeftoverFinds` | flate/inflate.go:154-156 | Every lookup in tables made for a complete code succeeds, even with the link mask cleared as init clears it for an all-zero vector. |
| `DecoderTable.NothingFinds` | flate/inflate.go:741-744 | Every lookup in blank tables fails. |
| `HuffmanDecoder.Decoder.Leftover` | flate/inflate.go:116-156 | After init has accepted an all-zero vector, lookups go to what is left of the last code accepted that was not: they all fail if there was none, none fails if it was complete, and with a single 1-bit code those fail whose first bit is set. |
| `HuffmanDecoder.Decoder.AllFail` | flate/inflate.go:741-744 | What the comment promises of an all-zero vector, that every lookup fails, holds exactly if no vector with a code was accepted before. |
| `HuffmanDecoder.Decoder.LeftoverHolds` | flate/inflate.go:116-156 | A leftover code of lengths up to nine bits is read as that code. |
| `StaleTables.StaleMatch` | flate/inflate.go:116-156 | A failing input: after the distance code 1,1 and then the distance code 0, a match is decoded with distance 1, where the format has no distance to give. |
| `Lz.ExtendUnique` | flate/dict_decoder.go:99-104 | Byte-by-byte copying is the only extension in which each new byte repeats the one dist before it. |
| `Lz.ExpandFrame` | flate/fast_encoder.go:122-131 | What lies before the history does not change what tokens add to it: encoding against a moved window decodes against the whole stream. |
| `LzCodes.LengthCode` | flate/token.go:30-57 | A length lies in the range of its code and extra bits (section 3.2.5 of RFC 1951). |
| `LzCodes.LengthCodeIs` | flate/token.go:30-57 | A length has a code exactly if it lies in the code's range: the ranges fix the code, for every length. |
| `LzCodes.LengthTiling` | flate/huffman_bit_writer.go:36-51 | The ranges follow one another from length 3 on, each as wide as its extra bits give: eight codes with none, and then four with each of 1 to 5. |
| `LzCodes.LengthLast` | flate/token.go:30-57 | Length 258 alone has the last code, without extra bits. |
| `LzCodes.LengthOrder` | flate/token.go:30-57 | Codes rise with lengths. |
| `LzCodes.OffsetRange` | flate/token.go:387-401 | So does a distance, through the two halves of the offset table. |
| `LzCodes.OffsetCodeIs` | flate/token.go:387-401 | A distance has a code exactly if it lies in the code's range. |
| `LzCodes.OffsetTiling` | flate/huffman_bit_writer.go:53-92 | The ranges follow one another from distance 1 to 32768: four codes without extra bits, and then two with each of 1 to 13. |
| `LzCodes.OffsetOrder` | flate/token.go:387-401 | Codes rise with distances. |
| `Tokens.MatchFields` | flate/token.go:286-302 | Length, distance code and distance packed in a token come back from it. |
| `TokenBuffer.Buffer.AddLiteral` | flate/token.go:227-231 | The token is appended and the histograms stay exact counts of the symbols of all tokens. |
| `TokenBuffer.Buffer.AddMatch` | flate/token.go:286-302 | The same for a match token, in the length and the offset histogram. |
| `TokenBuffer.Buffer.AddMatchLong` | flate/token.go:306-331 | Appends the split of a long match, piece by piece, histograms exact. |
| `TokenBuffer.LongExpands` | flate/token.go:306-331 | The pieces, each 3 to 258 long, together copy what one copy of the whole length would, for every length from 3 on. |
| `TokenBuffer.LongAreTokens` | flate/token.go:306-331 | Every piece of the split is a well-formed token. |
| `TokenBuffer.Buffer.AddEOB` | flate/token.go:333-337 | Appends the end of block; requires fewer than 65535 tokens, since the count is 16 bits wide. |
| `TokenBuffer.Buffer.Reset` | flate/token.go:160-176 | Empties buffer and histograms, whatever the count was set to. |
| `TokenBuffer.EmitLiterals` | flate/token.go:219-225 | Appends one literal token for each byte. |
| `TokenBuffer.CountedSymbol` | flate/token.go:201-216 | Every token's symbol and distance code has a non-zero count. |
| `BitWriter.Sink.WriteOutBits` | flate/huffman_bit_writer.go:436-456 | From 48 to 64 waiting bits, six bytes move to the buffer and nothing that was emitted changes; all eight bytes of the store are inside the buffer, and a full buffer is handed on. |
| `BitWriter.Sink.WriteBits` | flate/huffman_bit_writer.go:232-238 | Appends exactly the field's bits; at most 47 bits wait afterwards and their value is below 2^nbits. |
| `BitWriter.Sink.WriteCode` | flate/huffman_bit_writer.go:426-433 | Appends exactly the code word. |
| `BitWriter.Sink.Flush` | flate/huffman_bit_writer.go:196-222 | Pads with zeros to a whole byte and hands everything on: the bytes out are the bits emitted. |
| `BitWriter.Sink.WriteBytes` | flate/huffman_bit_writer.go:240-260 | Appends whole bytes after the waiting ones; fails exactly when bits of an unfinished byte are waiting. |
| `BitWriter.Sink.FlushLocal` | flate/huffman_bit_writer.go:916-927 | The byte-granular flush keeps at most 7 bits and changes nothing that was emitted; the 8-byte store stays inside the buffer. |
| `BitWriter.Sink.EmitMatch` | flate/huffman_bit_writer.go:930-971 | Four fields above at most 7 waiting bits stay within 64 bits and append exactly the match's codes and extra bits. |
| `BitWriter.Sink.WriteTokens` | flate/huffman_bit_writer.go:870-979 | From any state with at most 47 waiting bits: appends exactly the bits of all tokens, and of the end of block if it comes last, and leaves a state of the same kind. |
| `BitWriter.Sink.WriteLiterals` | flate/huffman_bit_writer.go:1101-1178 | The three-at-a-time loop of the literal block appends exactly the code words of the bytes. |
| `Tokens.TokensAreItems` | flate/huffman_bit_writer.go:870-979 | Under canonical code words the bits written for tokens are those that section 3.2.5 of RFC 1951 gives the literals and matches they stand for. |
| `Format.ItemsRoundTrip` | flate/inflate_gen.go:1099-1292 | Reading a literal/match sequence and its end of block from the bits written for it gives it back, for any codes that fit. |
| `Codegen.GenerateCodegen` | flate/huffman_bit_writer.go:274-353 | The run-length codes, written over the same array that the lengths are read from, expand to exactly the two length vectors and end in the marker; the frequencies count them; and they are a function of the lengths. |
| `Codegen.CodegenOfRun` | flate/huffman_bit_writer.go:297-346 | A run that is as long as it can be is coded by itself, after what is in front of it. |
| `Codegen.EmitRun` | flate/huffman_bit_writer.go:306-346 | A run of n lengths is coded as RunCode gives it, in at most n places, so unread lengths are never overwritten. |
| `HeaderWriter.Codegens` | flate/huffman_bit_writer.go:355-361 | No code length code after the ones counted is in use, and the last counted one is, above the minimum of four. |
| `HeaderWriter.HeaderSize` | flate/huffman_bit_writer.go:363-373 | The size computed from the frequencies is the exact number of bits that the header and the block opening take. |
| `HeaderWriter.WriteDynamicHeader` | flate/huffman_bit_writer.go:463-502 | Appends exactly the opening and the header of section 3.2.7 of RFC 1951 for what was coded. |
| `Header.OrderOf` | flate/huffman_bit_writer.go:96 | The place of a code length code in the header, in closed form: 16, 17, 18, 0 come first, and then 8 and up alternate with 7 and down. |
| `KnownStream.KnownHeaderWritten` | flate/huffman_bit_writer.go:463-502 | An anchor in literal bits: the header of the stream 0cc2010d... of flate_test.go is what is written for its two length vectors. |
| `KnownStream.KnownHeaderRead` | flate/inflate.go:464-597 | And it is read to these vectors. |
| `Header.HeaderRoundTrip` | flate/inflate.go:464-560 | Reading back what is written for a header gives the same literal and distance length vectors and the rest of the bits. |
| `Header.SetLensBack` | flate/huffman_bit_writer.go:480-483 | The code length code survives leaving out the lengths after the last one in use. |
| `Trim.TrimCanon` | flate/huffman_bit_writer.go:829-851 | Leaving off unused symbols at the end of an alphabet does not change anyone's code word. |
| `HuffmanCodes.GenerateFixedLiteralEncoding` | flate/huffman_code.go:70-98 | The table of fixed code words is the canonical code of section 3.2.6 of RFC 1951. |
| `HuffmanCodes.GenerateFixedOffsetEncoding` | flate/huffman_code.go:100-107 | So is the table of fixed distance codes. |
| `HuffmanCodes.ReverseBitsIs` | flate/huffman_code.go:57-59 | Reversing a code of n bits through a 16-bit word is reversing its n bits. |
| `HuffmanCodes.BitLength` | flate/huffman_code.go:112-120 | The size of data with these counts under this code. |
| `HuffmanCodes.CanReuseBits` | flate/huffman_code.go:131-143 | That size exactly if every counted symbol has a code, and the largest value otherwise. |
| `HuffmanCodes.Histogram` | flate/huffman_code.go:174-184 | Each count is raised, in 16 bits, by the number of such bytes, from whatever it was. |
| `HuffmanCodes.HistogramSplit` | flate/huffman_code.go:186-207 | The same by four strands and the odd bytes: together they count every byte once. |
| `Blocks.BlockRoundTrip` | flate/huffman_bit_writer.go:463-552 | Each kind of block reads back as its final bit, its content and the bits after it. |
| `Blocks.StreamRoundTrip` | flate/huffman_bit_writer.go:131-148 | A sequence of blocks whose last is the only final one decodes, over any history, to what its blocks stand for, and stops at the bits after it. |
| `InflateSpec.StreamRemains` | flate/inflate.go:585-594 | A stream takes at least ten bits: the reason for reading ten bits more ahead in a block that is not final. |
| `WriterState.CloseBlock` | flate/huffman_bit_writer.go:635-652 | The end-of-block code turns the open block into a finished one without changing what the stream stands for. |
| `WriterState.AddItems` | flate/huffman_bit_writer.go:131-148 | Code words of more items extend the open block in place. |
| `WriterState.ListIsBody` | flate/huffman_bit_writer.go:870-979 | Tokens whose counted symbols all have codes write exactly their items into the block. |
| `BlockWriter.MakeGlobals` | flate/huffman_code.go:109-110 | The two fixed tables and the offset encoder for literals only (981-990 of huffman_bit_writer.go) can be built as the writer needs them. |
| `BlockWriter.NewWriter` | flate/huffman_bit_writer.go:150-158 | A new writer satisfies the invariant: nothing written, no block open. |
| `BlockWriter.Writer.CloseOpen` | flate/huffman_bit_writer.go:507-516 | The end of block is written exactly if one is owed (lastHeader > 0), and then none is. |
| `BlockWriter.Writer.Flush` | flate/huffman_bit_writer.go:196-222 | Whatever was open is finished, and all bits are out as whole bytes. |
| `BlockWriter.Writer.WriteStoredHeader` | flate/huffman_bit_writer.go:507-534 | The empty final block becomes a fixed one; otherwise the opening of a stored block is written up to its lengths, padded to the byte. |
| `BlockWriter.Writer.WriteStored` | flate/huffman_bit_writer.go:520-534 | Header and bytes are one stored block with exactly these bytes. |
| `BlockWriter.Writer.WriteFixedHeader` | flate/huffman_bit_writer.go:536-552 | Closes what is open and opens a block with the fixed code. |
| `BlockWriter.Writer.IndexTokens` | flate/huffman_bit_writer.go:821-852 | With tokens present, the frequencies are the histograms and the alphabets are cut after the last symbol in use; with none, both sizes are 0. |
| `BlockWriter.Writer.Generate` | flate/huffman_bit_writer.go:854-859 | Both codes are built and the cached header is dropped, as it no longer describes the tables. |
| `BlockWriter.Writer.BuildTables` | flate/huffman_bit_writer.go:745-756 | Tables that cover the tokens, with a header that declares exactly these tables. |
| `BlockWriter.Writer.CanReuse` | flate/huffman_bit_writer.go:167-194 | True exactly if the open block's code has a word for every symbol of the tokens. |
| `BlockWriter.Writer.AtStreamStart` | flate/warmtable.go:81-83 | Nothing waits and no block is open. |
| `BlockWriter.Writer.WarmUsable` | flate/warmtable.go:59-77 | True exactly if the cached header is valid, declares alphabets large enough, and its tables have a word for every symbol of the block. |
| `BlockWriter.WarmCovers` | flate/warmtable.go:53-77 | Tables found usable cover every token of the block. |
| `BlockWriter.Writer.CaptureHeader` | flate/warmtable.go:88-101 | The header is cached exactly if no byte of it has left the buffer, and the cached bits are a header for the tables at hand; otherwise the cache is unchanged. |
| `BlockWriter.Writer.ReplayHeader` | flate/warmtable.go:105-125 | Replaying emits the opening with this block's final bit and the header of the tables at hand, whatever final bit was captured. |
| `BlockWriter.Patched` | flate/warmtable.go:112-124 | Changing one bit, in the first byte or in the waiting bits, changes the final bit of the header and nothing else. |
| `HeaderReplay.ReplayIsFresh` | flate/warmtable.go:103-125 | Two writers at the start of a stream with the same code words: one replays its cached header, the other codes the same alphabets and writes the header anew. The buffered bytes, their number, the waiting bits and the bit count are the same afterwards, and nothing more has been handed on. |
| `HeaderReplay.BitsFixState` | flate/warmtable.go:81-101 | With whole groups of six bytes in the buffer, the bits emitted determine the buffered bytes and the waiting bits. |
| `HeaderWriter.StandardOnce` | flate/huffman_bit_writer.go:274-373 | The header is determined by the two length vectors it is written for. |
| `BlockWriter.HeaderBound` | flate/warmtable.go:39-51 | No header is longer than the cache and the buffer can hold. |
| `BlockWriter.Writer.PutTokens` | flate/huffman_bit_writer.go:131-148 | Tokens go into the open block; with an end of block they finish it. |
| `BlockWriter.Writer.WriteBlock` | flate/huffman_bit_writer.go:559-618 | One more block with this final bit, standing for the tokens, or for the given bytes where they are stored. Its form is the smallest by the sizes of the tokens: stored, with the fixed code (of fewer than 250 tokens), or with a code of its own. |
| `BlockWriter.Writer.WriteBlockDynamic` | flate/huffman_bit_writer.go:625-802 | Continues the open block, replays the cached header, builds tables, uses the fixed code or stores: what is added stands for the tokens, or is the given bytes exactly if the block is stored; no final block precedes the end, and sync or eof leaves no block open. With no block open and no header cached, the tokens and the length of the given bytes decide the form of the block, as the source compares sizes. Requires a token, sync or eof. |
| `BlockWriter.ChosenOnce` | flate/huffman_bit_writer.go:758-790 | That decision has one outcome: it depends on the tokens and the input only. |
| `BlockSize.ComputeSizes` | flate/huffman_bit_writer.go:376-412 | The sizes summed from code words and counts are the costs of the code and of the fixed code, with header and extra bits. |
| `BlockSize.ExtraBitSize` | flate/huffman_bit_writer.go:394-403 | The extra bits that lengths and distances with these counts take. |
| `BlockWriter.Writer.WriteBlockHuff` | flate/huffman_bit_writer.go:995-1185 | The input is added as literals, to the open block or a new one, or stored. It goes into the open block exactly if LiteralChoice.Continuing holds of the state before the call; then the block keeps the final bit that it was opened with, whatever eof asks for. |
| `LiteralChoice.Decided` | flate/huffman_bit_writer.go:1019-1088 | When a block of literals is stored and when it continues the open block: a header is open, the counts are not too even, the estimate is below the stored size and not below the size under the open code. The lengths for the estimate are the input's own. |
| `LiteralChoice.OwnOnce` | flate/huffman_bit_writer.go:1044-1049 | The input determines its own code, so the condition depends on nothing but the state before the call. |
| `LiteralChoice.QuickCheck` | flate/huffman_bit_writer.go:1020-1043 | The loop, which stops early, finds exactly the inputs of more than 1024 bytes whose squared differences from even counts sum to less than twice their length (in whole numbers, both sides times 65536). |
| `LostFinal.EndWithLiterals` | flate/huffman_bit_writer.go:1070-1088 | Asked for the end of the stream, the call writes no final block exactly if the open block takes the input in. |
| `LostFinal.SameAgain` | flate/huffman_bit_writer.go:1070-1088 | Input like that which the open code was made for continues the open block, unless it is stored. |
| `LostFinal.ZerosTwice` | flate/huffman_bit_writer.go:1070-1088 | A failing input: 4096 zero bytes, and 4096 zero bytes again with eof, leave a stream without a final block. |
| `BlockWriter.ReusedLiterals` | flate/huffman_bit_writer.go:1063-1076 | A code that can be reused by its counts has a word for every byte of the input. |
| `BlockWriter.Writer.SyncFlush` | flate/deflate.go:776-789 | An empty stored block ends the output on a whole byte, with all bytes handed on. |
| `BlockWriter.Writer.Close` | flate/deflate.go:892-907 | After any calls the bytes of the stream parse as blocks whose last is final and decode, over the dictionary, to everything written; the writer is then ready for another stream. |
| `BlockWriter.Writer.Reset` | flate/huffman_bit_writer.go:160-165 | A new stream starts with nothing waiting, and the header cache stays valid. |
| `WriterRun.Perform` | flate/huffman_bit_writer.go:131-148 | Every call keeps the invariant: lastHeader is non-zero exactly if a Huffman block is open with its end owed, the bits emitted are the blocks written, the cache describes the tables; and what the blocks stand for grows by the call's data, behind any bytes that were given in front of it and stored along. |
| `WriterRun.TookData` | flate/huffman_bit_writer.go:625-802 | A block whose tokens stand for a piece, given that piece with bytes in front of it: if it is stored, the bytes in front come before everything. |
| `WriterRun.RunStream` | flate/deflate.go:892-907 | Any sequence of block, stored and flush calls, with any dictionary and any header cache from earlier streams: the bytes decode to the concatenated data, after the bytes that were given in front of stored blocks. |
| `DictDecoder.Dict.Init` | flate/dict_decoder.go:40-57 | The ring holds the last bytes of a preset dictionary, nothing is pending, and there is room. |
| `DictDecoder.Dict.WriteSlice` | flate/dict_decoder.go:80-89 | What is stored and marked follows the history. |
| `DictDecoder.Dict.WriteByte` | flate/dict_decoder.go:94-97 | One more byte of history. |
| `DictDecoder.Dict.WriteCopy` | flate/dict_decoder.go:104-143 | As many bytes as there is room for are added, each equal to the one dist before it, across the wrap and with overlapping source. |
| `DictDecoder.Dict.TryWriteCopy` | flate/dict_decoder.go:151-169 | Either nothing or the whole copy, as byte-by-byte copying gives it; the whole copy whenever neither end wraps. |
| `DictDecoder.DoublingCopy` | flate/dict_decoder.go:131-141 | Copying a repeating end in growing pieces repeats with the original distance. |
| `DictDecoder.Dict.ReadFlush` | flate/dict_decoder.go:184-193 | Hands out exactly what was written since the last time; afterwards there is room and everything has been handed out. |
| `DictDecoder.Dict.AppendWindow` | flate/dict_decoder.go:173-179 | The last histSize bytes of the history, oldest first. |
| `DictDecoder.Dict.Decoded` | flate/dict_decoder.go:197-199 | The number of bytes decoded since init, dictionary excluded. |
| `HeaderReader.ReadCodeLens` | flate/inflate.go:492-505 | The code length code, in the order of the format, exactly if its bits are there. |
| `HeaderReader.ReadRun` | flate/inflate.go:526-572 | Exactly what RunOf gives, on any input: the run of the format, or the cause why there is none (cut off, nothing to repeat, too long, or a code above 18). |
| `HeaderReader.ReadLens` | flate/inflate.go:513-573 | Exactly what LengthsOf gives, on any input: all the lengths and the bits after them, or the error. |
| `HeaderReader.PlaceCodes` | flate/inflate.go:575-594 | Accepts exactly acceptable pairs of codes and puts them in the tables; as many bits are asked for at once as the end of the block has, or else the shortest code, and ten more in a block that is not final. |
| `HeaderReader.ReadHuffman` | flate/inflate.go:464-597 | On any input: the codes that HeaderOf gives are in the tables and exactly its bits are taken, without reading past what must follow, or the error is the one it gives. |
| `TokenReader.FixedDistance` | flate/inflate_gen.go:1191-1207 | Reversing five bits is decoding the fixed distance code. |
| `TokenReader.ReadDistance` | flate/inflate_gen.go:1189-1280 | On any bits, exactly the distance or the error that MatchOf gives; extra bits or five fixed bits that are not there are a plain end of input. |
| `TokenReader.ReadToken` | flate/inflate_gen.go:1099-1292 | On any bits, exactly the literal, match, end of block or error that TokenOf gives, its bits taken exactly (the error of a missing length or distance bit is passed on as it is at 1170, 1198 and 1266). |
| `ReadAgrees.CutIsEof` | flate/inflate_gen.go:1160-1268 | A token is a plain end of input exactly if the input ends inside the extra bits of a length, a fixed distance or the extra bits of a distance. |
| `ReadAgrees.StreamEof` | flate/inflate_gen.go:1160-1268 | Over whole runs, on any input: the end of the input is taken for the end of the stream exactly if decoding stops at a token that is cut off so. |
| `ReadAgrees.HeaderAgrees` | flate/inflate.go:464-597 | A header declares what section 3.2.7 of RFC 1951 says, and is one exactly if it says so, unless its code length code is empty. |
| `ReadAgrees.StreamAgrees` | flate/inflate.go:397-417 | What the decoder gives for a stream is what the format says; and whatever it gives the end for, without having read an empty code, is a stream. |
| `ReadSpec.StreamTakes` | flate/inflate.go:585-594 | Decoding only adds to the history, on any input, and what it takes for a stream has at least ten bits. |
| `ReadSpec.BodyTakes` | flate/inflate.go:585-594 | The bits asked for at once in a block are always there before the end of the stream. |
| `Truncated.StreamCut` | flate/inflate_test.go:45-72 | With whole bytes missing at the end of what the decoder takes for a stream: if all of it is still there it comes out the same; otherwise a beginning of it comes out, and the error is an end of input. |
| `Truncated.TruncatedStream` | flate/inflate_test.go:45-72 | The same of the streams of the format, for every cut; and the end is the plain one exactly in a token that is cut off as above. |
| `Truncated.ReadTruncated` | flate/inflate_test.go:45-72 | So it is read, in pieces of any sizes. |
| `CutStream.CutStreamIsCutOff` | flate/inflate_gen.go:1255-1268 | A two-byte input that is no stream, cut off inside a distance's extra bits, where the end of input is passed on as if the stream had ended there. |
| `CutStream.ReadCutStream` | flate/inflate_gen.go:1255-1268 | These two bytes, read in pieces of any sizes: no data, and a plain end of input. |
| `InflateSpec.BodySteps` | flate/inflate_gen.go:1099-1320 | Decoding a block item by item, suspended anywhere, gives what decoding it at once gives. |
| `Inflate.Decompressor.CopyHistory` | flate/inflate_gen.go:1301-1318 | A copy that fills the window is suspended with what is left of it; resumed, it gives the same bytes. |
| `Inflate.Decompressor.HuffmanReader` | flate/inflate_gen.go:1075-1320 | From a fresh or a suspended state, on any input, every step keeps what the rest of the input gives: its bytes, and the error that it ends with. |
| `Inflate.Decompressor.CopyData` | flate/inflate.go:650-671 | A stored block goes through the window in pieces, handed out when it is full; nothing is lost or repeated. |
| `Inflate.Decompressor.DataBlock` | flate/inflate.go:600-646 | The bits waiting from look-ahead and the bytes after them give the lengths and data of section 3.2.4 of RFC 1951. Fewer than four bytes are an unexpected end, a complement that is wrong is corruption, and neither adds data. |
| `Inflate.Decompressor.FixedBlock` | flate/inflate.go:352-395 | A fixed block starts with its codes in place; a leftover stateDict is harmless, since nothing is left to copy. |
| `Inflate.Decompressor.DynamicBlock` | flate/inflate.go:352-395 | The same after reading the header. |
| `Inflate.Decompressor.FinishBlock` | flate/inflate.go:673-697 | After the final block everything is handed out and the end reported; otherwise the next block follows. |
| `Inflate.Decompressor.Read` | flate/inflate.go:397-417 | On any input and for any sizes of reads: the bytes given so far are a beginning of those that StreamOf gives for the input; when an error is reported it is the one that StreamOf ends with, all the bytes have been given, and an end that is the stream's leaves exactly what follows it, fewer than eight bits of it read. |
| `Inflate.Decompressor.GivenIsPrefix` | flate/inflate.go:397-417 | The invariant behind it, over every reachable state. |
| `RoundTrip.FixedHuffmanDecoderInit` | flate/inflate.go:792-810 | The fixed tables decode the fixed code; seven bits are asked for at once. |
| `RoundTrip.NewReader` | flate/inflate.go:913-957 | A decoder starts at the beginning of the input, after the last 32768 bytes of the dictionary, with empty tables. |
| `RoundTrip.ResetReader` | flate/inflate.go:812-824 | A decoder used again starts so too, except that an empty code is read with what its tables still hold. |
| `RoundTrip.ReadAll` | flate/inflate.go:397-417 | Reading on in pieces of any sizes ends, on any input, with exactly the bytes and the error that it gives. |
| `RoundTrip.DecodeAny` | flate/inflate.go:397-417 | Any bytes, read to the end: what StreamOf gives for them; and of a stream its data and the plain end. |
| `KnownStream.KnownStreamRead` | flate/flate_test.go:187-345 | An anchor in literal bits: a stored and a dynamic block of the source's own test stand for the bytes abcabc. |
| `KnownStream.KnownStreamWritten` | flate/huffman_bit_writer.go:463-502 | And these blocks are written as the same bits. |
| `KnownStream.ReadKnown` | flate/flate_test.go:187-345 | And read, in pieces of any sizes, as these bytes. |
| `RoundTrip.EncodeDecode` | flate/deflate.go:892-907 | Everything given to the writer in any calls comes out of the reader, in reads of any sizes, with a dictionary of any length of which the last 32768 bytes count. |
| `MatchLen.FirstDifference` | flate/matchlen_generic.go:18-22 | The trailing zeros of the exclusive or of two loaded words, in bytes, are the number of equal leading bytes. |
| `MatchLen.MatchLength` | flate/matchlen_generic.go:14-34 | The length of the longest common prefix, eight bytes at a time and then one. |
| `MatchLen.BulkHash4` | flate/deflate.go:378-390 | The sliding word gives at each position the hash of the four bytes there. |
| `Covering.CappedAgreement` | flate/fast_encoder.go:174-192 | How long two positions agree, looking no further than 254 bytes. |
| `Covering.LongestAgreement` | flate/fast_encoder.go:196-212 | How long two positions agree. |
| `Covering.MatchExtends` | flate/level1.go:147-167 | Copying from a position that agrees gives the bytes that are there. |
| `Covering.CoversMost` | flate/level1.go:147-167 | Tokens cover no more than 258 bytes each. |
| `Covering.ExtendBack` | flate/level1.go:125-130 | Extending backwards keeps the match, stops at what is already emitted, and goes as far as it agrees. |
| `Covering.EmitMatch` | flate/level1.go:131-168 | Literals up to the match and the split match cover exactly the bytes up to its end. |
| `Covering.EmitRemainder` | flate/level1.go:207-214 | The rest follows as literals, unless no match was found at all. |
| `FastGen.History.constructor` | flate/fast_encoder.go:23-47 | A block of the given size and a full window always fit the capacity chosen. |
| `FastGen.History.AddBlock` | flate/fast_encoder.go:113-137 | The history ends with the block, after all or the last 32768 bytes of what was there, and is the end of everything appended so far; the buffer is allocated at most once and positions stay below 2^31 - 1. |
| `FastGen.History.Reset` | flate/fast_encoder.go:215-229 | The history is empty and the position base moved on, unless the next block will clear the table anyway. |
| `FastGen.PassesTest` | flate/level1.go:92-93 | A table entry that passes the distance test points at earlier history, never before or past it. |
| `FastGen.EntryBytes` | flate/level1.go:92-93 | An entry that passes the distance test denotes the bytes that were at its position when it was stored, whatever has been moved, dropped or appended since. |
| `FastGen.Put` | flate/level1.go:86-90 | Storing a position under a key changes that entry and no other, and marks it with its position in everything appended so far. |
| `FastGen.SoundMoved` | flate/fast_encoder.go:121-131 | Moving the window down keeps every entry harmless and, if in reach, at the absolute position where it was stored. |
| `FastGen.SoundReset` | flate/fast_encoder.go:224-228 | After a reset no old entry passes the distance test. |
| `FastGen.RebasedHarmless` | flate/level1.go:38-46 | Rebasing keeps an entry harmless, and one in reach denotes the same position. |
| `FastGen.Rebase` | flate/level1.go:37-48 | The loop rebases every entry; each stays harmless and in place. |
| `FastLog.WordKey` | flate/level1.go:82-113 | The hash of a loaded word, shifted or not, depends on the low four, five or seven bytes only: whichever word a position is hashed from, its key is the same. |
| `FastLog.KeyedStore` | flate/level1.go:88-96 | The table gives for each key the position stored last under it; a store keeps that. |
| `FastLog.MirrorRebased` | flate/level1.go:38-46 | Rebasing loses no position that could be reached from then on. |
| `FastLog.MirrorsMoved` | flate/fast_encoder.go:121-131 | Nor does moving the window. |
| `Level1.KeepsNear` | flate/level1.go:92-93 | Looking up in the table, counters and all, finds a candidate near enough exactly if looking up in the log does, and then the same one. |
| `Level1.FastEncL1.Search` | flate/level1.go:81-113 | Exactly the search of Probes: two positions at a time, in steps that grow, each looked up as the position stored last under its key and then stored; the first that agrees in four bytes at a distance below 32768 is found, and nothing only if none does. |
| `Level1.FastEncL1.MatchChain` | flate/level1.go:118-204 | Exactly the matches of Runs: each as long as it can be in both directions, the next at once if one starts where it ended; and the tokens keep covering the block. |
| `Level1.FastEncL1.MatchOnce` | flate/level1.go:169-204 | One of them, and what follows; the store at 176-179 is never made, its guard contradicting the branch it is in. |
| `Level1.ZerosHit` | flate/level1.go:81-113 | In zeros something is found at once: the position stored just before. |
| `Level1.FastEncL1.Encode` | flate/level1.go:18-215 | The tokens are exactly those of the reference match finder Encoded, from the data and the log of positions stored, whatever the counters, resets and rebasing were. With tokens afterwards, they expand over the history kept to exactly the block, all lengths 3 to 258 and distances 1 to 32768. A block under 13 bytes sets the token count and writes no token. |
| `Level1.FastEncL1.EntryHolds` | flate/level1.go:92-93 | At any time an entry in reach denotes the bytes that it was stored for. |
| `Level1.FastEncL1.Reset` | flate/fast_encoder.go:215-229 | After a reset the table is sound for an empty history, or will be cleared. |
| `Level6.FastEncL6.PickShort` | flate/level6.go:148-199 | The last distance at the next byte, and both long candidates at the next position, are taken exactly if they agree and for longer, in the order of OfShort. |
| `Level6.FastEncL6.Search` | flate/level6.go:93-202 | Exactly the search of Probes: at each position the last two stored under seven bytes come first, then the last one under four; and both tables are brought up to date. |
| `Level6.FastEncL6.CheckEnd` | flate/level6.go:215-247 | Both positions stored last under the key of what follows the match are tried, from two bytes into it, and taken exactly if the match from there is longer; positions are computed in 32 bits, and wrap-around is harmless. |
| `Level6.FastEncL6.TakeMatch` | flate/level6.go:208-313 | The match is measured, compared with those at its end, extended back and emitted exactly as Taken says, and the positions inside it are stored. |
| `Level6.FastEncL6.Encode` | flate/level6.go:11-325 | As for level 1: exactly the tokens of the reference match finder, from the logs of both tables, and they cover the block. |
| `Level6.FastEncL6.EntriesHold` | flate/level6.go:93-202 | At any time the entries in reach, of both tables, denote the bytes that they were stored for. |
| `Level6.FitsIn` | flate/level6.go:104-135 | An entry of the long table, both positions of it, is as good as the last two positions in the log, the test that skips both included. |
| `Level6.EndNone` | flate/level6.go:222-247 | When the first position at the end of a match is out of reach, skipping the second loses nothing. |
| `Level6.BestEndAgrees` | flate/level6.go:208-247 | What the end of a match gives is a match. |
| `Level6.FastEncL6.RebasePairs` | flate/level6.go:44-58 | Both entries of every bucket are rebased soundly. |
| `LazyMatch.FindLonger` | flate/deflate.go:270-312 | On the chain as it is, no match is reported exactly if no candidate repeats four bytes; otherwise the first candidate of the greatest length, or the first that is nice. The candidates are the positions on the chain, so many at most, down to the first position in reach. |
| `LazyMatch.BestOnce` | flate/deflate.go:270-312 | There is one such candidate. |
| `LazyMatch.FindWorthier` | flate/deflate.go:314-352 | The same by length and estimated gain together, for any estimate of literals: no candidate is both longer and worth more than the one taken. |
| `HashChains.ChainsStore` | flate/deflate.go:463-470 | Hashing the next position keeps the chains: each head denotes the last position with its hash, and each entry not overwritten the position before it with the same hash. |
| `HashChains.ChainsLonger` | flate/deflate.go:439-444 | So does more data; the positions passed over for good are those within the last three bytes of what was there before, up to index. |
| `HashChains.ChainsLowered` | flate/deflate.go:149-164 | So does lowering all entries. |
| `HashChains.ChainIsRecent` | flate/deflate.go:289-311 | Following a chain from a position gives exactly the positions with the same hash in front of it, newest first, as many as are tried and as far as they are in reach: no other hash, none missed, none overwritten. |
| `HashChains.NothingMissed` | flate/deflate.go:270-312 | If the chain was not cut short and what was found is not nice, no hashed position in reach repeats more bytes than were found. |
| `LazyMatch.ExtendOver` | flate/deflate.go:508-533 | The extension over the two skipped bytes is right, and what it does not reach is what is owed as literals. |
| `Lazy.Compressor.BetterEnd` | flate/deflate.go:491-507 | The position hashed last like the end of the held match, less its length, is tried exactly if it is well inside the window and not where the held match is; its match is taken exactly if it is longer from two bytes further on, extended back. |
| `Lazy.Compressor.LookForMatch` | flate/deflate.go:477-482 | A search is made exactly if the lookahead is longer than the held match and that is short of the lazy limit; it gives the best of the positions in reach that are hashed like index, newest first, or nothing if none repeats four bytes. |
| `Lazy.Compressor.TakePrevious` | flate/deflate.go:484-622 | The tokens added are literals for the bytes owed and the token of the match that EndTaken gives; index moves to its end, and tokens keep covering the data. |
| `Lazy.Compressor.HoldByte` | flate/deflate.go:623-680 | The byte held back is emitted and the next one held; after many in a row, exactly as many more are emitted as the source skips. With a byte held back, the tokens cover the data up to index - 1. |
| `Lazy.Compressor.Step` | flate/deflate.go:463-681 | One iteration does exactly what Steps says: the held match, or a longer one at its end, is taken exactly if at least four bytes are held and no longer match is found at index; otherwise the byte held is emitted and the match found is held. Tokens and what is held expand to exactly the data up to index. |
| `Lazy.Compressor.WriteBlock` | flate/deflate.go:173-185 | A block is handed over for exactly the piece its tokens cover; the bytes given along start at blockStart, if that is in the window. |
| `Lazy.Compressor.DeflateLazy` | flate/deflate.go:409-682 | Keeps all that; with sync everything is handed over, otherwise fewer than 262 bytes are left. |
| `Lazy.Compressor.FillDeflate` | flate/deflate.go:132-171 | Shifting the window and lowering the hash entries keep the invariant; the bytes taken follow the data. |
| `Lazy.Compressor.Append` | flate/deflate.go:167-171 | New bytes follow the data; the positions passed over are fixed at this moment. |
| `Lazy.Compressor.MoveHashes` | flate/deflate.go:145-166 | Lowered or not, the chains hold the same positions. |
| `Lazy.Compressor.Write` | flate/deflate.go:759-774 | All bytes are taken, in pieces, whatever shifts this needs. |
| `Lazy.Compressor.Close` | flate/deflate.go:892-897 | The blocks handed over cut the data after the dictionary into consecutive pieces, and each expands to its piece. |
| `Lazy.Compressor.FillWindow` | flate/deflate.go:234-264 | The dictionary is in the window, and blockStart is left in front of it. |
| `Lazy.Compressor.HashWindow` | flate/deflate.go:236-260 | All positions of the dictionary with four bytes are hashed, 256 at a time. |
| `FastCompress.CoveredMeans` | flate/deflate.go:741-752 | Tokens that cover a block after the history kept stand for it after all the data. |
| `SmallBlocks.TinySizes` | flate/huffman_bit_writer.go:745-790 | For a block of 1 to 12 bytes no token has been counted: the fixed code takes 15 bits, and neither a code of its own nor storing is smaller. |
| `SmallBlocks.WriteUncounted` | flate/huffman_bit_writer.go:625-802 | So it is written with the fixed code, and stands for the tokens that happen to be in the buffer, whatever its bytes are. |
| `SmallStream.SmallStream` | flate/deflate.go:717-907 | Levels 1 and 6 with a block size of 1 to 12 (legal by options.go:27-29): of what is fed between two flushes, the whole blocks come out as zeros and the rest as it was. |
| `SmallStream.RightExactly` | flate/deflate.go:717-755 | What comes out is what went in exactly if every byte of every block so written is zero. |
| `SmallStream.OneByteLost` | flate/deflate.go:717-755 | A failing input: with blocks of one byte, the byte 1 comes out as 0. |
| `FastCompress.Compressor.StoreFast` | flate/deflate.go:717-755 | A full window, or with sync any window, goes out as exactly one call: under 128 bytes stored or as literals without a search; otherwise the tokens are those of the level, and their number decides between stored, literals and tokens. |
| `FastCompress.Compressor.Write` | flate/deflate.go:759-774 | All bytes are taken; calls and window together stand for them. |
| `FastCompress.Compressor.FillWindow` | flate/deflate.go:220-228 | A dictionary of any length encoded and discarded is history, and nothing more, if its tokens fit in the token buffer. They overrun it exactly if they are more than the block size and one, and they are those that the level finds in it; never more when no more than a block of the dictionary counts, always when something is found in one longer than 258 times that. |
| `EndToEnd.FastStream` | flate/deflate.go:717-907 | Levels 1 and 6, any block size from 13 on, any dictionary, any writes and flushes, any read sizes: the output is the input, unless the tokens that the level finds in the dictionary by itself are more than the block size and one. |
| `EndToEnd.LongDictionary` | flate/deflate.go:1019-1023 | A failing input: with blocks of 13 bytes, a dictionary of 4096 zero bytes overruns the token buffer of 14 (token.go:143-151), at level 1 and at level 6. |
| `EndToEnd.LazyStream` | flate/deflate.go:409-907 | Levels 7 to 9 with any dictionary, for any search depths, writes, flushes and read sizes: the output is the input exactly if there is no dictionary or it was not stored along with the first block; otherwise it is the dictionary and then the input. |
| `EndToEnd.FrontsAre` | flate/deflate.go:173-185 | What is stored in front of data, over the whole stream, is the dictionary if the first block is given it and stored, and nothing otherwise. |
| `DictStored.DictStored` | flate/deflate.go:234-264 | A failing input: with the dictionary 7 and every byte value once as data, at any of these levels, what comes out is 7 and then the data. |
| `DictStored.LargeBlock` | flate/huffman_bit_writer.go:758-790 | With a code of their own, 256 different literals and the end of block take no less than the 2096 bits of 257 stored bytes. |
| `DictStored.StoredAnyway` | flate/huffman_bit_writer.go:785-790 | So that block is stored. |
| `EndToEnd.CallsFrom` | flate/deflate.go:173-185 | Blocks that cut the data into pieces become calls of the block writer, call for block; only the first may be given bytes in front of its piece, and then they are the dictionary. |

## Left out

- Levels 2 to 5 and the custom-window encoder: the argument of levels 1 and 6 again.
- `stateless.go`: the same match finder with 16-bit positions.
- Four of the five readers in `inflate_gen.go`: generated copies for other reader types.
- The store and Huffman-only compressors: each of their blocks is a call that `WriterRun` covers.
- The entropy estimate `EstimatedBits` in 32-bit floating point: the comparisons made with it, whether an open
  code or a cached one is good enough, are arbitrary (`Choice`), so nothing depends on how they come out. The
  sizes compared for a block with tables of its own, and all that `writeBlockHuff` decides, are computed exactly.
- The literal code built for the gain estimate of level 9: the literals' estimate is any function of their number, in
  `LazyMatch.FindWorthier`; the rest of the gain is computed.
- `io.Writer` and `io.Reader` errors, pools, `bufio` peeking: output and input are byte sequences.
- Checkpoints, callbacks and `roffset`.
- `zlib`, options plumbing, fuzz helpers, disabled branches and debug code.
- The history of the fast match finders and the pending input of the compressors are sequences, not slices of
  an array with spare capacity; the capacity is modelled as a number, aliasing with the caller's slices is not.
- The block writer and the compressors run one after the other here: the compressor's calls are recorded and
  then performed, which leaves out that they interleave.
- EndToEnd.LazyStream: whether the first block is stored is decided by its tokens and its bytes when the writer
  has no header cached; with one cached it may also be replayed, which depends on the entropy estimate.
- BlockWriter.Writer.WriteBlockDynamic: in the branch that writes a fixed block without sync, the late end of
  block is added to the list of tokens and not to the buffer, which is reset right after.
- BlockWriter.Writer.WriteBlockHuff: a nil input is not distinguished from an empty one.
- FastCompress.Compressor.FillWindow: the tokens of a dictionary longer than a block are counted in a buffer of
  their own, and compared with the room there is; the panic itself is the result `fits`, after which the stream is
  not begun.
- TokenBuffer.Buffer.AddEOB: requires room below 65535 tokens; the 16-bit count would wrap there.
- HuffmanEncoder.Encoder.Generate: requires a total frequency below 2^22, which the packing leaves room for,
  and at least three symbols in the alphabet, which the sorting indexes.
