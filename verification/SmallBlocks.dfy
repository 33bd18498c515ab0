/** Compressors with a block size of 1 to 12 bytes (levels 1 and 6). Encoding so short a block sets the
    token count to its size without writing tokens, and whatever the buffer held goes out instead. */
module SmallBlocks {
  import opened Words
  import opened Canon
  import HuffmanOptimal
  import opened HuffmanTree
  import opened HuffmanSort
  import opened HuffmanCode
  import opened HuffmanEncoder
  import opened Lz
  import opened LzCodes
  import opened Format
  import opened Tokens
  import opened TokenBuffer
  import opened Codegen
  import opened Header
  import opened BitReader
  import opened BitWriter
  import opened Blocks
  import opened Trim
  import opened HuffmanCodes
  import opened BlockSize
  import opened HeaderWriter
  import opened WriterState
  import opened BlockWriter
  import opened FastGen

  /** A buffer whose token count was set without counting or writing tokens. */
  ghost predicate Uncounted(t: Buffer)
    reads t, t.Repr()
  {
    t.Sized() && 0 < t.n < t.tokens.Length && t.Tallied([]) && AllTokens(t.Slice())
  }

  // ---------------------------------------------------------------------------------------------
  // Sizes when nothing is counted.
  // ---------------------------------------------------------------------------------------------

  /** At most an end of block. */
  predicate NothingCounted(ts: seq<nat>) {
    ts == [] || ts == [EOB_TOKEN]
  }

  lemma CountsNothing(ts: seq<nat>)
    requires NothingCounted(ts)
    ensures forall s :: s != END_OF_BLOCK ==> SymbolCount(ts, s) == 0
    ensures NoMatches(ts)
  {
    if ts == [EOB_TOKEN] { assert ts[..0] == []; }
  }

  lemma {:induction false} CostZero(f: seq<nat>, l: seq<nat>)
    requires |f| == |l| && forall s :: 0 <= s < |f| ==> f[s] == 0
    ensures HuffmanOptimal.Cost(f, l) == 0
  {
    if f != [] { CostZero(f[1..], l[1..]); }
  }

  /** A single count. */
  lemma CostSole(f: seq<nat>, l: seq<nat>, k: nat)
    requires |f| == |l| && k < |f| && f[k] == 1 && forall s :: 0 <= s < |f| && s != k ==> f[s] == 0
    ensures HuffmanOptimal.Cost(f, l) == l[k]
  {
    hide HuffmanOptimal.Cost;
    var a, b := f[..k], f[k + 1..];
    assert f == a + [f[k]] + b && l == l[..k] + [l[k]] + l[k + 1..];
    HuffmanOptimal.CostConcat(a + [f[k]], b, l[..k] + [l[k]], l[k + 1..]);
    HuffmanOptimal.CostConcat(a, [f[k]], l[..k], [l[k]]);
    HuffmanOptimal.CostOne(f[k], l[k]);
    CostZero(a, l[..k]);
    CostZero(b, l[k + 1..]);
  }

  lemma {:induction false} NoLengthExtras(lf: seq<nat>, k: nat)
    requires k <= 29 && END_OF_BLOCK + 1 + k <= |lf| && forall s :: END_OF_BLOCK < s < |lf| ==> lf[s] == 0
    ensures LengthExtras(lf, k) == 0
  {
    if k > 0 { NoLengthExtras(lf, k - 1); }
  }

  lemma {:induction false} NoOffsetExtras(of: seq<nat>, k: nat)
    requires k <= 30 && k <= |of| && forall c :: 1 <= c < |of| ==> of[c] == 0
    ensures OffsetExtras(of, k) == 0
  {
    if k > 0 { NoOffsetExtras(of, k - 1); }
  }

  lemma SmallestHeader(h: Hdr)
    requires GoodHdr(h)
    ensures |HdrBits(h)| >= 26
  {
    hide HLen, CodegenEmit, Fits, Acceptable, GoodCodegen, ExpandCodegen, UsedAll, CanonCodes;
    HdrSizes(h);
  }

  /** The fixed code takes 15 bits, and no other form is as small. */
  lemma TinySizes(ts: seq<nat>, z: Sizes)
    requires NothingCounted(ts) && FreshSizes(ts, true, z)
    ensures z.fixed == 15 <= z.dynamic
  {
    hide GoodHdr, Standard, HdrBits, OwnTable, HuffmanOptimal.Cost, LengthExtras, OffsetExtras, ValidFreq, SymbolCount;
    hide OffsetCount, NoMatches;
    var lf, of, a, b, lit, off, h :| FreshFrom(ts, true, lf, of, a, b, lit, off, h, z);
    CountsNothing(ts);
    SmallestHeader(h);
    OffsetNone(ts);
    NoLengthExtras(lf, 29);
    NoOffsetExtras(of, 30);
    FixedSizes();
    CostSole(lf[..LITERAL_CODES], FixedLit()[..LITERAL_CODES], END_OF_BLOCK);
    CostSole(of[..MAX_DIST_CODES], FixedOff()[..MAX_DIST_CODES], 0);
  }

  lemma OffsetNone(ts: seq<nat>)
    requires NoMatches(ts)
    ensures forall c :: 0 <= c < OFFSET_SLOTS ==> OffsetCount(ts, c) == 0
  {
  }

  // ---------------------------------------------------------------------------------------------
  // The block writer's path.
  // ---------------------------------------------------------------------------------------------

  /** Adds an end of block behind tokens that were never counted. */
  method AddRawEOB(t: Buffer)
    requires Uncounted(t) && t.n < MAX_BLOCK
    modifies t`n, t.tokens, t.extraHist
    ensures t.Sized() && t.n == old(t.n) + 1 && t.n <= t.tokens.Length && t.Slice() == old(t.Slice()) + [EOB_TOKEN]
    ensures t.Tallied([EOB_TOKEN]) && t.tokens[..] == old(t.tokens[..])[old(t.n) := EOB_TOKEN]
  {
    hide Counted, Sum, AllTokens;
    ghost var l, e, o, ts, all := t.litHist[..], t.extraHist[..], t.offHist[..], t.Slice(), t.tokens[..];
    CountEnd(l, e, o, []);
    SumStep(e, 0);
    assert [] + [EOB_TOKEN] == [EOB_TOKEN];
    t.tokens[t.n] := EOB_TOKEN;
    t.extraHist[0] := Wrap16(t.extraHist[0] + 1);
    t.n := t.n + 1;
    assert e[0] <= Sum(e) == 0 by { SumBounds(e, 0); }
    assert t.tokens[..] == all[t.n - 1 := EOB_TOKEN];
    assert t.Slice() == ts + [EOB_TOKEN] && t.extraHist[..] == e[0 := e[0] + 1];
    assert t.litHist[..] == l && t.offHist[..] == o;
  }

  /** The histograms, as the code construction gets them. */
  method IndexUncounted(w: Writer, t: Buffer, ghost counted: seq<nat>) returns (numLiterals: nat, numOffsets: nat)
    requires w.Ready() && NothingCounted(counted) && t.Sized() && t.Tallied(counted) && t.n > 0
    modifies w`literalFreq, w`offsetFreq
    ensures w.Ready() && Indexed(counted, true, w.literalFreq, w.offsetFreq, numLiterals, numOffsets)
  {
    hide Table, OpenOk, CacheOk, GoodGlobals, Separate, StateBits, GoodBlocks, GoodOpen, Stream, Pow2;
    hide HeaderOk, Indexed, Buffer.Tallied;
    CountedList(counted);
    numLiterals, numOffsets := w.IndexTokens(t, true, counted);
    IndexedSizes(counted, true, w.literalFreq, w.offsetFreq, numLiterals, numOffsets);
  }

  lemma CountedList(ts: seq<nat>)
    requires NothingCounted(ts)
    ensures TokenList(ts) && |ts| <= 1
  {
  }

  /** With codes for what was counted, the sizes. */
  method SizesUncounted(w: Writer, numLiterals: nat, numOffsets: nat, ghost counted: seq<nat>) returns (z: Sizes)
    requires w.Ready() && w.open == NoBlock && NothingCounted(counted)
    requires Indexed(counted, true, w.literalFreq, w.offsetFreq, numLiterals, numOffsets)
    modifies w`hdr, w`litLens, w`offLens
    modifies w.literalEncoding.Repr(), w.offsetEncoding.Repr(), w.codegenEncoding.Repr(), w.codegen, w.codegenFreq
    ensures w.Ready() && w.open == NoBlock && !w.hdr.valid && w.closed == old(w.closed)
    ensures z.fixed == 15 <= z.dynamic
  {
    hide Encoder.Repr, Writer.Base, Separate, StateBits, GoodBlocks, GoodOpen, Stream, Pow2, Indexed, HeaderOk,
         ExtraSize;
    hide Writer.OwnCodes, Writer.Prepared, FreshSizes, Standard, SizeIs, Writer.Declared;
    w.BaseParts();
    w.EncodersApart();
    var extra := ExtraBitSize(w.literalFreq, w.offsetFreq);
    ghost var n, h;
    var size, numCodegens;
    size, numCodegens, n, h := w.BuildTables(numLiterals, numOffsets, counted, true);
    w.PreparedParts(n, h, numLiterals, numOffsets, numCodegens, size, counted);
    z := w.Measure(counted, numLiterals, numOffsets, size, extra, h);
    assert w.ExtraFor(Some([]), extra);
    TinySizes(counted, z);
  }

  /** The checks made before the form is chosen. No header is cached, so none is replayed. */
  method MeasureUncounted(w: Writer, t: Buffer, ghost counted: seq<nat>) returns (z: Sizes)
    requires w.Ready() && w.open == NoBlock && !w.hdr.valid && w.Foreign(t)
    requires NothingCounted(counted) && t.Sized() && t.Tallied(counted) && 0 < t.n <= t.tokens.Length
    modifies w`literalFreq, w`offsetFreq, w`hdr, w`litLens, w`offLens
    modifies w.literalEncoding.Repr(), w.offsetEncoding.Repr(), w.codegenEncoding.Repr(), w.codegen, w.codegenFreq
    ensures w.Ready() && w.open == NoBlock && !w.hdr.valid && w.closed == old(w.closed) && t.n == old(t.n)
    ensures t.tokens[..] == old(t.tokens[..]) && z.fixed == 15 <= z.dynamic
    ensures w.literalEncoding == old(w.literalEncoding) && w.tmpLitEncoding == old(w.tmpLitEncoding)
  {
    hide Encoder.Repr, Writer.Base, Separate, StateBits, GoodBlocks, GoodOpen, Stream, Pow2, Indexed, HeaderOk;
    hide Buffer.Tallied;
    w.TokensApart(t);
    var numLiterals, numOffsets := IndexUncounted(w, t, counted);
    w.BaseParts();
    w.EncodersApart();
    if w.AtStreamStart() {
      IndexedFits(counted, w.literalFreq, w.offsetFreq, numLiterals, numOffsets);
      var usable := w.WarmUsable(numLiterals, numOffsets);
      assert !usable;
    }
    z := SizesUncounted(w, numLiterals, numOffsets, counted);
  }

  /** The fixed code wins. */
  method WriteShort(w: Writer, ts: seq<nat>, eof: bool, sync: bool, input: seq<byte>, z: Sizes)
    requires w.Ready() && w.open == NoBlock && TokenList(ts) && (Ends(ts) <==> sync)
    requires |ts| <= MIN_BLOCK && 0 < |input| < MIN_BLOCK && z.fixed == 15 <= z.dynamic
    modifies w`lastHeader, w`closed, w`open, w`tail
    modifies w.sink`bits, w.sink`nbits, w.sink`nbytes, w.sink`out, w.sink`writes, w.sink`failed, w.sink.bytes
    ensures w.Inv() && w.open == NoBlock && (w.tail == [] || eof) && OneBlock(old(w.closed), w.closed, eof)
    ensures w.Items() == old(w.Items()) + Items(Body(ts))
  {
    hide Writer.Base, StateBits, StateItems, GoodBlocks, GoodOpen, Stream, HeaderOk, TokenList, Ends, Body, OneBlock;
    var ssize := StoredSize(input);
    assert w.closed + [] == w.closed;
    ghost var asStored;
    var done, ended;
    done, ended, asStored := w.WriteAside(ts, eof, sync, Some(input), z.fixed <= z.dynamic, ssize <= z.fixed,
      ssize <= z.dynamic);
  }

  /** The token array after an end of block was added behind n tokens. */
  function After(tokens: seq<nat>, n: nat, end: bool): seq<nat>
    requires n < |tokens|
  {
    if end then tokens[n := EOB_TOKEN] else tokens
  }

  /** Adds the end of block if the block is to be finished. */
  method EndUncounted(w: Writer, t: Buffer, sync: bool) returns (ghost counted: seq<nat>)
    requires w.Ready() && Uncounted(t) && t.n < MAX_BLOCK && w.Foreign(t)
    modifies t`n, t.tokens, t.extraHist
    ensures w.Ready() && w.Items() == old(w.Items()) && w.closed == old(w.closed) && NothingCounted(counted) &&
      t.Sized() && t.Tallied(counted)
    ensures 0 < t.n <= t.tokens.Length && t.Slice() == WithEnd(old(t.Slice()), sync)
    ensures t.tokens[..] == After(old(t.tokens[..]), old(t.n), sync)
  {
    hide Encoder.Repr, Writer.Base, Separate, StateBits, StateItems, GoodBlocks, GoodOpen, Stream, Pow2, HeaderOk;
    hide Buffer.Tallied;
    w.TokensApart(t);
    w.BaseParts();
    w.EncodersApart();
    counted := [];
    if sync {
      AddRawEOB(t);
      counted := [EOB_TOKEN];
    }
  }

  /** Measures and writes the block. */
  method WriteMeasured(w: Writer, t: Buffer, eof: bool, sync: bool, input: seq<byte>, ghost counted: seq<nat>)
    requires w.Ready() && w.open == NoBlock && !w.hdr.valid && w.Foreign(t)
    requires NothingCounted(counted) && t.Sized() && t.Tallied(counted) && 0 < t.n <= t.tokens.Length
    requires TokenList(t.Slice()) && (Ends(t.Slice()) <==> sync) && t.n <= MIN_BLOCK && 0 < |input| < MIN_BLOCK
    modifies w`literalFreq, w`offsetFreq, w`hdr, w`litLens, w`offLens, w`lastHeader, w`closed, w`open, w`tail
    modifies w.literalEncoding.Repr(), w.offsetEncoding.Repr(), w.codegenEncoding.Repr(), w.codegen, w.codegenFreq
    modifies w.sink`bits, w.sink`nbits, w.sink`nbytes, w.sink`out, w.sink`writes, w.sink`failed, w.sink.bytes
    ensures w.Inv() && w.open == NoBlock && (w.tail == [] || eof) && !w.hdr.valid &&
      OneBlock(old(w.closed), w.closed, eof)
    ensures w.Items() == old(w.Items()) + Items(Body(old(t.Slice())))
    ensures t.tokens[..] == old(t.tokens[..]) && t.n == old(t.n)
    ensures w.literalEncoding == old(w.literalEncoding) && w.tmpLitEncoding == old(w.tmpLitEncoding)
  {
    hide Encoder.Repr, Writer.Base, StateBits, StateItems, GoodBlocks, GoodOpen, Stream, HeaderOk, TokenList, Ends,
         Body;
    hide OneBlock, Writer.Apart, Buffer.Tallied, NothingCounted;
    w.TokensApart(t);
    var z := MeasureUncounted(w, t, counted);
    WriteShort(w, t.Slice(), eof, sync, input, z);
  }

  /** Writes such a block. Whatever the bytes given are, it is a block with the fixed code that stands for
      the tokens in the buffer. */
  method WriteUncounted(w: Writer, t: Buffer, eof: bool, input: seq<byte>, syncWanted: bool)
    requires w.Ready() && w.open == NoBlock && !w.hdr.valid && w.Foreign(t)
    requires Uncounted(t) && |input| == t.n < MIN_BLOCK
    modifies w`literalFreq, w`offsetFreq, w`hdr, w`litLens, w`offLens, w`lastHeader, w`closed, w`open, w`tail
    modifies w.literalEncoding.Repr(), w.offsetEncoding.Repr(), w.codegenEncoding.Repr(), w.codegen, w.codegenFreq
    modifies w.sink`bits, w.sink`nbits, w.sink`nbytes, w.sink`out, w.sink`writes, w.sink`failed, w.sink.bytes
    modifies t`n, t.tokens, t.extraHist
    ensures w.Inv() && w.open == NoBlock && (w.tail == [] || eof) && !w.hdr.valid &&
      OneBlock(old(w.closed), w.closed, eof)
    ensures w.Items() == old(w.Items()) + Items(old(t.Slice()))
    ensures 0 < t.n && t.tokens[..] == After(old(t.tokens[..]), old(t.n), syncWanted || eof)
    ensures w.literalEncoding == old(w.literalEncoding) && w.tmpLitEncoding == old(w.tmpLitEncoding)
  {
    hide Encoder.Repr, Writer.Base, StateItems, TokenList, Ends, Body, Buffer.Tallied, OneBlock, AllTokens,
         Writer.Apart;
    hide Writer.Inv, NothingCounted;
    var sync := syncWanted || eof;
    ListWithEnd(t.Slice(), sync);
    ghost var counted := EndUncounted(w, t, sync);
    WriteMeasured(w, t, eof, sync, input, counted);
  }

  lemma ListWithEnd(ts: seq<nat>, end: bool)
    requires AllTokens(ts)
    ensures TokenList(WithEnd(ts, end)) && Body(WithEnd(ts, end)) == ts && (Ends(WithEnd(ts, end)) <==> end)
  {
    if !end { AllList(ts); }
  }
}
