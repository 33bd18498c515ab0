/** The block writer: it chooses how to write each block, may leave a block open for the next data
    to continue, and may replay a header that it wrote for an earlier stream. */
module BlockWriter {
  import opened Words
  import opened Canon
  import opened HuffmanTree
  import opened HuffmanSort
  import opened HuffmanCode
  import opened HuffmanEncoder
  import opened Lz
  import opened LzCodes
  import opened Format
  import opened Tokens
  import opened TokenBuffer
  import opened Codegen
  import opened Header
  import HuffmanDecoder
  import opened BitReader
  import opened BitWriter
  import opened Blocks
  import opened Trim
  import HuffmanOptimal
  import opened HuffmanCodes
  import opened BlockSize
  import opened LiteralChoice
  import opened HeaderWriter
  import opened WriterState

  const LITERAL_SLOTS: nat := 289
  const HEADER_LIMIT: nat := 8192

  /** A header written earlier: the whole bytes, the bits left over, its size and its alphabets. */
  datatype HdrCache = HdrCache(valid: bool, buf: seq<byte>, nbytes: nat, bits: nat, nbits: nat, size: nat,
                               numLit: nat, numOff: nat)

  /** The code words that the package builds once: the fixed codes, and the one distance code that
      blocks without matches declare. */
  datatype Globals = Globals(fixedLiteral: seq<nat>, fixedOffset: seq<nat>, huffOffset: seq<nat>)

  predicate GoodGlobals(g: Globals) {
    && |g.fixedLiteral| == LITERAL_CODES && |g.fixedOffset| == MAX_DIST_CODES && |g.huffOffset| == MAX_DIST_CODES
    && GoodCodes(g.fixedLiteral) && GoodCodes(g.fixedOffset) && GoodCodes(g.huffOffset)
    && Agree(FixedLit(), g.fixedLiteral) && Agree(FixedOff(), g.fixedOffset)
    && LensOf(g.huffOffset, 1) == [1]
  }

  /** Builds them. */
  method MakeGlobals() returns (g: Globals)
    ensures GoodGlobals(g)
  {
    hide Agree, GoodCodes, LensOf, Built, SortedEntries, CanonCodes, ValidFreq;
    var lit := GenerateFixedLiteralEncoding();
    var off := GenerateFixedOffsetEncoding();
    var huff := new Encoder(MAX_DIST_CODES);
    var freq := Repeat(0, MAX_DIST_CODES)[0 := 1];
    OneDistance(freq);
    AlphabetFits();
    ghost var q := huff.Generate(freq, 15);
    OneDistanceCode(freq, huff.lens[..MAX_DIST_CODES], huff.codes[..], q);
    g := Globals(lit[..], off[..], huff.codes[..]);
  }

  lemma OneDistance(freq: seq<nat>)
    requires freq == Repeat(0, MAX_DIST_CODES)[0 := 1]
    ensures ValidFreq(freq)
  {
    SumNone(MAX_DIST_CODES);
    assert Repeat(0, MAX_DIST_CODES) == seq(MAX_DIST_CODES, _ => 0);
    SumStep(Repeat(0, MAX_DIST_CODES), 0);
  }

  /** The code for a single distance: one bit. */
  lemma OneDistanceCode(freq: seq<nat>, lens: seq<nat>, codes: seq<nat>, q: seq<nat>)
    requires freq == Repeat(0, MAX_DIST_CODES)[0 := 1] && SortedEntries(freq, q) && Built(freq, lens, 15, q)
    requires CanonCodes(lens, codes) && |codes| == MAX_DIST_CODES
    ensures GoodCodes(codes) && LensOf(codes, 1) == [1]
  {
    hide SortedEntries, CanonCodes, Complete, Single, TreeHeight, GoodCodes, LensOf, Weights, Ascending;
    GeneratedTable(freq, lens, 15, q);
    LensOfCanon(lens, codes);
    SortedListing(freq, q);
    var sy := Symbols(q);
    forall k | 0 <= k < |sy| ensures sy[k] == 0 { assert sy[k] in sy; }
    assert 0 in sy;
    if |sy| >= 2 { TwoListed(sy, |lens|, 0); }
    assert |sy| == |q| == 1;
    assert sy[0] == HuffmanSort.Symbol(q[0]) == 0;
    FirstLen(lens, codes);
  }

  /** Of two listed symbols, one is another than t. */
  lemma TwoListed(sy: seq<nat>, n: nat, t: nat)
    requires Listing(sy, n) && |sy| >= 2
    ensures exists k :: 0 <= k < |sy| && sy[k] != t
  {
    var k := if sy[0] != t then 0 else 1;
    assert sy[k] != t;
  }

  lemma FirstLen(lens: seq<nat>, codes: seq<nat>)
    requires |lens| == |codes| > 0 && LensOf(codes, |lens|) == lens
    ensures LensOf(codes, 1) == [lens[0]]
  {
    assert LensOf(codes, |lens|)[0] == HLen(codes[0]);
  }

  /** What the cached bits are: a header for the tables at hand. */
  ghost predicate CacheOk(hdr: HdrCache, litLens: seq<nat>, offLens: seq<nat>, cached: Hdr, final: bool) {
    hdr.valid ==>
      && GoodHdr(cached) && Standard(cached) && |litLens| == LITERAL_CODES && |offLens| == MAX_DIST_CODES
      && Fitted(litLens, cached.lit) && Fitted(offLens, cached.off)
      && hdr.numLit == |cached.lit| && hdr.numOff == |cached.off|
      && hdr.size == 3 + |HdrBits(cached)| <= HEADER_LIMIT
      && hdr.nbytes <= |hdr.buf| && hdr.nbytes < FLUSH_SIZE && hdr.nbytes % 6 == 0
      && hdr.nbits <= 47 && hdr.bits < Pow2(hdr.nbits)
      && BytesBits(hdr.buf[..hdr.nbytes]) + BitsOf(hdr.bits, hdr.nbits) == Opening(final, 2) + HdrBits(cached)
  }

  /** What the open block's header declares is in the tables at hand. */
  ghost predicate OpenOk(open: Open, lastHuffMan: bool, litLens: seq<nat>, offLens: seq<nat>) {
    open.OpenBlock? ==>
      && GoodHdr(open.hdr) && Fitted(litLens, open.hdr.lit)
      && |litLens| == (if lastHuffMan then END_OF_BLOCK + 1 else LITERAL_CODES)
      && (!lastHuffMan ==> |offLens| == MAX_DIST_CODES && Fitted(offLens, open.hdr.off))
  }

  /** lastHeader is the size of the open block's header, and 0 when no block is open. */
  ghost predicate HeaderOk(open: Open, lastHeader: nat)
    requires GoodOpen(open)
  {
    && lastHeader <= HEADER_LIMIT
    && lastHeader == if open.OpenBlock? then 3 + |HdrBits(open.hdr)| else 0
  }

  /** A stored block up to its data: its opening, padding, and its length twice. */
  method OpenStored(w: Sink, length: nat, isEof: bool)
    requires w.Valid() && length <= MAX_STORED
    modifies w`bits, w`nbits, w`nbytes, w`out, w`writes, w.bytes
    ensures w.Valid() && w.nbits == 32
    ensures w.Emitted() == old(w.Emitted()) + StoredHead(isEof, length, |old(w.Emitted())|)
  {
    hide Stream, Pow2, Opening, Padding, Zeros, StoredHead;
    OpeningBits(isEof);
    LzCodes.Pow2Small();
    Pow2Values();
    ghost var s := w.Emitted();
    var flag := if isEof then 1 else 0;
    w.WriteBits(flag, 3);
    w.Flush();
    w.WriteBits(length, 16);
    w.WriteBits(Not16(length), 16);
    StoredHeadIs(s, isEof, length);
  }

  /** Arrays of the right sizes, none of them shared. */
  predicate Separate(bytes: array<byte>, codegen: array<nat>, codegenFreq: array<nat>, lit: Encoder, tmp: Encoder,
                     off: Encoder, cg: Encoder) {
    && codegen != codegenFreq && codegen as object != bytes && codegenFreq as object != bytes
    && codegen.Length == CODEGEN_SIZE && codegenFreq.Length == CODEGEN_CODES
    && lit.Valid() && tmp.Valid() && off.Valid() && cg.Valid()
    && lit.codes.Length == tmp.codes.Length == LITERAL_CODES
    && off.codes.Length == MAX_DIST_CODES && cg.codes.Length == CODEGEN_CODES
    && {bytes as object, codegen, codegenFreq} !! lit.Repr() !! tmp.Repr() !! off.Repr() !! cg.Repr()
  }

  method NewEncoders(bytes: array<byte>, codegen: array<nat>, codegenFreq: array<nat>)
    returns (lit: Encoder, tmp: Encoder, off: Encoder, cg: Encoder)
    requires codegen != codegenFreq && codegen as object != bytes && codegenFreq as object != bytes
    requires codegen.Length == CODEGEN_SIZE && codegenFreq.Length == CODEGEN_CODES
    ensures Separate(bytes, codegen, codegenFreq, lit, tmp, off, cg)
  {
    lit := new Encoder(LITERAL_CODES);
    tmp := new Encoder(LITERAL_CODES);
    off := new Encoder(MAX_DIST_CODES);
    cg := new Encoder(CODEGEN_CODES);
  }

  /** A writer with arrays of its own. */
  method NewWriter(sink: Sink, globals: Globals, penalty: nat) returns (w: Writer)
    requires sink.Valid() && !sink.failed && sink.Emitted() == [] && GoodGlobals(globals)
    ensures fresh(w) && w.Ready() && w.sink == sink && w.closed == [] && w.open == NoBlock
  {
    hide GoodGlobals, Stream, Writer.Ready, Writer.Inv, Writer.Base, Pow2, Separate;
    var codegen := new nat[CODEGEN_SIZE];
    var codegenFreq := new nat[CODEGEN_CODES];
    var lit, tmp, off, cg := NewEncoders(sink.bytes, codegen, codegenFreq);
    w := new Writer(sink, globals, penalty, lit, tmp, off, cg, codegen, codegenFreq);
  }

  class Writer {
    const sink: Sink
    const globals: Globals
    var lastHeader: nat
    var lastHuffMan: bool
    var literalEncoding: Encoder
    var tmpLitEncoding: Encoder
    const offsetEncoding: Encoder
    const codegenEncoding: Encoder
    const codegen: array<nat>
    const codegenFreq: array<nat>
    var literalFreq: seq<nat>
    var offsetFreq: seq<nat>
    var hdr: HdrCache
    const logNewTablePenalty: nat

    /** Lengths of the codes in the two encoders. */
    ghost var litLens: seq<nat>
    ghost var offLens: seq<nat>
    /** Blocks written, the open one, and padding that flush wrote after them. */
    ghost var closed: seq<Block>
    ghost var open: Open
    ghost var tail: seq<bool>
    /** The header in the cache. */
    ghost var cached: Hdr
    ghost var cachedFinal: bool

    function LitCodes(): seq<nat>
      reads this`literalEncoding, literalEncoding.codes
    {
      literalEncoding.codes[..]
    }

    function OffCodes(): seq<nat>
      reads offsetEncoding.codes
    {
      offsetEncoding.codes[..]
    }

    function CodegenCodes(): seq<nat>
      reads codegenEncoding.codes
    {
      codegenEncoding.codes[..]
    }

    /** No array is shared. */
    predicate Apart()
      reads this`literalEncoding, this`tmpLitEncoding
    {
      Separate(sink.bytes, codegen, codegenFreq, literalEncoding, tmpLitEncoding, offsetEncoding, codegenEncoding)
    }

    /** What holds of the tables, the cache and the blocks. */
    ghost predicate Base()
      reads this, sink, literalEncoding.codes, offsetEncoding.codes
    {
      && Apart() && sink.Valid() && !sink.failed && GoodGlobals(globals)
      && |literalFreq| == LITERAL_SLOTS && |offsetFreq| == OFFSET_SLOTS && literalFreq[LITERAL_SLOTS - 1] == 0
      && |hdr.buf| == FLUSH_SIZE + 8
      && Table(litLens, LitCodes()) && Table(offLens, OffCodes())
      && GoodBlocks(closed) && GoodOpen(open)
      && OpenOk(open, lastHuffMan, litLens, offLens)
      && CacheOk(hdr, litLens, offLens, cached, cachedFinal)
    }

    ghost predicate Inv()
      reads this, sink, sink.bytes, literalEncoding.codes, offsetEncoding.codes
    {
      && Base() && HeaderOk(open, lastHeader)
      && sink.Emitted() == StateBits(closed, open) + tail
      && (tail != [] ==> open.NoBlock?)
    }

    /** Ready for more: no padding in the way. */
    ghost predicate Ready()
      reads this, sink, sink.bytes, literalEncoding.codes, offsetEncoding.codes
    {
      Inv() && tail == []
    }

    /** Everything put in so far. */
    ghost function Items(): seq<Item>
      reads this
    {
      StateItems(closed, open)
    }

    constructor (sink: Sink, globals: Globals, penalty: nat, literalEncoding: Encoder, tmpLitEncoding: Encoder,
                 offsetEncoding: Encoder, codegenEncoding: Encoder, codegen: array<nat>, codegenFreq: array<nat>)
      requires sink.Valid() && !sink.failed && sink.Emitted() == [] && GoodGlobals(globals)
      requires Separate(sink.bytes, codegen, codegenFreq, literalEncoding, tmpLitEncoding, offsetEncoding,
        codegenEncoding)
      ensures Ready() && this.sink == sink && closed == [] && open == NoBlock
    {
      hide Base, StateBits, GoodBlocks, GoodOpen, HeaderOk, OpenOk, CacheOk, Stream, GoodGlobals, Table, Separate;
      this.sink, this.globals, logNewTablePenalty := sink, globals, penalty;
      lastHeader, lastHuffMan := 0, false;
      this.literalEncoding, this.tmpLitEncoding := literalEncoding, tmpLitEncoding;
      this.offsetEncoding, this.codegenEncoding := offsetEncoding, codegenEncoding;
      this.codegen, this.codegenFreq := codegen, codegenFreq;
      literalFreq, offsetFreq := Repeat(0, LITERAL_SLOTS), Repeat(0, OFFSET_SLOTS);
      hdr := HdrCache(false, seq(FLUSH_SIZE + 8, _ => 0), 0, 0, 0, 0, 0, 0);
      litLens, offLens, closed, open, tail := [], [], [], NoBlock, [];
      new;
      NoTable(LitCodes());
      NoTable(OffCodes());
      NothingWritten(hdr, litLens, offLens, cached, cachedFinal);
      BaseIs();
      assert [] + tail == [];
    }

    lemma BaseIs()
      requires Apart() && sink.Valid() && !sink.failed && GoodGlobals(globals)
      requires |literalFreq| == LITERAL_SLOTS && |offsetFreq| == OFFSET_SLOTS && literalFreq[LITERAL_SLOTS - 1] == 0
      requires |hdr.buf| == FLUSH_SIZE + 8
      requires Table(litLens, LitCodes()) && Table(offLens, OffCodes())
      requires GoodBlocks(closed) && GoodOpen(open)
      requires OpenOk(open, lastHuffMan, litLens, offLens)
      requires CacheOk(hdr, litLens, offLens, cached, cachedFinal)
      ensures Base()
    {
      hide StateBits, GoodBlocks, GoodOpen, OpenOk, CacheOk, GoodGlobals, Table, Separate;
    }

    lemma CodesApart()
      requires Apart()
      ensures literalEncoding.codes as object != sink.bytes && offsetEncoding.codes as object != sink.bytes
      ensures codegenEncoding.codes as object != sink.bytes && codegen as object != sink.bytes
      ensures literalEncoding.codes.Length == LITERAL_CODES && offsetEncoding.codes.Length == MAX_DIST_CODES
      ensures codegenEncoding.codes.Length == CODEGEN_CODES && codegen.Length == CODEGEN_SIZE
    {
    }

    /** What is waiting to be written cannot be seen in the tables. */
    lemma EndOfOpen()
      requires Base() && open.OpenBlock?
      ensures |LitCodes()| > END_OF_BLOCK && GoodCode(LitCodes()[END_OF_BLOCK])
      ensures GoodHdr(open.hdr) && CodeEmit(LitCodes()[END_OF_BLOCK]) == SymBits(open.hdr.lit, END_OF_BLOCK)
    {
      hide Table, GoodHeader, Fitted, CoversAll, Fits;
      EndCode(litLens, open.hdr.lit, LitCodes());
    }

    /** The blocks once the open one is finished. */
    ghost function AllClosed(): seq<Block>
      reads this`closed, this`open
    {
      closed + if open.OpenBlock? then [Finished(open)] else []
    }

    /** The block written last, or the open one. */
    ghost function LastBlock(): Block
      requires AllClosed() != []
      reads this`closed, this`open
    {
      AllClosed()[|AllClosed()| - 1]
    }

    /** Writes the end-of-block code that is owed, if any. */
    method CloseOpen()
      requires Inv()
      modifies this`lastHeader, this`closed, this`open, sink`bits, sink`nbits, sink`nbytes, sink`out, sink`writes,
               sink.bytes
      ensures Inv() && open == NoBlock && closed == old(AllClosed()) && lastHeader == 0
      ensures Items() == old(Items())
    {
      hide Table, OpenOk, CacheOk, GoodGlobals, Separate, StateBits, StateItems, GoodBlocks, GoodOpen, Stream, GoodHdr,
           Pow2, SymBits, CodeEmit, GoodCode;
      CodesApart();
      if lastHeader > 0 {
        HeaderOpen(open, lastHeader);
        EndOfOpen();
        CloseBlock(closed, open);
        NoneOpen(lastHuffMan, litLens, offLens);
        sink.WriteCode(LitCodes()[END_OF_BLOCK]);
        lastHeader := 0;
        closed, open := closed + [Finished(open)], NoBlock;
        assert StateBits(closed, open) + [] == StateBits(closed, open);
      } else {
        HeaderOpen(open, lastHeader);
        assert closed + [] == closed;
      }
    }

    /** No block is open; bits of one being written may follow the finished blocks. */
    ghost predicate Between()
      reads this, sink, literalEncoding.codes, offsetEncoding.codes
    {
      Base() && open == NoBlock && lastHeader == 0 && tail == []
    }

    /** The bits of the finished blocks. */
    ghost function Done(): seq<bool>
      requires GoodBlocks(closed)
      reads this`closed
    {
      StateBits(closed, NoBlock)
    }

    /** Finishes the open block and pads to a whole byte. */
    method Flush()
      requires Inv()
      modifies this`lastHeader, this`closed, this`open, this`tail
      modifies sink`bits, sink`nbits, sink`nbytes, sink`out, sink`writes, sink.bytes
      ensures Inv() && open == NoBlock && closed == old(AllClosed()) && Items() == old(Items())
      ensures sink.nbits == 0 && sink.nbytes == 0 && sink.Emitted() == BytesBits(sink.out)
      ensures tail == old(tail) + Zeros(Padding(|Done() + old(tail)|))
    {
      hide Table, OpenOk, CacheOk, GoodGlobals, Separate, StateBits, StateItems, GoodBlocks, GoodOpen, Stream, Pow2,
           HeaderOk, Finished;
      CodesApart();
      CloseOpen();
      NoneOpen(lastHuffMan, litLens, offLens);
      ghost var e := sink.Emitted();
      sink.Flush();
      assert e + Zeros(Padding(|e|)) == Done() + (tail + Zeros(Padding(|e|)));
      tail := tail + Zeros(Padding(|e|));
      assert e == Done() + old(tail);
    }

    /** Opens a block with the fixed code. */
    method WriteFixedHeader(isEof: bool)
      requires Ready()
      modifies this`lastHeader, this`closed, this`open, sink`bits, sink`nbits, sink`nbytes, sink`out, sink`writes,
               sink.bytes
      ensures Between() && closed == old(AllClosed()) && Items() == old(Items())
      ensures sink.Emitted() == Done() + Opening(isEof, 1)
    {
      hide Table, OpenOk, CacheOk, GoodGlobals, Separate, StateBits, StateItems, GoodBlocks, GoodOpen, Stream, Pow2,
           HeaderOk, Finished, Opening;
      CodesApart();
      CloseOpen();
      NoneOpen(lastHuffMan, litLens, offLens);
      OpeningBits(isEof);
      LzCodes.Pow2Small();
      var value := if isEof then 3 else 2;
      sink.WriteBits(value, 3);
      assert Done() + [] == Done();
    }

    /** Records a block whose bits have all been written. */
    ghost method Finish(b: Block)
      requires Between() && GoodBlock(b) && sink.Emitted() == Done() + BlockBits(b, |Done()|)
      modifies this`closed
      ensures Ready() && open == NoBlock && closed == old(closed) + [b] && Items() == old(Items()) + Content(b)
    {
      hide Table, OpenOk, CacheOk, GoodGlobals, Separate, StateBits, StateItems, GoodBlocks, GoodBlock, BlockBits,
           GoodOpen, Stream, Pow2, HeaderOk, Content;
      CodesApart();
      NoneOpen(lastHuffMan, litLens, offLens);
      AddBlock(closed, b);
      closed := closed + [b];
      assert Done() + [] == Done();
    }

    /** Opens a stored block, or writes a final block of nothing with the fixed code. */
    method WriteStoredHeader(length: nat, isEof: bool)
      requires Ready() && length <= MAX_STORED
      modifies this`lastHeader, this`closed, this`open, this`tail
      modifies sink`bits, sink`nbits, sink`nbytes, sink`out, sink`writes, sink.bytes
      ensures length == 0 && isEof ==>
        && Inv() && open == NoBlock && closed == old(AllClosed()) + [Fixed(true, [])] && Items() == old(Items())
        && sink.nbits == 0 && tail == Zeros(Padding(|Done()|))
      ensures !(length == 0 && isEof) ==>
        && Between() && closed == old(AllClosed()) && Items() == old(Items()) && sink.nbits == 32
        && sink.Emitted() == Done() + StoredHead(isEof, length, |Done()|)
    {
      hide Table, OpenOk, CacheOk, GoodGlobals, Separate, StateBits, StateItems, GoodBlocks, GoodOpen, Stream, Pow2,
           HeaderOk, Finished, Opening, Padding, Zeros;
      CodesApart();
      CloseOpen();
      NoneOpen(lastHuffMan, litLens, offLens);
      assert Done() + [] == Done();
      assert closed + [] == closed;
      if length == 0 && isEof {
        WriteFixedHeader(isEof);
        EmptyBlock();
        return;
      }
      StoredOpening(length, isEof);
    }

    /** The end-of-block code of an empty block with the fixed code, and padding. */
    method EmptyBlock()
      requires Between() && sink.Emitted() == Done() + Opening(true, 1)
      modifies this`lastHeader, this`closed, this`open, this`tail
      modifies sink`bits, sink`nbits, sink`nbytes, sink`out, sink`writes, sink.bytes
      ensures Inv() && open == NoBlock && closed == old(closed) + [Fixed(true, [])] && Items() == old(Items())
      ensures sink.nbits == 0 && tail == Zeros(Padding(|Done()|))
    {
      hide Table, OpenOk, CacheOk, GoodGlobals, Separate, StateBits, StateItems, GoodBlocks, GoodOpen, Stream, Pow2,
           HeaderOk, Finished, Opening, Padding, Zeros, FixedBits, FixedLit, FixedOff, BlockBits;
      CodesApart();
      FixedNothing(true);
      sink.WriteBits(0, 7);
      Assoc(Done(), Opening(true, 1), BitsOf(0, 7));
      Finish(Fixed(true, []));
      assert Items() + [] == Items() && closed + [] == closed;
      assert Done() + [] == Done();
      Flush();
      assert Done() + [] == Done();
      assert [] + tail == tail;
    }

    /** The opening of a stored block, padding, and its length twice. */
    method StoredOpening(length: nat, isEof: bool)
      requires Between() && length <= MAX_STORED && sink.Emitted() == Done()
      modifies sink`bits, sink`nbits, sink`nbytes, sink`out, sink`writes, sink.bytes
      ensures Between() && sink.nbits == 32 && sink.Emitted() == Done() + StoredHead(isEof, length, |Done()|)
    {
      hide Table, OpenOk, CacheOk, GoodGlobals, Separate, StateBits, GoodBlocks, GoodOpen, Stream, Pow2, HeaderOk,
           StoredHead;
      CodesApart();
      OpenStored(sink, length, isEof);
    }

    /** A stored block, with the empty final block replaced by one with the fixed code. */
    method WriteStored(input: seq<byte>, eof: bool)
      requires Ready() && |input| <= MAX_STORED
      modifies this`lastHeader, this`closed, this`open, this`tail
      modifies sink`bits, sink`nbits, sink`nbytes, sink`out, sink`writes, sink`failed, sink.bytes
      ensures Inv() && open == NoBlock && Items() == old(Items()) + Lits(input)
      ensures closed == old(AllClosed()) + [if input == [] && eof then Fixed(true, []) else Stored(eof, input)]
      ensures input == [] && eof ==> tail == Zeros(Padding(|Done()|))
      ensures !(input == [] && eof) ==> tail == []
    {
      hide Table, OpenOk, CacheOk, GoodGlobals, Separate, StateBits, StateItems, GoodBlocks, GoodOpen, Stream, Pow2,
           HeaderOk, Finished, Padding, Zeros, StoredBits, StoredHead;
      CodesApart();
      WriteStoredHeader(|input|, eof);
      ghost var s := Done();
      sink.WriteBytes(input);
      if input == [] && eof {
        NothingMore(sink.Emitted(), Items());
      } else {
        StoredIs(s, eof, input);
        assert GoodBlock(Stored(eof, input));
        Finish(Stored(eof, input));
      }
    }

    /** How much of the literal alphabet is in use, knowing that symbol w is. */
    method ScanLiterals(ghost w: nat) returns (numLiterals: nat)
      requires w < |literalFreq| && literalFreq[w] > 0
      ensures w < numLiterals <= |literalFreq| && literalFreq[numLiterals - 1] != 0
      ensures forall s :: numLiterals <= s < |literalFreq| ==> literalFreq[s] == 0
    {
      numLiterals := |literalFreq|;
      while literalFreq[numLiterals - 1] == 0
        invariant w < numLiterals <= |literalFreq|
        invariant forall s :: numLiterals <= s < |literalFreq| ==> literalFreq[s] == 0
        decreases numLiterals
      {
        numLiterals := numLiterals - 1;
      }
    }

    /** How much of the distance alphabet is in use; the first distance is counted when none is. */
    method ScanOffsets() returns (numOffsets: nat)
      requires |offsetFreq| > 0
      modifies this`offsetFreq
      ensures 1 <= numOffsets <= |offsetFreq| == |old(offsetFreq)| && offsetFreq[numOffsets - 1] != 0
      ensures forall c :: numOffsets <= c < |offsetFreq| ==> offsetFreq[c] == 0
      ensures if forall c :: 0 <= c < |offsetFreq| ==> old(offsetFreq)[c] == 0
        then offsetFreq == old(offsetFreq)[0 := 1] else offsetFreq == old(offsetFreq)
    {
      numOffsets := |offsetFreq|;
      while numOffsets > 0 && offsetFreq[numOffsets - 1] == 0
        invariant numOffsets <= |offsetFreq| && offsetFreq == old(offsetFreq)
        invariant forall c :: numOffsets <= c < |offsetFreq| ==> offsetFreq[c] == 0
      {
        numOffsets := numOffsets - 1;
      }
      if numOffsets == 0 {
        offsetFreq := offsetFreq[0 := 1];
        numOffsets := 1;
      }
    }

    /** Takes the block's histograms over and finds how much of each alphabet is in use. */
    method IndexTokens(t: Buffer, alwaysEOB: bool, ghost ts: seq<nat>) returns (numLiterals: nat, numOffsets: nat)
      requires t.Sized() && TokenList(ts) && |ts| <= MAX_BLOCK && t.Tallied(ts) && (ts == [] ==> alwaysEOB || t.n == 0)
      requires |literalFreq| == LITERAL_SLOTS && literalFreq[LITERAL_SLOTS - 1] == 0
      modifies this`literalFreq, this`offsetFreq
      ensures |literalFreq| == LITERAL_SLOTS && |offsetFreq| == OFFSET_SLOTS && literalFreq[LITERAL_SLOTS - 1] == 0
      ensures t.n > 0 ==> Indexed(ts, alwaysEOB, literalFreq, offsetFreq, numLiterals, numOffsets)
      ensures t.n == 0 ==> numLiterals == 0 && numOffsets == 0
    {
      hide SymbolCount, OffsetCount, Sum, ValidFreq, Indexed, TokenList;
      literalFreq := t.litHist[..] + t.extraHist[..] + literalFreq[256 + EXTRA_CODES..];
      offsetFreq := t.offHist[..];
      if t.n == 0 {
        return 0, 0;
      }
      ghost var lf, of := literalFreq, offsetFreq;
      HistSums(t.litHist[..], t.extraHist[..], lf);
      CopiedCounts(t.litHist[..], t.extraHist[..], of, ts, lf);
      if alwaysEOB {
        literalFreq := literalFreq[END_OF_BLOCK := 1];
      } else {
        CountedSymbol(ts, 0);
      }
      numLiterals := ScanLiterals(if alwaysEOB then END_OF_BLOCK else SymbolOf(ts[0]));
      numOffsets := ScanOffsets();
      IndexedFrom(ts, alwaysEOB, lf, of, literalFreq, offsetFreq, numLiterals, numOffsets);
    }

    /** Everything that calls may change. The two literal encoders may trade places. */
    ghost function Footprint(): set<object>
      reads this`literalEncoding, this`tmpLitEncoding
    {
      {this as object, sink, sink.bytes, codegen, codegenFreq} + literalEncoding.Repr() + tmpLitEncoding.Repr()
      + offsetEncoding.Repr() + codegenEncoding.Repr()
    }

    lemma EncodersApart()
      requires Apart()
      ensures literalEncoding.Repr() !! offsetEncoding.Repr() !! codegenEncoding.Repr() !! tmpLitEncoding.Repr()
      ensures {sink.bytes as object, codegen, codegenFreq}
        !! (literalEncoding.Repr() + offsetEncoding.Repr() + codegenEncoding.Repr() + tmpLitEncoding.Repr())
      ensures {this as object, sink}
        !! (literalEncoding.Repr() + offsetEncoding.Repr() + codegenEncoding.Repr() + tmpLitEncoding.Repr())
      ensures literalEncoding.codes in literalEncoding.Repr() && offsetEncoding.codes in offsetEncoding.Repr()
      ensures codegenEncoding.codes in codegenEncoding.Repr()
      ensures literalEncoding.Valid() && offsetEncoding.Valid() && codegenEncoding.Valid() && tmpLitEncoding.Valid()
      ensures literalEncoding.codes.Length == tmpLitEncoding.codes.Length == LITERAL_CODES
      ensures offsetEncoding.codes.Length == MAX_DIST_CODES && codegenEncoding.codes.Length == CODEGEN_CODES
      ensures codegen != codegenFreq && codegen as object != sink.bytes && codegenFreq as object != sink.bytes
      ensures codegen.Length == CODEGEN_SIZE && codegenFreq.Length == CODEGEN_CODES
    {
    }

    /** The codes at hand are those that the block's frequencies give. */
    ghost predicate OwnCodes()
      reads this`literalFreq, this`offsetFreq, this`litLens, this`offLens
    {
      && |literalFreq| == LITERAL_SLOTS && |offsetFreq| == OFFSET_SLOTS
      && OwnTable(literalFreq[..LITERAL_CODES], litLens) && OwnTable(offsetFreq[..MAX_DIST_CODES], offLens)
    }

    /** Builds both codes from the block's frequencies. A cached header no longer fits them. */
    method Generate()
      requires Base() && open == NoBlock
      requires ValidFreq(literalFreq[..LITERAL_CODES]) && ValidFreq(offsetFreq[..MAX_DIST_CODES])
      modifies this`hdr, this`litLens, this`offLens, literalEncoding.Repr(), offsetEncoding.Repr()
      ensures Base() && !hdr.valid && sink.Emitted() == old(sink.Emitted())
      ensures unchanged(`closed, `open, `tail, `lastHeader, `lastHuffMan, `literalFreq, `offsetFreq, sink)
      ensures TableOf(literalFreq[..LITERAL_CODES], litLens) && TableOf(offsetFreq[..MAX_DIST_CODES], offLens)
      ensures OwnCodes()
    {
      hide Encoder.Repr, CacheOk, GoodGlobals, Separate, GoodBlocks, GoodOpen, Stream, Pow2, Built, SortedEntries,
           CanonCodes, ValidFreq, TableOf, Fits, OwnTable;
      EncodersApart();
      AlphabetFits();
      hdr := hdr.(valid := false);
      ghost var q := literalEncoding.Generate(literalFreq[..LITERAL_CODES], 15);
      litLens := literalEncoding.lens[..LITERAL_CODES];
      GeneratedTable(literalFreq[..LITERAL_CODES], litLens, 15, q);
      OwnTableIs(literalFreq[..LITERAL_CODES], litLens, q);
      q := offsetEncoding.Generate(offsetFreq[..MAX_DIST_CODES], 15);
      offLens := offsetEncoding.lens[..MAX_DIST_CODES];
      GeneratedTable(offsetFreq[..MAX_DIST_CODES], offLens, 15, q);
      OwnTableIs(offsetFreq[..MAX_DIST_CODES], offLens, q);
      NotCached(hdr, litLens, offLens, cached, cachedFinal);
      NoneOpen(lastHuffMan, litLens, offLens);
      BaseIs();
    }

    /** Run-length codes both vectors and builds the code for the run-length codes. */
    method MakeCodegen(numLiterals: nat, numOffsets: nat, litCodes: seq<nat>, offCodes: seq<nat>,
                       ghost lit: seq<nat>, ghost off: seq<nat>) returns (ghost n: nat)
      requires Apart() && FIRST_LENGTH <= numLiterals <= |litCodes| && 1 <= numOffsets <= |offCodes|
      requires numLiterals <= LITERAL_CODES && numOffsets <= MAX_DIST_CODES
      requires GoodCodes(litCodes) && GoodCodes(offCodes)
      requires lit == LensOf(litCodes, numLiterals) && off == LensOf(offCodes, numOffsets)
      requires Acceptable(lit) && Acceptable(off)
      modifies codegen, codegenFreq, codegenEncoding.Repr()
      ensures n < CODEGEN_SIZE && codegen[n] == BAD_CODE && Coded(codegen[..n], codegenFreq[..], lit + off)
      ensures HeaderReady(lit, off, codegenFreq[..], CodegenCodes(), codegen[..n])
      ensures StandardCode(codegenFreq[..], CodegenCodes()) && codegen[..n] == CodegenOf(lit + off)
    {
      hide Encoder.Repr, Separate, Coded, ValidFreq, Acceptable, GoodCodes, Built, SortedEntries, CanonCodes, LensOf,
           GoodHeader, NoneAfter, HeaderReady, Standard, StandardCode, CodegenOf, LeastCodes;
      EncodersApart();
      AlphabetFits();
      n := GenerateCodegen(codegen, codegenFreq, litCodes, numLiterals, offCodes, numOffsets);
      ghost var cg, fr := codegen[..n], codegenFreq[..];
      CodedValid(cg, fr, lit + off);
      ghost var q := codegenEncoding.Generate(codegenFreq[..], 7);
      assert codegen[..n] == cg && codegenFreq[..] == fr;
      assert codegenEncoding.lens[..CODEGEN_CODES] == codegenEncoding.lens[..|fr|];
      ReadyFrom(lit, off, fr, codegenEncoding.lens[..CODEGEN_CODES], CodegenCodes(), cg, q);
      StandardCodeIs(fr, CodegenCodes(), codegenEncoding.lens[..CODEGEN_CODES], q);
    }

    /** The run-length codes and their code are those of the header. */
    ghost predicate Coding(n: nat, h: Hdr, numLit: nat, numOff: nat, nc: nat)
      reads codegen, codegenEncoding.codes
    {
      && codegen.Length == CODEGEN_SIZE && n < CODEGEN_SIZE && codegen[n] == BAD_CODE && GoodHdr(h) && Standard(h)
      && h.nc == nc && h.codes == CodegenCodes() && h.cg == codegen[..n] && |h.lit| == numLit && |h.off| == numOff
    }

    /** The tables at hand are those that the header declares. */
    ghost predicate Declared(h: Hdr)
      reads this`litLens, this`offLens
    {
      && |litLens| == LITERAL_CODES && |offLens| == MAX_DIST_CODES
      && Fitted(litLens, h.lit) && Fitted(offLens, h.off)
    }

    lemma DeclaredOpen(final: bool, h: Hdr)
      requires Declared(h) && GoodHdr(h)
      ensures OpenOk(OpenBlock(final, h, []), false, litLens, offLens)
    {
      hide GoodHdr, Fitted;
    }

    lemma CodingSizes(n: nat, h: Hdr, numLit: nat, numOff: nat, nc: nat)
      requires Coding(n, h, numLit, numOff, nc)
      ensures GoodHdr(h) && Standard(h) && |h.lit| == numLit && |h.off| == numOff
    {
      hide GoodHdr, Standard;
    }

    /** Tables and the parts of their header, ready to be written. */
    ghost predicate Prepared(n: nat, h: Hdr, numLit: nat, numOff: nat, nc: nat, size: nat, ts: seq<nat>)
      reads this`litLens, this`offLens, codegen, codegenEncoding.codes
    {
      Coding(n, h, numLit, numOff, nc) && Declared(h) && SizeIs(h, size) && CountsCovered(litLens, offLens, ts)
    }

    /** Writes the header of a new block. */
    method WriteHeader(numLiterals: nat, numOffsets: nat, numCodegens: nat, isEof: bool, ghost n: nat, ghost h: Hdr)
      requires Between() && sink.Emitted() == Done() && Coding(n, h, numLiterals, numOffsets, numCodegens)
      modifies sink`bits, sink`nbits, sink`nbytes, sink`out, sink`writes, sink.bytes
      ensures Between() && sink.Emitted() == Done() + Opening(isEof, 2) + HdrBits(h)
      ensures sink.writes == old(sink.writes) ==> sink.out == old(sink.out) && sink.nbytes % 6 == old(sink.nbytes) % 6
      ensures sink.writes != old(sink.writes) ==> |sink.out| >= |old(sink.out)| + FLUSH_SIZE
    {
      hide Table, CacheOk, OpenOk, GoodGlobals, Separate, StateBits, StateItems, GoodBlocks, GoodOpen, Stream, Pow2,
           Opening, HeaderEmit, Standard, StandardCode, CodegenOf, LeastCodes;
      CodesApart();
      HdrSizes(h);
      HeaderWriter.WriteDynamicHeader(sink, CodegenCodes(), codegen, numLiterals, numOffsets, numCodegens, isEof, n);
    }

    /** Records that the header written has opened a block. */
    ghost method SetOpen(final: bool, h: Hdr)
      requires Base() && open == NoBlock && GoodHdr(h) && OpenOk(OpenBlock(final, h, []), lastHuffMan, litLens, offLens)
      requires sink.Emitted() == Done() + Opening(final, 2) + HdrBits(h)
      modifies this`open
      ensures Base() && open == OpenBlock(final, h, []) && sink.Emitted() == StateBits(closed, open)
      ensures Items() == old(Items())
    {
      hide Table, CacheOk, OpenOk, GoodGlobals, Separate, StateBits, StateItems, GoodBlocks, GoodOpen, Stream, Pow2,
           Opening, HdrBits;
      OpenNew(closed, final, h);
      open := OpenBlock(final, h, []);
    }

    // -------------------------------------------------------------------------------------------
    // The header cache.
    // -------------------------------------------------------------------------------------------

    /** Nothing is waiting and no block is open. */
    predicate AtStreamStart()
      reads this, sink
    {
      sink.nbytes == 0 && sink.nbits == 0 && lastHeader == 0
    }

    /** Whether the cached header's tables have every symbol of the block. */
    method WarmUsable(numLiterals: nat, numOffsets: nat) returns (ok: bool)
      requires numLiterals <= LITERAL_CODES == literalEncoding.codes.Length && |literalFreq| == LITERAL_SLOTS
      requires numOffsets <= MAX_DIST_CODES == offsetEncoding.codes.Length && |offsetFreq| == OFFSET_SLOTS
      ensures ok <==>
        && hdr.valid && numLiterals <= hdr.numLit && numOffsets <= hdr.numOff
        && (forall s :: 0 <= s < numLiterals && literalFreq[s] != 0 ==> HLen(LitCodes()[s]) != 0)
        && (forall c :: 0 <= c < numOffsets && offsetFreq[c] != 0 ==> HLen(OffCodes()[c]) != 0)
    {
      hide HLen;
      if !hdr.valid || numLiterals > hdr.numLit || numOffsets > hdr.numOff {
        return false;
      }
      for i := 0 to numLiterals
        invariant forall s :: 0 <= s < i && literalFreq[s] != 0 ==> HLen(LitCodes()[s]) != 0
      {
        if literalFreq[i] != 0 && HLen(literalEncoding.codes[i]) == 0 {
          assert HLen(LitCodes()[i]) == 0;
          return false;
        }
      }
      for i := 0 to numOffsets
        invariant forall c :: 0 <= c < i && offsetFreq[c] != 0 ==> HLen(OffCodes()[c]) != 0
      {
        if offsetFreq[i] != 0 && HLen(offsetEncoding.codes[i]) == 0 {
          assert HLen(OffCodes()[i]) == 0;
          return false;
        }
      }
      ok := true;
    }

    /** Keeps the header just written at the start of a stream, unless part of it has left the buffer. */
    method CaptureHeader(size: nat, numLiterals: nat, numOffsets: nat, writesBefore: nat,
                         ghost outBefore: seq<byte>, ghost final: bool, ghost h: Hdr)
      requires Base() && GoodHdr(h) && Standard(h) && Declared(h) && numLiterals == |h.lit| && numOffsets == |h.off|
      requires size == 3 + |HdrBits(h)| <= HEADER_LIMIT
      requires sink.Emitted() == BytesBits(outBefore) + Opening(final, 2) + HdrBits(h)
      requires sink.writes == writesBefore ==> sink.out == outBefore && sink.nbytes % 6 == 0
      modifies this`hdr, this`cached, this`cachedFinal
      ensures Base()
      ensures sink.writes == writesBefore ==> hdr.valid && cached == h && cachedFinal == final
      ensures sink.writes != writesBefore ==> hdr == old(hdr)
    {
      hide Table, OpenOk, GoodGlobals, Separate, GoodBlocks, GoodOpen, Pow2, Opening, HdrBits, GoodHdr, Fitted,
           BytesBits, BitsOf, Standard, StandardCode, CodegenOf, LeastCodes;
      CodesApart();
      if sink.writes != writesBefore {
        return;
      }
      var n := sink.nbytes;
      var buf := sink.bytes[..n] + hdr.buf[n..];
      hdr := HdrCache(true, buf, n, sink.bits, sink.nbits, size, numLiterals, numOffsets);
      cached, cachedFinal := h, final;
      Buffered(outBefore, sink.bytes[..], n, sink.bits, sink.nbits, Opening(final, 2) + HdrBits(h));
      Assoc(BytesBits(outBefore), Opening(final, 2), HdrBits(h));
      assert buf[..n] == sink.bytes[..n];
      assert sink.bytes[..][..n] == sink.bytes[..n];
    }

    /** Copies the cached header to the start of a stream, with this block's final bit. */
    method ReplayHeader(isEof: bool)
      requires Between() && hdr.valid && AtStreamStart() && sink.Emitted() == Done()
      modifies sink`bits, sink`nbits, sink`nbytes, sink.bytes
      ensures Between() && GoodHdr(cached) && Standard(cached)
      ensures sink.Emitted() == Done() + Opening(isEof, 2) + HdrBits(cached)
      ensures sink.nbytes % 6 == 0 && sink.out == old(sink.out)
    {
      hide Table, OpenOk, GoodGlobals, Separate, StateBits, GoodBlocks, GoodOpen, Pow2, Opening, HdrBits, GoodHdr,
           Fitted, BytesBits, BitsOf, Or, And, Standard, StandardCode, CodegenOf, LeastCodes;
      CodesApart();
      var h := hdr;
      ghost var b := h.buf[..h.nbytes];
      ghost var code := Opening(cachedFinal, 2) + HdrBits(cached);
      ghost var out := sink.out;
      NothingBuffered(out, sink.bytes[..], sink.bits);
      for i := 0 to h.nbytes
        invariant sink.out == out && sink.nbytes == 0 && sink.nbits == 0 && hdr == h
        invariant forall k :: 0 <= k < i ==> sink.bytes[k] == h.buf[k]
      {
        sink.bytes[i] := h.buf[i];
      }
      assert sink.bytes[..h.nbytes] == b;
      sink.nbytes := h.nbytes;
      sink.bits := h.bits;
      sink.nbits := h.nbits;
      Patched(b, h.bits, h.nbits, cachedFinal, isEof, HdrBits(cached));
      if h.nbytes > 0 {
        if isEof {
          sink.bytes[0] := SetBit(sink.bytes[0]);
        } else {
          sink.bytes[0] := ClearBit(sink.bytes[0]);
        }
        assert sink.bytes[..h.nbytes] == b[0 := FirstBit(b[0], isEof)];
      } else if isEof {
        sink.bits := Or(sink.bits, 1);
      } else {
        sink.bits := AndNot1(sink.bits);
      }
      assert sink.bytes[..][..h.nbytes] == sink.bytes[..h.nbytes];
      JoinBuffered(out, sink.bytes[..], h.nbytes, sink.bits, sink.nbits);
      Assoc(BytesBits(out), Opening(isEof, 2), HdrBits(cached));
    }

    /** Whether the tables of the open block have every symbol of the tokens. */
    method CanReuse(t: Buffer) returns (ok: bool)
      requires t.Valid() && literalEncoding.codes.Length == LITERAL_CODES &&
        offsetEncoding.codes.Length == MAX_DIST_CODES
      ensures ok <==> CodesCover(LitCodes(), OffCodes(), t.Slice())
    {
      hide SymbolCount, OffsetCount, TokenList, Sum;
      ghost var ts := t.Slice();
      for i := 0 to MAX_DIST_CODES
        invariant forall c :: 0 <= c < i && OffsetCount(ts, c) > 0 ==> OffCodes()[c] != 0
      {
        assert t.offHist[..][i] == OffsetCount(ts, i) && offsetEncoding.codes[i] == OffCodes()[i];
        if t.offHist[i] != 0 && offsetEncoding.codes[i] == 0 {
          return false;
        }
      }
      for i := 0 to LITERAL_CODES - 256
        invariant forall s :: 256 <= s < 256 + i && SymbolCount(ts, s) > 0 ==> LitCodes()[s] != 0
      {
        assert t.extraHist[..][i] == SymbolCount(ts, 256 + i) && literalEncoding.codes[256 + i] == LitCodes()[256 + i];
        if t.extraHist[i] != 0 && literalEncoding.codes[256 + i] == 0 {
          return false;
        }
      }
      for i := 0 to 256
        invariant forall s :: 0 <= s < i && SymbolCount(ts, s) > 0 ==> LitCodes()[s] != 0
      {
        assert t.litHist[..][i] == SymbolCount(ts, i) && literalEncoding.codes[i] == LitCodes()[i];
        if t.litHist[i] != 0 && literalEncoding.codes[i] == 0 {
          return false;
        }
      }
      ok := true;
    }

    /** Writes tokens into the open block with the tables at hand; an end-of-block token finishes it. */
    method PutTokens(ts: seq<nat>)
      requires Base() && open.OpenBlock? && !lastHuffMan && sink.Emitted() == StateBits(closed, open)
      requires TokenList(ts) && CountsCovered(litLens, offLens, ts)
      modifies this`closed, this`open, sink`bits, sink`nbits, sink`nbytes, sink`out, sink`writes, sink.bytes
      ensures Base() && sink.Emitted() == StateBits(closed, open)
      ensures Items() == old(Items()) + Tokens.Items(Body(ts))
      ensures Ends(ts) ==> open == NoBlock
      ensures Ends(ts) ==>
        closed == old(closed) + [Finished(old(open).(items := old(open).items + Tokens.Items(Body(ts))))]
      ensures !Ends(ts) ==>
        closed == old(closed) && open == old(open).(items := old(open).items + Tokens.Items(Body(ts)))
    {
      hide Table, CacheOk, GoodGlobals, Separate, StateBits, StateItems, GoodBlocks, GoodOpen, Stream, Pow2, Opening,
           GoodHdr, CountsCovered, Fitted, CoversAll, ItemsBits, ListEmit, Tables, TokenList, OpenOk, Finished, Body,
           Ends;
      CodesApart();
      var le, oe := LitCodes(), OffCodes();
      ghost var h, xs := open.hdr, Tokens.Items(Body(ts));
      OpenTables(open, litLens, offLens, le, oe, ts);
      sink.WriteTokens(ts, le, oe);
      AddItems(closed, open, xs);
      open := open.(items := open.items + xs);
      if Ends(ts) {
        Assoc(StateBits(old(closed), old(open)), ItemsBits(h.lit, h.off, xs), SymBits(h.lit, END_OF_BLOCK));
        CloseBlock(closed, open);
        NoneOpen(lastHuffMan, litLens, offLens);
        closed, open := closed + [Finished(open)], NoBlock;
      } else {
        assert ItemsBits(h.lit, h.off, xs) + [] == ItemsBits(h.lit, h.off, xs);
        SameOpen(old(open), open, lastHuffMan, litLens, offLens);
      }
    }

    /** A block with the fixed code. */
    method WriteFixedBlock(ts: seq<nat>, eof: bool)
      requires Ready() && TokenList(ts) && Ends(ts)
      modifies this`lastHeader, this`closed, this`open
      modifies sink`bits, sink`nbits, sink`nbytes, sink`out, sink`writes, sink.bytes
      ensures Ready() && open == NoBlock && Items() == old(Items()) + Tokens.Items(Body(ts))
      ensures closed == old(AllClosed()) + [Fixed(eof, Tokens.Items(Body(ts)))]
    {
      hide Table, OpenOk, CacheOk, GoodGlobals, Separate, StateBits, StateItems, GoodBlocks, GoodOpen, Stream, Pow2,
           HeaderOk, Finished, Opening, CoversAll, FixedLit, FixedOff, FixedBits, ListEmit, Tables;
      CodesApart();
      WriteFixedHeader(eof);
      FixedTokens(globals, eof, ts);
      sink.WriteTokens(ts, globals.fixedLiteral, globals.fixedOffset);
      Assoc(Done(), Opening(eof, 1), ListEmit(globals.fixedLiteral, globals.fixedOffset, ts));
      Finish(Fixed(eof, Tokens.Items(Body(ts))));
    }


    /** Code words in place for the header to declare. */
    lemma TableReady(ts: seq<nat>, always: bool, numLit: nat, numOff: nat)
      requires Base() && Indexed(ts, always, literalFreq, offsetFreq, numLit, numOff) && literalFreq[END_OF_BLOCK] > 0
      requires TableOf(literalFreq[..LITERAL_CODES], litLens) && TableOf(offsetFreq[..MAX_DIST_CODES], offLens)
      ensures FIRST_LENGTH <= numLit <= |litLens| == LITERAL_CODES && numOff <= |offLens| == MAX_DIST_CODES
      ensures var lit, off := litLens[..numLit], offLens[..numOff];
        && Fitted(litLens, lit) && Fitted(offLens, off) && Acceptable(lit) && Acceptable(off) && Fits(lit) && Fits(off)
        && Used(lit, END_OF_BLOCK) && CountsCovered(litLens, offLens, ts)
        && LensOf(LitCodes(), numLit) == lit && LensOf(OffCodes(), numOff) == off
        && GoodCodes(LitCodes()) && GoodCodes(OffCodes())
    {
      hide CacheOk, OpenOk, GoodGlobals, Separate, GoodBlocks, GoodOpen, Stream, Pow2, SymbolCount, OffsetCount,
           ValidFreq, Complete, Single, Fits, CanonCodes, HLen, Acceptable;
      CodesApart();
      TablePart(literalFreq[..LITERAL_CODES], litLens, LitCodes(), numLit);
      TablePart(offsetFreq[..MAX_DIST_CODES], offLens, OffCodes(), numOff);
    }

    /** The header, the tokens and the end of block of a block on its own. */
    method WriteWholeBlock(ts: seq<nat>, numLit: nat, numOff: nat, nc: nat, eof: bool, ghost n: nat, ghost h: Hdr)
      requires Between() && sink.Emitted() == Done() && Coding(n, h, numLit, numOff, nc) && Declared(h)
      requires TokenList(ts) && Ends(ts) && CountsCovered(litLens, offLens, ts)
      modifies this`closed, sink`bits, sink`nbits, sink`nbytes, sink`out, sink`writes, sink.bytes
      ensures Ready() && open == NoBlock && closed == old(closed) + [Dynamic(eof, h, Tokens.Items(Body(ts)))]
      ensures Items() == old(Items()) + Tokens.Items(Body(ts))
    {
      hide Table, CacheOk, GoodGlobals, Separate, StateBits, StateItems, GoodBlocks, GoodOpen, Stream, Pow2, Opening,
           GoodHdr, CountsCovered, Fitted, CoversAll, ItemsBits, ListEmit, Tables, TokenList, Body, Ends, HdrBits;
      CodesApart();
      WriteHeader(numLit, numOff, nc, eof, n, h);
      var le, oe := LitCodes(), OffCodes();
      ghost var xs := Tokens.Items(Body(ts));
      assert OpenOk(OpenBlock(eof, h, []), false, litLens, offLens);
      OpenTables(OpenBlock(eof, h, []), litLens, offLens, le, oe, ts);
      sink.WriteTokens(ts, le, oe);
      WholeBlock(eof, h, xs, Done(), ListEmit(le, oe, ts));
      Finish(Dynamic(eof, h, xs));
    }

    /** What the header declares of the tables built for a block. */
    ghost predicate Declares(lit: seq<nat>, off: seq<nat>, numLit: nat, numOff: nat)
      reads this`litLens, this`offLens, this`literalEncoding, literalEncoding.codes, offsetEncoding.codes
    {
      && FIRST_LENGTH <= numLit <= LITERAL_CODES == |litLens| == |LitCodes()|
      && 1 <= numOff <= MAX_DIST_CODES == |offLens| == |OffCodes()|
      && Fitted(litLens, lit) && Fitted(offLens, off) && Acceptable(lit) && Acceptable(off) && Fits(lit) && Fits(off)
      && Used(lit, END_OF_BLOCK) && LensOf(LitCodes(), numLit) == lit && LensOf(OffCodes(), numOff) == off
      && GoodCodes(LitCodes()) && GoodCodes(OffCodes())
    }

    /** Builds both tables for the indexed block. */
    method BuildCodes(numLiterals: nat, numOffsets: nat, ghost ts: seq<nat>, ghost always: bool)
      returns (ghost lit: seq<nat>, ghost off: seq<nat>)
      requires Base() && open == NoBlock && Indexed(ts, always, literalFreq, offsetFreq, numLiterals, numOffsets)
      requires Ends(ts) || always
      modifies this`hdr, this`litLens, this`offLens, literalEncoding.Repr(), offsetEncoding.Repr()
      ensures Base() && !hdr.valid && sink.Emitted() == old(sink.Emitted())
      ensures unchanged(`closed, `open, `tail, `lastHeader, `lastHuffMan, `literalFreq, `offsetFreq, sink)
      ensures Declares(lit, off, numLiterals, numOffsets) && CountsCovered(litLens, offLens, ts)
      ensures OwnCodes()
    {
      hide OwnTable, Encoder.Repr, Table, OpenOk, CacheOk, GoodGlobals, Separate, GoodBlocks, GoodOpen, Stream, Pow2,
           Indexed, TableOf, ValidFreq, CountsCovered, Fitted, Acceptable, LensOf, GoodCodes, Fits;
      EncodersApart();
      IndexedSizes(ts, always, literalFreq, offsetFreq, numLiterals, numOffsets);
      Generate();
      TableReady(ts, always, numLiterals, numOffsets);
      lit, off := litLens[..numLiterals], offLens[..numOffsets];
    }

    /** Builds both tables, and the parts of the header that declares them. */
    method BuildTables(numLiterals: nat, numOffsets: nat, ghost ts: seq<nat>, ghost always: bool)
      returns (size: nat, numCodegens: nat, ghost n: nat, ghost h: Hdr)
      requires Base() && open == NoBlock && Indexed(ts, always, literalFreq, offsetFreq, numLiterals, numOffsets)
      requires Ends(ts) || always
      modifies this`hdr, this`litLens, this`offLens
      modifies literalEncoding.Repr(), offsetEncoding.Repr(), codegenEncoding.Repr(), codegen, codegenFreq
      ensures Base() && !hdr.valid && sink.Emitted() == old(sink.Emitted())
      ensures unchanged(`closed, `open, `tail, `lastHeader, `lastHuffMan, `literalFreq, `offsetFreq, sink)
      ensures Prepared(n, h, numLiterals, numOffsets, numCodegens, size, ts) && OwnCodes()
    {
      hide OwnCodes, Encoder.Repr, Table, OpenOk, CacheOk, GoodGlobals, Separate, GoodBlocks, GoodOpen, Stream, Pow2,
           Indexed, CountsCovered, Fitted, Acceptable, Coded, HeaderReady, NoneAfter, GoodHdr, LensOf, GoodCodes, Fits,
           HeaderEmit, Standard, StandardCode, CodegenOf, LeastCodes;
      EncodersApart();
      ghost var lit, off := BuildCodes(numLiterals, numOffsets, ts, always);
      n := MakeCodegen(numLiterals, numOffsets, LitCodes(), OffCodes(), lit, off);
      ghost var cg := codegen[..n];
      size, numCodegens := HeaderSize(CodegenCodes(), codegenFreq, cg, lit + off, numLiterals, numOffsets);
      h := Hdr(lit, off, numCodegens, CodegenCodes(), cg);
      HeaderGood(h, codegenFreq[..]);
    }

    /** A buffer of tokens that shares nothing with the writer. */
    predicate Foreign(t: Buffer)
      reads this`literalEncoding, this`tmpLitEncoding
    {
      t.Repr() !! {sink.bytes as object, codegen, codegenFreq} + literalEncoding.Repr() + tmpLitEncoding.Repr()
        + offsetEncoding.Repr() + codegenEncoding.Repr()
    }

    lemma BaseParts()
      requires Base()
      ensures Apart() && sink.Valid() && GoodBlocks(closed) && GoodOpen(open)
      ensures |literalFreq| == LITERAL_SLOTS && |offsetFreq| == OFFSET_SLOTS
    {
      hide GoodBlocks, GoodOpen;
    }

    /** Calls on this writer and these tokens leave the writer's fields to the methods that name them. */
    lemma AllApart(t: Buffer)
      requires Base() && Foreign(t)
      ensures {this as object, sink} !! (literalEncoding.Repr() + offsetEncoding.Repr() + codegenEncoding.Repr()
        + tmpLitEncoding.Repr() + t.Repr())
    {
      BaseParts();
      EncodersApart();
      TokensApart(t);
    }

    lemma TokensApart(t: Buffer)
      requires Foreign(t)
      ensures {t as object} + t.Repr() !! {sink.bytes as object, codegen, codegenFreq, this, sink} +
        literalEncoding.Repr()
        + tmpLitEncoding.Repr() + offsetEncoding.Repr() + codegenEncoding.Repr()
    {
    }

    /** Adds the end of block to the tokens. */
    method EndTokens(t: Buffer)
      requires Inv() && t.Valid() && AllTokens(t.Slice()) && t.n < MAX_BLOCK && t.n < t.tokens.Length && Foreign(t)
      modifies t`n, t.Repr()
      ensures Inv() && t.Valid() && Ends(t.Slice()) && Body(t.Slice()) == old(t.Slice())
      ensures TokenList(t.Slice()) && AllClosed() == old(AllClosed()) && Items() == old(Items())
      ensures t.n == old(t.n) + 1 && t.Slice() == old(t.Slice()) + [EOB_TOKEN]
    {
      hide Table, OpenOk, CacheOk, GoodGlobals, StateBits, StateItems, GoodBlocks, GoodOpen, Stream, Pow2, HeaderOk,
           Finished, Counted, AllTokens, TokenList, Sum, Body, Ends, Buffer.Tallied;
      ghost var ts := t.Slice();
      t.AddEOB();
      BodyEnd(ts, t.Slice());
      assert sink.Emitted() == old(sink.Emitted());
    }

    /** Writes one whole block in one of the three forms. */
    method WriteChosen(ts: seq<nat>, numLiterals: nat, numOffsets: nat, numCodegens: nat, eof: bool,
            input: Option<seq<byte>>, z: Sizes, ghost n: nat, ghost h: Hdr)
      requires Ready() && open == NoBlock && TokenList(ts) && Ends(ts)
      requires Coding(n, h, numLiterals, numOffsets, numCodegens) && Declared(h) && CountsCovered(litLens, offLens, ts)
      modifies this`lastHeader, this`closed, this`open, this`tail
      modifies sink`bits, sink`nbits, sink`nbytes, sink`out, sink`writes, sink`failed, sink.bytes
      ensures Inv() && open == NoBlock && (tail == [] || eof)
      ensures Appended(old(Items()), Items(), Tokens.Items(Body(ts)), input)
      ensures OneBlock(old(closed), closed, eof) && closed != [] && FormIs(closed[|closed| - 1], |ts|, z, input)
    {
      hide Encoder.Repr, Table, OpenOk, CacheOk, GoodGlobals, Separate, StateBits, StateItems, GoodBlocks, GoodOpen,
           Stream, Pow2, HeaderOk, Finished, TokenList, CountsCovered, Fitted, GoodHdr, Coding, Declared, Body, Ends;
      CodesApart();
      HeaderOpen(open, lastHeader);
      assert Done() + [] == Done() && closed + [] == closed;
      if StoredWins(|ts|, z, input) {
        WriteStored(input.value, eof);
      } else if FixedWins(|ts|, z) {
        WriteFixedBlock(ts, eof);
      } else {
        WriteWholeBlock(ts, numLiterals, numOffsets, numCodegens, eof, n, h);
      }
    }

    /** Builds the tables and writes one whole block in one of the three forms. */
    method WriteSmallest(ts: seq<nat>, numLiterals: nat, numOffsets: nat, eof: bool, input: Option<seq<byte>>)
      requires Ready() && open == NoBlock && TokenList(ts) && Ends(ts)
      requires Indexed(ts, false, literalFreq, offsetFreq, numLiterals, numOffsets)
      modifies this`lastHeader, this`closed, this`open, this`tail, this`hdr, this`litLens, this`offLens
      modifies sink`bits, sink`nbits, sink`nbytes, sink`out, sink`writes, sink`failed, sink.bytes
      modifies literalEncoding.Repr(), offsetEncoding.Repr(), codegenEncoding.Repr(), codegen, codegenFreq
      ensures Inv() && open == NoBlock && (tail == [] || eof)
      ensures Appended(old(Items()), Items(), Tokens.Items(Body(ts)), input)
      ensures OneBlock(old(closed), closed, eof) && closed != [] && FormChosen(ts, input, closed[|closed| - 1])
    {
      hide Encoder.Repr, Base, Separate, StateBits, StateItems, GoodBlocks, GoodOpen, Stream, Pow2, HeaderOk, TokenList,
           Indexed, CountsCovered, Coding, Declared, Body, Ends, Appended, OneBlock, OwnCodes, Standard, SizeIs,
           GoodHdr, ExtraSize, FormIs, FreshSizes;
      assert Base();
      EndIndexed(ts, literalFreq, offsetFreq, numLiterals, numOffsets);
      ghost var n, h;
      var size, numCodegens;
      var extra := 0;
      if input.Some? && |input.value| <= MAX_STORED {
        extra := ExtraBitSize(literalFreq, offsetFreq);
      }
      size, numCodegens, n, h := BuildTables(numLiterals, numOffsets, ts, true);
      PreparedParts(n, h, numLiterals, numOffsets, numCodegens, size, ts);
      var z := Measure(ts, numLiterals, numOffsets, size, extra, h);
      WriteChosen(ts, numLiterals, numOffsets, numCodegens, eof, input, z, n, h);
    }

    /** Takes the histograms of the tokens over. */
    method Reindex(t: Buffer, alwaysEOB: bool) returns (numLiterals: nat, numOffsets: nat)
      requires Ready() && t.Valid() && t.n > 0 && (Ends(t.Slice()) || alwaysEOB)
      modifies this`literalFreq, this`offsetFreq
      ensures Ready() && Indexed(t.Slice(), alwaysEOB, literalFreq, offsetFreq, numLiterals, numOffsets)
    {
      hide Buffer.Valid, Table, OpenOk, CacheOk, GoodGlobals, Separate, StateBits, GoodBlocks, GoodOpen, Stream, Pow2;
      hide HeaderOk, TokenList, Indexed, Ends, Buffer.Tallied;
      t.Sizes();
      t.Counts();
      numLiterals, numOffsets := IndexTokens(t, alwaysEOB, t.Slice());
      IndexedSizes(t.Slice(), alwaysEOB, literalFreq, offsetFreq, numLiterals, numOffsets);
    }

    /** Adds the end of block, finishes an open block, and takes the histograms over. */
    method EndAndIndex(t: Buffer) returns (numLiterals: nat, numOffsets: nat)
      requires Ready() && t.Valid() && AllTokens(t.Slice()) && t.n < MAX_BLOCK && t.n < t.tokens.Length && Foreign(t)
      modifies this`lastHeader, this`closed, this`open, this`literalFreq, this`offsetFreq
      modifies sink`bits, sink`nbits, sink`nbytes, sink`out, sink`writes, sink.bytes, t`n, t.Repr()
      ensures Ready() && open == NoBlock && closed == old(AllClosed()) && Items() == old(Items())
      ensures t.n <= t.tokens.Length && TokenList(t.Slice()) && Ends(t.Slice()) && Body(t.Slice()) == old(t.Slice())
      ensures t.Slice() == WithEnd(old(t.Slice()), true)
      ensures Indexed(t.Slice(), false, literalFreq, offsetFreq, numLiterals, numOffsets)
    {
      hide Buffer.Valid, Encoder.Repr, Base, Separate, StateBits, StateItems, GoodBlocks, GoodOpen, Stream, Pow2;
      hide HeaderOk, Finished, AllTokens, TokenList, Indexed, Ends, Body, Buffer.Tallied;
      BaseParts();
      CodesApart();
      EndTokens(t);
      CloseOpen();
      t.Sizes();
      numLiterals, numOffsets := Reindex(t, false);
    }

    /** Writes the tokens as one block in the smallest of the three forms. */
    method WriteBlock(t: Buffer, eof: bool, input: Option<seq<byte>>)
      requires Ready() && t.Valid() && AllTokens(t.Slice()) && t.n < MAX_BLOCK && t.n < t.tokens.Length && Foreign(t)
      modifies this`lastHeader, this`closed, this`open, this`tail, this`literalFreq, this`offsetFreq
      modifies this`hdr, this`litLens, this`offLens
      modifies sink`bits, sink`nbits, sink`nbytes, sink`out, sink`writes, sink`failed, sink.bytes
      modifies literalEncoding.Repr(), offsetEncoding.Repr(), codegenEncoding.Repr(), codegen, codegenFreq, t`n,
               t.Repr()
      ensures Inv() && open == NoBlock && (tail == [] || eof)
      ensures Appended(old(Items()), Items(), Tokens.Items(old(t.Slice())), input)
      ensures OneBlock(old(AllClosed()), closed, eof) && closed != []
      ensures FormChosen(WithEnd(old(t.Slice()), true), input, closed[|closed| - 1])
    {
      hide Buffer.Valid, Encoder.Repr, Base, Separate, StateBits, StateItems, GoodBlocks, GoodOpen, Stream, Pow2,
           HeaderOk;
      hide Finished, AllTokens, TokenList, Indexed, Ends, Body, Appended, OneBlock, Buffer.Tallied, FormChosen;
      var numLiterals, numOffsets := EndAndIndex(t);
      WriteSmallest(t.Slice(), numLiterals, numOffsets, eof, input);
    }

    /** The header of a new block with fresh tables, kept in the cache when it starts a stream. */
    method OpenFresh(numLit: nat, numOff: nat, nc: nat, size: nat, eof: bool, sync: bool, ghost n: nat, ghost h: Hdr)
      requires Between() && sink.Emitted() == Done() && Coding(n, h, numLit, numOff, nc) && Declared(h)
      requires SizeIs(h, size) && size <= HEADER_LIMIT
      modifies this`lastHeader, this`lastHuffMan, this`open, this`hdr, this`cached, this`cachedFinal
      modifies sink`bits, sink`nbits, sink`nbytes, sink`out, sink`writes, sink.bytes
      ensures Base() && open == OpenBlock(eof, h, []) && sink.Emitted() == StateBits(closed, open)
      ensures !lastHuffMan && lastHeader == (if sync then 0 else size) && Items() == old(Items())
    {
      hide Table, CacheOk, OpenOk, GoodGlobals, Separate, StateBits, StateItems, GoodBlocks, GoodOpen, Stream, Pow2,
           Opening, GoodHdr, Fitted, HdrBits, BytesBits, BitsOf, Coding, Declared, Standard, StandardCode, CodegenOf,
           LeastCodes;
      CodesApart();
      CodingSizes(n, h, numLit, numOff, nc);
      DeclaredOpen(eof, h);
      NoneOpen(false, litLens, offLens);
      ghost var out := sink.out;
      if AtStreamStart() { NothingBuffered(out, sink.bytes[..], sink.bits); }
      var atStart := AtStreamStart();
      var writesBefore := sink.writes;
      WriteHeader(numLit, numOff, nc, eof, n, h);
      if atStart {
        CaptureHeader(size, numLit, numOff, writesBefore, out, eof, h);
      }
      if !sync {
        lastHeader := size;
      }
      lastHuffMan := false;
      SetOpen(eof, h);
    }

    /** Replays the cached header and writes the tokens with its tables. */
    method WriteWarm(ts: seq<nat>, eof: bool, sync: bool)
      requires Ready() && open == NoBlock && hdr.valid && AtStreamStart() && TokenList(ts) && (Ends(ts) <==> sync)
      requires CountsCovered(litLens, offLens, ts)
      modifies this`lastHeader, this`lastHuffMan, this`open, this`closed
      modifies sink`bits, sink`nbits, sink`nbytes, sink`out, sink`writes, sink.bytes
      ensures Ready() && (sync ==> open == NoBlock) && Items() == old(Items()) + Tokens.Items(Body(ts))
      ensures OneBlock(old(closed), AllClosed(), eof)
    {
      hide Table, GoodGlobals, Separate, StateBits, StateItems, GoodBlocks, GoodOpen, Stream, Pow2, Opening, GoodHdr,
           Fitted, HdrBits, BytesBits, BitsOf, TokenList, Ends, Body, CountsCovered, Standard, StandardCode, CodegenOf,
           LeastCodes;
      OpenWarm(eof, sync);
      PutTokens(ts);
      assert sink.Emitted() + [] == sink.Emitted();
    }

    /** Replays the cached header, which opens a block. */
    method OpenWarm(eof: bool, sync: bool)
      requires Ready() && open == NoBlock && hdr.valid && AtStreamStart()
      modifies this`lastHeader, this`lastHuffMan, this`open
      modifies sink`bits, sink`nbits, sink`nbytes, sink`out, sink`writes, sink.bytes
      ensures Base() && open == OpenBlock(eof, cached, []) && sink.Emitted() == StateBits(closed, open)
      ensures !lastHuffMan && lastHeader == (if sync then 0 else hdr.size) && Items() == old(Items())
    {
      hide Table, GoodGlobals, Separate, StateBits, StateItems, GoodBlocks, GoodOpen, Stream, Pow2, Opening, GoodHdr,
           Fitted, HdrBits, BytesBits, BitsOf, Standard, StandardCode, CodegenOf, LeastCodes;
      CodesApart();
      assert Done() + [] == Done();
      ReplayHeader(eof);
      if !sync {
        lastHeader := hdr.size;
      }
      lastHuffMan := false;
      SetOpen(eof, cached);
    }

    /** Finishes the open block when its tables cannot be used for the tokens. */
    method PrepareReuse(t: Buffer, eof: bool)
      requires Ready() && t.Valid() && Foreign(t)
      modifies this`lastHeader, this`lastHuffMan, this`closed, this`open
      modifies sink`bits, sink`nbits, sink`nbytes, sink`out, sink`writes, sink.bytes
      ensures Ready() && AllClosed() == old(AllClosed()) && Items() == old(Items())
      ensures open.OpenBlock? ==> !eof && !lastHuffMan && CountsCovered(litLens, offLens, t.Slice())
      ensures old(open) == NoBlock ==> open == NoBlock
    {
      hide Buffer.Valid, Encoder.Repr, Table, CacheOk, GoodGlobals, Separate, StateBits, StateItems, GoodBlocks,
           GoodOpen, Stream, Pow2, HeaderOk, Finished, Fitted, GoodHdr, CountsCovered, Buffer.Tallied;
      CodesApart();
      HeaderOpen(open, lastHeader);
      if (lastHuffMan || eof) && lastHeader > 0 {
        CloseOpen();
        lastHuffMan := false;
        assert closed + [] == closed;
      }
      HeaderOpen(open, lastHeader);
      if lastHeader > 0 {
        var ok := CanReuse(t);
        if !ok {
          CloseOpen();
          assert closed + [] == closed;
        } else {
          t.Sizes();
          CoverCounts(litLens, offLens, LitCodes(), OffCodes(), t.Slice());
        }
      }
    }

    /** Writes the block stored or with the fixed code, if that is chosen. In the second case the tokens
        need their end of block. */
    method WriteAside(ts: seq<nat>, eof: bool, sync: bool, input: Option<seq<byte>>, fixed: bool, storedInstead: bool,
            stored: bool)
      returns (done: bool, ended: bool, ghost asStored: bool)
      requires Ready() && TokenList(ts) && (Ends(ts) <==> sync)
      modifies this`lastHeader, this`closed, this`open, this`tail
      modifies sink`bits, sink`nbits, sink`nbytes, sink`out, sink`writes, sink`failed, sink.bytes
      ensures (ended ==> !sync) && (asStored ==> done)
      ensures asStored <==> Storable(input) && if |ts| < MAX_PREDEFINED && fixed then storedInstead else stored
      ensures |ts| < MAX_PREDEFINED && fixed ==> done
      ensures !asStored ==> (done <==> |ts| < MAX_PREDEFINED && fixed)
      ensures done ==> closed != [] && WrittenAs(closed[|closed| - 1], asStored, input)
      ensures done ==> Inv() && open == NoBlock && (tail == [] || eof) && OneBlock(old(AllClosed()), closed, eof)
      ensures done ==> Took(old(Items()), Items(), Tokens.Items(Body(ts)), input, asStored)
      ensures !done ==> Ready() && unchanged(`lastHeader, `closed, `open, `tail)
    {
      hide Encoder.Repr, Base, Separate, StateBits, StateItems, GoodBlocks, GoodOpen, Stream, Pow2, HeaderOk, Finished;
      hide TokenList, Body, Ends;
      var storable := input.Some? && |input.value| <= MAX_STORED;
      ended, asStored := false, false;
      if |ts| < MAX_PREDEFINED && fixed {
        if storable && storedInstead {
          WriteStored(input.value, eof);
          return true, false, true;
        }
        ended := !sync;
        EndList(ts);
        WriteFixedBlock(if sync then ts else ts + [EOB_TOKEN], eof);
        return true, ended, false;
      }
      if storable && stored {
        WriteStored(input.value, eof);
        return true, false, true;
      }
      done := false;
    }

    /** A block with this header is open, empty, and its header's size is set unless it will be finished. */
    ghost predicate Opened(final: bool, sync: bool)
      reads this, sink, sink.bytes, literalEncoding.codes, offsetEncoding.codes
    {
      && Base() && open.OpenBlock? && open.final == final && open.items == [] && !lastHuffMan
      && sink.Emitted() == StateBits(closed, open) && tail == []
      && lastHeader <= HEADER_LIMIT && lastHeader == if sync then 0 else 3 + |HdrBits(open.hdr)|
    }

    /** With fresh tables, the block is written aside or its header is written. */
    method OpenOrAside(ts: seq<nat>, numLiterals: nat, numOffsets: nat, numCodegens: nat, size: nat, eof: bool,
            sync: bool, input: Option<seq<byte>>, z: Sizes, ghost n: nat, ghost h: Hdr)
      returns (done: bool, ended: bool, ghost asStored: bool)
      requires Ready() && open == NoBlock && TokenList(ts) && (Ends(ts) <==> sync)
      requires Prepared(n, h, numLiterals, numOffsets, numCodegens, size, ts)
      modifies this`lastHeader, this`lastHuffMan, this`closed, this`open, this`tail
      modifies this`hdr, this`cached, this`cachedFinal
      modifies sink`bits, sink`nbits, sink`nbytes, sink`out, sink`writes, sink`failed, sink.bytes
      ensures (ended ==> !sync) && (asStored ==> done) && (asStored <==> StoredWins(|ts|, z, input))
      ensures done ==> closed != [] && FormIs(closed[|closed| - 1], |ts|, z, input)
      ensures !done ==> forall b: Block :: b.Dynamic? ==> FormIs(b, |ts|, z, input)
      ensures done ==> Inv() && open == NoBlock && (tail == [] || eof) && OneBlock(old(closed), closed, eof)
      ensures done ==> Took(old(Items()), Items(), Tokens.Items(Body(ts)), input, asStored)
      ensures !done ==> Opened(eof, sync) && closed == old(closed) && Items() == old(Items())
      ensures !done ==> CountsCovered(litLens, offLens, ts)
    {
      hide Encoder.Repr, Base, Separate, OpenOk, CacheOk, StateBits, StateItems, GoodBlocks, GoodOpen, Stream, Pow2,
           TokenList;
      hide Indexed, CountsCovered, Coding, Declared, Body, Ends, Took, OneBlock, HdrBits, GoodHdr, Finished,
           GoodGlobals, Table;
      BaseParts();
      CodesApart();
      HeaderOpen(open, lastHeader);
      assert closed + [] == closed;
      var storable := input.Some? && |input.value| <= MAX_STORED;
      var ssize := if storable then StoredSize(input.value) else 0;
      done, ended, asStored := WriteAside(ts, eof, sync, input, z.fixed <= z.dynamic, ssize <= z.fixed,
        ssize <= z.dynamic);
      if !done {
        BaseParts();
        assert Done() + [] == Done();
        HeaderBound(h);
        OpenFresh(numLiterals, numOffsets, numCodegens, size, eof, sync, n, h);
      }
    }

    /** The sizes of the indexed block with the codes just built and with the fixed code. */
    method Measure(ghost ts: seq<nat>, numLiterals: nat, numOffsets: nat, size: nat, extra: nat, ghost h: Hdr)
      returns (z: Sizes)
      requires Base() && OwnCodes() && Indexed(ts, true, literalFreq, offsetFreq, numLiterals, numOffsets)
      requires Declared(h) && SizeIs(h, size) && Standard(h) && |h.lit| == numLiterals && |h.off| == numOffsets
      ensures forall input :: ExtraFor(input, extra) ==> FreshSizes(ts, Storable(input), z)
    {
      hide OpenOk, CacheOk, Separate, GoodBlocks, GoodOpen, Stream, Pow2, OwnTable, GoodHdr, Standard, HLen, Indexed,
           ExtraSize;
      hide SizesOf, HdrBits, GoodGlobals, Table, FreshFrom;
      CodesApart();
      BaseParts();
      DeclaredSizes(h);
      TableHLens(litLens, LitCodes());
      TableHLens(offLens, OffCodes());
      GlobalHLens(globals);
      z := ComputeSizes(literalFreq, offsetFreq, LitCodes(), OffCodes(), globals.fixedLiteral, globals.fixedOffset,
        size, extra, litLens, offLens);
      forall input | ExtraFor(input, extra) ensures FreshSizes(ts, Storable(input), z) {
        FreshFromParts(ts, Storable(input), literalFreq, offsetFreq, numLiterals, numOffsets, litLens, offLens, h, z,
          size, extra);
      }
    }

    lemma DeclaredSizes(h: Hdr)
      requires Declared(h)
      ensures |litLens| == LITERAL_CODES && |offLens| == MAX_DIST_CODES
    {
      hide Fitted;
    }

    /** Fresh tables: the block is written aside, or its header is written. */
    method BuildAndOpen(ts: seq<nat>, numLiterals: nat, numOffsets: nat, eof: bool, sync: bool,
            input: Option<seq<byte>>, extra: nat)
      returns (done: bool, ended: bool, ghost asStored: bool)
      requires Ready() && open == NoBlock && TokenList(ts) && (Ends(ts) <==> sync)
      requires Indexed(ts, true, literalFreq, offsetFreq, numLiterals, numOffsets)
      modifies this`lastHeader, this`lastHuffMan, this`closed, this`open, this`tail
      modifies this`hdr, this`litLens, this`offLens, this`cached, this`cachedFinal
      modifies sink`bits, sink`nbits, sink`nbytes, sink`out, sink`writes, sink`failed, sink.bytes
      modifies literalEncoding.Repr(), offsetEncoding.Repr(), codegenEncoding.Repr(), codegen, codegenFreq
      ensures (ended ==> !sync) && (asStored ==> done)
      ensures old(ExtraFor(input, extra)) ==> Chosen(ts, input, asStored)
      ensures old(ExtraFor(input, extra)) ==> FormAfter(ts, input, done, closed)
      ensures done ==> Inv() && open == NoBlock && (tail == [] || eof) && OneBlock(old(closed), closed, eof)
      ensures done ==> Took(old(Items()), Items(), Tokens.Items(Body(ts)), input, asStored)
      ensures !done ==> Opened(eof, sync) && closed == old(closed) && Items() == old(Items())
      ensures !done ==> CountsCovered(litLens, offLens, ts)
    {
      hide Encoder.Repr, Base, Separate, StateBits, StateItems, GoodBlocks, GoodOpen, Stream, Pow2, TokenList, Indexed;
      hide CountsCovered, Body, Ends, Took, OneBlock, Prepared, Opened, HeaderOk, OwnCodes, FreshSizes, StoredWins,
           ExtraSize;
      hide Standard, SizeIs, Declared, Chosen, ExtraFor, Storable, FormIs, FormAfter;
      BaseParts();
      ghost var n, h;
      var size, numCodegens;
      size, numCodegens, n, h := BuildTables(numLiterals, numOffsets, ts, true);
      PreparedParts(n, h, numLiterals, numOffsets, numCodegens, size, ts);
      var z := Measure(ts, numLiterals, numOffsets, size, extra, h);
      ChosenBy(ts, input, z);
      done, ended, asStored := OpenOrAside(ts, numLiterals, numOffsets, numCodegens, size, eof, sync, input, z, n, h);
      FormBy(ts, input, z, done, closed);
    }

    lemma PreparedParts(n: nat, h: Hdr, numLit: nat, numOff: nat, nc: nat, size: nat, ts: seq<nat>)
      requires Prepared(n, h, numLit, numOff, nc, size, ts)
      ensures Declared(h) && SizeIs(h, size) && Standard(h) && |h.lit| == numLit && |h.off| == numOff
    {
      hide Standard, SizeIs, Declared, CountsCovered, GoodHdr;
    }

    /** What is added to sizes that are compared when no block is open. */
    ghost predicate ExtraFor(input: Option<seq<byte>>, extra: nat)
      reads this`literalFreq, this`offsetFreq
    {
      && |literalFreq| >= LITERAL_CODES && |offsetFreq| >= MAX_DIST_CODES
      && extra == if Storable(input) then ExtraSize(literalFreq, offsetFreq) else 0
    }

    /** A new block: replayed, written aside, or opened with fresh tables. */
    method NewBlock(ts: seq<nat>, numLiterals: nat, numOffsets: nat, eof: bool, sync: bool, input: Option<seq<byte>>,
                    extra: nat, choice: Choice) returns (done: bool, ended: bool, ghost asStored: bool)
      requires Ready() && open == NoBlock && TokenList(ts) && (Ends(ts) <==> sync)
      requires Indexed(ts, true, literalFreq, offsetFreq, numLiterals, numOffsets)
      modifies this`lastHeader, this`lastHuffMan, this`closed, this`open, this`tail
      modifies this`hdr, this`litLens, this`offLens, this`cached, this`cachedFinal
      modifies sink`bits, sink`nbits, sink`nbytes, sink`out, sink`writes, sink`failed, sink.bytes
      modifies literalEncoding.Repr(), offsetEncoding.Repr(), codegenEncoding.Repr(), codegen, codegenFreq
      ensures (ended ==> !sync) && (asStored ==> done)
      ensures !old(hdr.valid) && old(ExtraFor(input, extra)) ==> Chosen(ts, input, asStored)
      ensures !old(hdr.valid) && done ==> open == NoBlock
      ensures !old(hdr.valid) && old(ExtraFor(input, extra)) ==> FormAfter(ts, input, done, closed)
      ensures done ==> Inv() && (sync ==> open == NoBlock) && (tail == [] || eof)
      ensures done ==> OneBlock(old(closed), AllClosed(), eof)
      ensures done ==> Took(old(Items()), Items(), Tokens.Items(Body(ts)), input, asStored)
      ensures !done ==> Opened(eof, sync) && closed == old(closed) && Items() == old(Items())
      ensures !done ==> CountsCovered(litLens, offLens, ts)
    {
      hide Encoder.Repr, Table, OpenOk, GoodGlobals, Separate, StateBits, StateItems, GoodBlocks, GoodOpen, Stream,
           Pow2;
      hide TokenList, Indexed, CountsCovered, Body, Ends, OneBlock, HdrBits, GoodHdr, Fitted, Chosen, ExtraFor,
           Standard, FormAfter;
      CodesApart();
      HeaderOpen(open, lastHeader);
      if AtStreamStart() {
        IndexedFits(ts, literalFreq, offsetFreq, numLiterals, numOffsets);
        var usable := WarmUsable(numLiterals, numOffsets);
        if usable && choice.warm {
          WarmCovers(litLens, offLens, LitCodes(), OffCodes(), ts, literalFreq, offsetFreq, numLiterals, numOffsets);
          WriteWarm(ts, eof, sync);
          return true, false, false;
        }
      }
      done, ended, asStored := BuildAndOpen(ts, numLiterals, numOffsets, eof, sync, input, extra);
      assert closed + [] == closed;
    }

    /** Writes the tokens of the block just opened. */
    method FillOpened(ts: seq<nat>, eof: bool, sync: bool)
      requires Opened(eof, sync) && TokenList(ts) && (Ends(ts) <==> sync) && CountsCovered(litLens, offLens, ts)
      modifies this`closed, this`open, sink`bits, sink`nbits, sink`nbytes, sink`out, sink`writes, sink.bytes
      ensures Ready() && (sync ==> open == NoBlock) && OneBlock(old(closed), AllClosed(), eof)
      ensures Items() == old(Items()) + Tokens.Items(Body(ts)) && AllClosed() != [] && LastBlock().Dynamic?
    {
      hide Table, OpenOk, CacheOk, GoodGlobals, Separate, StateBits, StateItems, GoodBlocks, GoodOpen, Stream, Pow2,
           TokenList, CountsCovered, Body, Ends, HdrBits, GoodHdr;
      PutTokens(ts);
      assert sink.Emitted() + [] == sink.Emitted();
    }

    /** Writes the tokens into the block that stays open, or finishes it with them. */
    method Continue(ts: seq<nat>, sync: bool)
      requires Ready() && open.OpenBlock? && !lastHuffMan
      requires TokenList(ts) && (Ends(ts) <==> sync) && CountsCovered(litLens, offLens, ts)
      modifies this`lastHeader, this`closed, this`open, sink`bits, sink`nbits, sink`nbytes, sink`out, sink`writes,
               sink.bytes
      ensures Ready() && (sync ==> open == NoBlock) && Items() == old(Items()) + Tokens.Items(Body(ts))
      ensures NoneFinal(old(AllClosed())) ==> NoneFinal(AllClosed())
    {
      hide Table, OpenOk, CacheOk, GoodGlobals, Separate, StateBits, StateItems, GoodBlocks, GoodOpen, Stream, Pow2,
           TokenList, CountsCovered, Body, Ends, HdrBits, GoodHdr;
      assert sink.Emitted() + [] == sink.Emitted();
      if sync {
        lastHeader := 0;
      }
      ghost var before, o, xs := closed, open, Tokens.Items(Body(ts));
      SameFinal(before, o, o.(items := o.items + xs));
      PutTokens(ts);
      assert sink.Emitted() + [] == sink.Emitted();
      assert closed + [] == closed;
    }

    /** Writes the tokens as a new block. */
    method WriteNew(ts: seq<nat>, numLiterals: nat, numOffsets: nat, eof: bool, sync: bool, input: Option<seq<byte>>,
                    extra: nat, choice: Choice) returns (ended: bool, ghost asStored: bool)
      requires Ready() && open == NoBlock && TokenList(ts) && (Ends(ts) <==> sync)
      requires Indexed(ts, true, literalFreq, offsetFreq, numLiterals, numOffsets)
      modifies this`lastHeader, this`lastHuffMan, this`closed, this`open, this`tail
      modifies this`hdr, this`litLens, this`offLens, this`cached, this`cachedFinal
      modifies sink`bits, sink`nbits, sink`nbytes, sink`out, sink`writes, sink`failed, sink.bytes
      modifies literalEncoding.Repr(), offsetEncoding.Repr(), codegenEncoding.Repr(), codegen, codegenFreq
      ensures ended ==> !sync
      ensures Inv() && (sync ==> open == NoBlock) && (tail == [] || eof) && OneBlock(old(closed), AllClosed(), eof)
      ensures Took(old(Items()), Items(), Tokens.Items(Body(ts)), input, asStored)
      ensures !old(hdr.valid) && old(ExtraFor(input, extra)) ==> Chosen(ts, input, asStored)
      ensures !old(hdr.valid) && old(ExtraFor(input, extra)) ==> AllClosed() != [] && FormChosen(ts, input, LastBlock())
    {
      hide Encoder.Repr, Base, Separate, StateBits, StateItems, GoodBlocks, GoodOpen, Stream, Pow2, TokenList, Indexed;
      hide CountsCovered, Body, Ends, OneBlock, HeaderOk, Opened, Finished, Chosen, ExtraSize, FormAfter, FormChosen,
           ExtraFor;
      ghost var before, known := closed, !hdr.valid && ExtraFor(input, extra);
      var done;
      done, ended, asStored := NewBlock(ts, numLiterals, numOffsets, eof, sync, input, extra, choice);
      ghost var aside := closed;
      if !done {
        FillOpened(ts, eof, sync);
      }
      BlockCount(before, AllClosed(), eof);
      if known {
        assert done ==> closed + [] == closed;
        FormLast(ts, input, done, aside, LastBlock());
      }
    }

    /** Decides how the tokens are written, and writes them. */
    method WriteDynamicTokens(ts: seq<nat>, numLiterals: nat, numOffsets: nat, eof: bool, sync: bool,
            input: Option<seq<byte>>, choice: Choice)
      returns (ended: bool, ghost asStored: bool)
      requires Ready() && TokenList(ts) && (Ends(ts) <==> sync) && (eof ==> sync)
      requires Indexed(ts, true, literalFreq, offsetFreq, numLiterals, numOffsets)
      requires open.OpenBlock? ==> !eof && !lastHuffMan && CountsCovered(litLens, offLens, ts)
      modifies this`lastHeader, this`lastHuffMan, this`closed, this`open, this`tail
      modifies this`hdr, this`litLens, this`offLens, this`cached, this`cachedFinal
      modifies sink`bits, sink`nbits, sink`nbytes, sink`out, sink`writes, sink`failed, sink.bytes
      modifies literalEncoding.Repr(), offsetEncoding.Repr(), codegenEncoding.Repr(), codegen, codegenFreq
      ensures ended ==> !sync
      ensures old(open) == NoBlock && !old(hdr.valid) ==> Chosen(ts, input, asStored)
      ensures old(open) == NoBlock && !old(hdr.valid) ==> AllClosed() != [] && FormChosen(ts, input, LastBlock())
      ensures Inv() && (sync ==> open == NoBlock) && (tail == [] || eof)
      ensures Took(old(Items()), Items(), Tokens.Items(Body(ts)), input, asStored)
      ensures Finality(old(AllClosed()), AllClosed(), eof)
    {
      hide Encoder.Repr, Base, Separate, StateBits, StateItems, GoodBlocks, GoodOpen, Stream, Pow2, TokenList, Indexed;
      hide CountsCovered, Body, Ends, OneBlock, HeaderOk, Opened, Finished, Finality, NoneFinal, Chosen, ExtraSize,
           FormAfter, FormChosen, WrittenAs;
      BaseParts();
      HeaderOpen(open, lastHeader);
      ghost var all := AllClosed();
      var done := false;
      ended, asStored := false, false;
      FinalityKept(all, eof);
      var extra := 0;
      if (input.Some? && |input.value| <= MAX_STORED) || lastHeader > 0 {
        extra := ExtraBitSize(literalFreq, offsetFreq);
      }
      if lastHeader > 0 {
        if choice.newTable {
          CloseOpen();
          assert closed + [] == closed;
        }
        done, ended, asStored := WriteAside(ts, eof, sync, input, choice.fixed, choice.stored, choice.stored);
        if done {
          assert closed + [] == closed;
          OneFinality(all, closed, eof);
          return;
        }
      }
      BaseParts();
      HeaderOpen(open, lastHeader);
      if lastHeader == 0 {
        assert closed + [] == closed;
        ended, asStored := WriteNew(ts, numLiterals, numOffsets, eof, sync, input, extra, choice);
        OneFinality(all, AllClosed(), eof);
      } else {
        Continue(ts, sync);
        NoFinality(all, AllClosed());
      }
    }

    /** Finishes an open block that the tokens cannot go into, and takes their histograms over. */
    method ReuseAndIndex(t: Buffer, eof: bool) returns (numLiterals: nat, numOffsets: nat)
      requires Ready() && t.Valid() && t.n > 0 && Foreign(t)
      modifies this`lastHeader, this`lastHuffMan, this`closed, this`open, this`literalFreq, this`offsetFreq
      modifies sink`bits, sink`nbits, sink`nbytes, sink`out, sink`writes, sink.bytes
      ensures Ready() && t.Valid() && AllClosed() == old(AllClosed()) && Items() == old(Items())
      ensures t.Slice() == old(t.Slice())
      ensures Indexed(t.Slice(), true, literalFreq, offsetFreq, numLiterals, numOffsets)
      ensures open.OpenBlock? ==> !eof && !lastHuffMan && CountsCovered(litLens, offLens, t.Slice())
      ensures old(open) == NoBlock ==> open == NoBlock
    {
      hide Buffer.Valid, Encoder.Repr, Base, Separate, StateBits, StateItems, GoodBlocks, GoodOpen, Stream, Pow2,
           HeaderOk;
      hide Finished, AllTokens, TokenList, Indexed, Ends, Body, CountsCovered, Buffer.Tallied;
      BaseParts();
      CodesApart();
      PrepareReuse(t, eof);
      numLiterals, numOffsets := Reindex(t, true);
    }

    /** Writes tokens as the rest of the open block or as a new one, with the tables at hand, the
        cached ones or fresh ones, or stored, or with the fixed code. The ghost result says whether the
        input was stored; with no block open and no header cached, the sizes decide that. */
    method WriteBlockDynamic(t: Buffer, eof: bool, input: Option<seq<byte>>, syncWanted: bool, choice: Choice)
      returns (ghost asStored: bool)
      requires Ready() && t.Valid() && AllTokens(t.Slice()) && t.n < MAX_BLOCK && t.n < t.tokens.Length && Foreign(t)
      requires t.n > 0 || syncWanted || eof
      modifies this`lastHeader, this`lastHuffMan, this`closed, this`open, this`tail, this`literalFreq, this`offsetFreq
      modifies this`hdr, this`litLens, this`offLens, this`cached, this`cachedFinal
      modifies sink`bits, sink`nbits, sink`nbytes, sink`out, sink`writes, sink`failed, sink.bytes
      modifies literalEncoding.Repr(), offsetEncoding.Repr(), codegenEncoding.Repr(), codegen, codegenFreq, t`n,
               t.Repr()
      ensures Inv() && (syncWanted || eof ==> open == NoBlock) && (tail == [] || eof)
      ensures Took(old(Items()), Items(), Tokens.Items(old(t.Slice())), input, asStored)
      ensures Finality(old(AllClosed()), AllClosed(), eof)
      ensures old(open) == NoBlock && !old(hdr.valid) ==>
        Chosen(WithEnd(old(t.Slice()), syncWanted || eof), input, asStored)
      ensures old(open) == NoBlock && !old(hdr.valid) ==>
        AllClosed() != [] && FormChosen(WithEnd(old(t.Slice()), syncWanted || eof), input, LastBlock())
    {
      hide Buffer.Valid, Encoder.Repr, Base, Separate, StateBits, StateItems, GoodBlocks, GoodOpen, Stream, Pow2,
           HeaderOk, Buffer.Tallied;
      hide Finished, AllTokens, TokenList, Indexed, Ends, Body, Took, Finality, CountsCovered, Chosen, FormChosen;
      var sync := syncWanted || eof;
      AllList(t.Slice());
      if sync {
        EndTokens(t);
      }
      var numLiterals, numOffsets := ReuseAndIndex(t, eof);
      t.Sizes();
      var ended;
      ended, asStored := WriteDynamicTokens(t.Slice(), numLiterals, numOffsets, eof, sync, input, choice);
    }

    // -------------------------------------------------------------------------------------------
    // Blocks of literals only.
    // -------------------------------------------------------------------------------------------

    /** Counts the bytes of the input. */
    method CountLiterals(input: seq<byte>)
      requires |input| <= MAX_BLOCK && Ready()
      modifies this`literalFreq, this`offsetFreq
      ensures Ready() && Tallies(literalFreq, input)
    {
      hide Table, OpenOk, CacheOk, GoodGlobals, Separate, StateBits, GoodBlocks, GoodOpen, Stream, Pow2, HeaderOk,
           Tallies;
      literalFreq := Repeat(0, LITERAL_SLOTS);
      if !lastHuffMan {
        offsetFreq := Repeat(0, OFFSET_SLOTS);
      }
      assert literalFreq == seq(LITERAL_SLOTS, _ => 0);
      ghost var zero := literalFreq;
      literalFreq := Histogram(input, literalFreq);
      AddedTallies(zero, literalFreq, input);
      TallyEnd(literalFreq, input);
    }

    /** A code for the counted bytes and the end of block, beside the one in use. */
    method BuildTmp(ghost input: seq<byte>) returns (ghost lens: seq<nat>)
      requires Ready() && |input| <= MAX_BLOCK && Tallies(literalFreq, input)
      modifies this`literalFreq, tmpLitEncoding.Repr()
      ensures Ready() && unchanged(`closed, `open, `lastHeader, `literalEncoding, `tmpLitEncoding)
      ensures sink.Emitted() == old(sink.Emitted()) && LitCodes() == old(LitCodes())
      ensures |lens| == END_OF_BLOCK + 1 && LiteralTable(lens, tmpLitEncoding.codes[..], input)
      ensures CountsOf(literalFreq, input) && OwnLens(input, lens)
    {
      hide Encoder.Repr, Table, OpenOk, CacheOk, GoodGlobals, Separate, StateBits, GoodBlocks, GoodOpen, HeaderOk,
           Stream, Pow2;
      hide Built, SortedEntries, CanonCodes, ValidFreq, TableOf, Tallies, CountsOf, LiteralTable, OwnLens, ByteCounts;
      EncodersApart();
      AlphabetFits();
      TalliedFreq(literalFreq, input);
      literalFreq := literalFreq[END_OF_BLOCK := 1];
      ghost var q := tmpLitEncoding.Generate(literalFreq[..END_OF_BLOCK + 1], 15);
      lens := tmpLitEncoding.lens[..END_OF_BLOCK + 1];
      GeneratedTable(literalFreq[..END_OF_BLOCK + 1], lens, 15, q);
      LiteralsCoded(literalFreq, input, lens, tmpLitEncoding.codes[..]);
      CountsAre(literalFreq, input);
      OwnIs(input, lens, q);
    }

    /** The size the input is expected to take with its own code, header included. */
    method Estimate(ghost lens: seq<nat>, ghost input: seq<byte>) returns (estBits: nat)
      requires Inv() && LiteralTable(lens, tmpLitEncoding.codes[..], input) && CountsOf(literalFreq, input)
      requires |input| <= MAX_BLOCK && |lens| == END_OF_BLOCK + 1
      ensures estBits < MAX_INT32
      ensures estBits == Estimated(HuffmanOptimal.Cost(ByteCounts(input), lens), lastHeader, logNewTablePenalty)
    {
      hide Table, OpenOk, CacheOk, GoodGlobals, StateBits, GoodBlocks, GoodOpen, Stream, Pow2, ByteCounts,
           HuffmanOptimal.Cost, SizeTo;
      hide LiteralTable, CountsOf, Reusable;
      LiteralSlots(literalFreq, input);
      LiteralsSize(literalFreq, input, lens, tmpLitEncoding.codes[..]);
      LiteralsCost(literalFreq, input, lens, tmpLitEncoding.codes[..]);
      estBits := CanReuseBits(tmpLitEncoding.codes[..], literalFreq[..END_OF_BLOCK + 1]);
      if estBits < MAX_INT32 {
        estBits := estBits + lastHeader;
        if lastHeader == 0 {
          estBits := estBits + 70 * 8;
        }
        estBits := estBits + Shr(estBits, logNewTablePenalty);
      }
    }

    /** Puts the new code in place. A cached header described the one that was there. */
    method SwapIn(ghost lens: seq<nat>, ghost input: seq<byte>)
      requires Ready() && open == NoBlock && |lens| == END_OF_BLOCK + 1
      requires LiteralTable(lens, tmpLitEncoding.codes[..], input)
      modifies this`literalEncoding, this`tmpLitEncoding, this`litLens, this`hdr
      ensures Ready() && literalEncoding == old(tmpLitEncoding) && tmpLitEncoding == old(literalEncoding)
      ensures !hdr.valid && litLens == lens && |LitCodes()| == LITERAL_CODES
      ensures LensOf(LitCodes()[..END_OF_BLOCK + 1], END_OF_BLOCK + 1) == lens &&
        GoodCodes(LitCodes()[..END_OF_BLOCK + 1])
    {
      hide Encoder.Repr, Table, OpenOk, CacheOk, GoodGlobals, Separate, StateBits, GoodBlocks, GoodOpen, Stream, Pow2,
           LiteralTable, Acceptable, LensOf, GoodCodes, Fits, HeaderOk;
      hdr := hdr.(valid := false);
      literalEncoding, tmpLitEncoding := tmpLitEncoding, literalEncoding;
      litLens := lens;
      NotCached(hdr, litLens, offLens, cached, cachedFinal);
      NoneOpen(lastHuffMan, litLens, offLens);
      SwappedApart(old(literalEncoding), old(tmpLitEncoding));
      CodesApart();
      LiteralDeclared(lens, LitCodes(), input);
      BaseIs();
    }

    /** Puts the new code in place and opens a block with it. */
    method OpenLiterals(eof: bool, ghost lens: seq<nat>, ghost input: seq<byte>)
      requires Ready() && open == NoBlock && |lens| == END_OF_BLOCK + 1
      requires LiteralTable(lens, tmpLitEncoding.codes[..], input)
      modifies this`literalEncoding, this`tmpLitEncoding, this`litLens, this`hdr, this`lastHuffMan, this`lastHeader,
               this`open
      modifies codegenEncoding.Repr(), codegen, codegenFreq
      modifies sink`bits, sink`nbits, sink`nbytes, sink`out, sink`writes, sink.bytes
      ensures Ready() && open.OpenBlock? && open.final == eof && open.items == [] && litLens == lens
      ensures Items() == old(Items()) && Footprint() == old(Footprint())
    {
      hide Encoder.Repr, Base, Separate, StateBits, StateItems, GoodBlocks, GoodOpen, HeaderOk, Stream, Pow2,
           LiteralTable, Acceptable, LensOf, GoodCodes, Fits;
      BaseParts();
      LiteralDeclared(lens, tmpLitEncoding.codes[..], input);
      SwapIn(lens, input);
      BaseParts();
      EncodersApart();
      OpenSwapped(eof, lens);
    }

    /** Opens a block with the literal code at hand. */
    method OpenSwapped(eof: bool, ghost lens: seq<nat>)
      requires Ready() && open == NoBlock && |lens| == END_OF_BLOCK + 1 && litLens == lens &&
        |LitCodes()| == LITERAL_CODES
      requires LensOf(LitCodes()[..END_OF_BLOCK + 1], END_OF_BLOCK + 1) == lens &&
        GoodCodes(LitCodes()[..END_OF_BLOCK + 1])
      requires Acceptable(lens) && Fits(lens) && Used(lens, END_OF_BLOCK)
      modifies this`lastHuffMan, this`lastHeader, this`open
      modifies codegenEncoding.Repr(), codegen, codegenFreq
      modifies sink`bits, sink`nbits, sink`nbytes, sink`out, sink`writes, sink.bytes
      ensures Ready() && open.OpenBlock? && open.final == eof && open.items == [] && litLens == lens
      ensures Items() == old(Items())
    {
      hide Encoder.Repr, Base, Separate, StateBits, StateItems, GoodBlocks, GoodOpen, Stream, Pow2, Acceptable, LensOf,
           GoodCodes, Fits, Coding, SizeIs, HeaderOk;
      BaseParts();
      EncodersApart();
      HeaderOpen(open, lastHeader);
      assert Done() + [] == Done();
      ghost var n, h;
      var size, numCodegens;
      size, numCodegens, n, h := PrepareLiterals(lens);
      WriteLiteralHeader(eof, size, numCodegens, n, h);
    }

    method WriteLiteralHeader(eof: bool, size: nat, numCodegens: nat, ghost n: nat, ghost h: Hdr)
      requires Between() && sink.Emitted() == Done() && Coding(n, h, END_OF_BLOCK + 1, 1, numCodegens)
      requires SizeIs(h, size) && h.lit == litLens && |litLens| == END_OF_BLOCK + 1
      modifies this`lastHuffMan, this`lastHeader, this`open
      modifies sink`bits, sink`nbits, sink`nbytes, sink`out, sink`writes, sink.bytes
      ensures Ready() && open == OpenBlock(eof, h, []) && Items() == old(Items())
    {
      hide Table, OpenOk, CacheOk, GoodGlobals, Separate, StateBits, StateItems, GoodBlocks, GoodOpen, Stream, Pow2,
           GoodHdr, Coding, Opening, HdrBits, Standard, StandardCode, CodegenOf, LeastCodes;
      CodingSizes(n, h, END_OF_BLOCK + 1, 1, numCodegens);
      WriteHeader(END_OF_BLOCK + 1, 1, numCodegens, eof, n, h);
      lastHuffMan := true;
      lastHeader := size;
      HeaderBound(h);
      NoneOpen(true, litLens, offLens);
      LiteralOpen(eof, h, litLens, offLens);
      SetOpen(eof, h);
      assert StateBits(closed, open) + [] == StateBits(closed, open);
    }

    /** The header of a literals-only block: 257 symbols and one distance code. */
    method PrepareLiterals(ghost lens: seq<nat>) returns (size: nat, numCodegens: nat, ghost n: nat, ghost h: Hdr)
      requires Base() && open == NoBlock && |lens| == END_OF_BLOCK + 1
      requires LensOf(LitCodes()[..END_OF_BLOCK + 1], END_OF_BLOCK + 1) == lens &&
        GoodCodes(LitCodes()[..END_OF_BLOCK + 1])
      requires Acceptable(lens) && Fits(lens) && Used(lens, END_OF_BLOCK)
      modifies codegenEncoding.Repr(), codegen, codegenFreq
      ensures Base() && sink.Emitted() == old(sink.Emitted())
      ensures Coding(n, h, END_OF_BLOCK + 1, 1, numCodegens) && SizeIs(h, size) && h.lit == lens
    {
      hide Encoder.Repr, Table, OpenOk, CacheOk, Separate, GoodBlocks, GoodOpen, Stream, Pow2, Acceptable, Coded,
           HeaderReady, NoneAfter, GoodHdr, LensOf, GoodCodes, Fits, HeaderEmit, GoodGlobals, Standard, StandardCode,
           CodegenOf, LeastCodes;
      EncodersApart();
      HuffGlobals(globals);
      n := MakeCodegen(END_OF_BLOCK + 1, 1, LitCodes()[..END_OF_BLOCK + 1], globals.huffOffset, lens, [1]);
      ghost var cg := codegen[..n];
      size, numCodegens := HeaderSize(CodegenCodes(), codegenFreq, cg, lens + [1], END_OF_BLOCK + 1, 1);
      h := Hdr(lens, [1], numCodegens, CodegenCodes(), cg);
      HeaderGood(h, codegenFreq[..]);
    }

    lemma SwappedApart(lit: Encoder, tmp: Encoder)
      requires Separate(sink.bytes, codegen, codegenFreq, lit, tmp, offsetEncoding, codegenEncoding)
      requires literalEncoding == tmp && tmpLitEncoding == lit
      ensures Apart()
    {
    }

    /** Writes literals into the open block. */
    method PutLiterals(input: seq<byte>)
      requires Ready() && open.OpenBlock? && |litLens| > END_OF_BLOCK
      requires forall k :: 0 <= k < |input| ==> Used(litLens, input[k])
      modifies this`open, sink`bits, sink`nbits, sink`nbytes, sink`out, sink`writes, sink.bytes
      ensures Ready() && open.OpenBlock? && AllClosed() == old(closed) + [Finished(open)]
      ensures open == old(open).(items := old(open).items + Lits(input)) && Items() == old(Items()) + Lits(input)
    {
      hide Table, CacheOk, GoodGlobals, Separate, StateBits, StateItems, GoodBlocks, GoodOpen, Stream, Pow2, GoodHdr,
           Fitted, CoversAll, ItemsBits, LiteralsEmit, OpenOk, Lits;
      CodesApart();
      var codes := LitCodes();
      ghost var h := open.hdr;
      OpenLiteralCodes(open, lastHuffMan, litLens, offLens, codes, input);
      sink.WriteLiterals(input, codes);
      AddItems(closed, open, Lits(input));
      open := open.(items := open.items + Lits(input));
      SameOpen(old(open), open, lastHuffMan, litLens, offLens);
      SameHeader(old(open), open, lastHeader);
      assert sink.Emitted() + [] == sink.Emitted();
    }

    /** The open block's code has all the bytes, and the input is small enough with it. */
    ghost predicate Keeps(input: seq<byte>, estBits: nat)
      reads this`lastHeader, this`literalEncoding, literalEncoding.codes
    {
      lastHeader > 0 && |LitCodes()| >= 256 && ReuseSize(LitCodes(), ByteCounts(input)[..256]) <= estBits
    }

    /** Keeps the open block when its code has all the bytes and is small enough, or finishes it. */
    method KeepOrClose(input: seq<byte>, estBits: nat) returns (ghost continued: bool)
      requires Ready() && estBits < MAX_INT32 && CountsOf(literalFreq, input)
      modifies this`lastHeader, this`open, this`closed, sink`bits, sink`nbits, sink`nbytes, sink`out, sink`writes,
               sink.bytes
      ensures Ready() && Items() == old(Items()) && (continued <==> open.OpenBlock?)
      ensures continued ==> unchanged(`open, `closed) && |litLens| > END_OF_BLOCK
      ensures continued ==> forall k :: 0 <= k < |input| ==> Used(litLens, input[k])
      ensures !continued ==> open == NoBlock && closed == old(AllClosed())
      ensures continued <==> old(Keeps(input, estBits))
    {
      hide Base, Separate, StateBits, StateItems, GoodBlocks, GoodOpen, Stream, Pow2, HeaderOk, CountsOf, Table,
           Finished;
      hide ByteCounts, Reusable;
      BaseParts();
      HeaderOpen(open, lastHeader);
      continued := false;
      if lastHeader > 0 {
        OpenAlphabet();
        LiteralSlots(literalFreq, input);
        CountsAre(literalFreq, input);
        assert literalFreq[..256] == literalFreq[..END_OF_BLOCK + 1][..256];
        var reuseSize := CanReuseBits(LitCodes(), literalFreq[..256]);
        if estBits < reuseSize {
          CloseOpen();
        } else {
          continued := true;
          ReusedLiterals(litLens, LitCodes(), literalFreq, input);
        }
      } else {
        assert closed + [] == closed;
      }
    }

    /** Opens a block with the input's own code and writes the literals. */
    method OpenAndPut(eof: bool, input: seq<byte>, ghost lens: seq<nat>)
      requires Ready() && open == NoBlock && |lens| == END_OF_BLOCK + 1
      requires LiteralTable(lens, tmpLitEncoding.codes[..], input)
      modifies this`literalEncoding, this`tmpLitEncoding, this`litLens, this`hdr, this`lastHuffMan, this`lastHeader
      modifies this`open, codegenEncoding.Repr(), codegen, codegenFreq
      modifies sink`bits, sink`nbits, sink`nbytes, sink`out, sink`writes, sink.bytes
      ensures Ready() && open.OpenBlock? && Items() == old(Items()) + Lits(input) && litLens == lens
      ensures OneBlock(old(closed), AllClosed(), eof) && Footprint() == old(Footprint())
    {
      hide Encoder.Repr, Base, Separate, StateBits, StateItems, GoodBlocks, GoodOpen, Stream, Pow2, HeaderOk,
           LiteralTable;
      hide Lits;
      BaseParts();
      EncodersApart();
      TableLiterals(lens, tmpLitEncoding.codes[..], input);
      OpenLiterals(eof, lens, input);
      PutLiterals(input);
      OneMoreBlock(closed, Finished(open));
      assert AllClosed() == closed + [Finished(open)];
    }

    /** Continues the open block when its code will do, or opens a new one, and writes the literals. */
    method PlaceLiterals(eof: bool, input: seq<byte>, estBits: nat, ghost lens: seq<nat>)
      returns (ghost continued: bool)
      requires Ready() && estBits < MAX_INT32 && LiteralTable(lens, tmpLitEncoding.codes[..], input)
      requires CountsOf(literalFreq, input) && |lens| == END_OF_BLOCK + 1
      modifies this`literalEncoding, this`tmpLitEncoding, this`litLens, this`hdr, this`lastHuffMan, this`lastHeader
      modifies this`open, this`closed, codegenEncoding.Repr(), codegen, codegenFreq
      modifies sink`bits, sink`nbits, sink`nbytes, sink`out, sink`writes, sink.bytes
      ensures Ready() && open.OpenBlock? && Items() == old(Items()) + Lits(input) && Taken(input, eof, continued)
      ensures Footprint() == old(Footprint()) && (!continued ==> litLens == lens)
      ensures continued <==> old(Keeps(input, estBits))
    {
      hide Encoder.Repr, Base, Separate, StateBits, StateItems, GoodBlocks, GoodOpen, Stream, Pow2, HeaderOk, CountsOf;
      hide LiteralTable, Lits, Keeps, OneBlock;
      BaseParts();
      TmpApart();
      continued := KeepOrClose(input, estBits);
      BaseParts();
      HeaderOpen(open, lastHeader);
      if lastHeader == 0 {
        assert closed == old(AllClosed());
        OpenAndPut(eof, input, lens);
      } else {
        PutLiterals(input);
      }
    }

    lemma TmpApart()
      requires Apart()
      ensures tmpLitEncoding.codes as object != sink.bytes
    {
    }

    lemma OpenAlphabet()
      requires Base() && open.OpenBlock?
      ensures |litLens| > END_OF_BLOCK && Table(litLens, LitCodes()) && |LitCodes()| == LITERAL_CODES
    {
      hide Table, CacheOk, GoodGlobals, GoodBlocks, GoodOpen, Fitted, GoodHdr;
    }

    /** Stores the input whatever its length, as one block. */
    method StoreWhole(input: seq<byte>, eof: bool)
      requires Ready() && |input| <= MAX_STORED
      modifies this`lastHeader, this`closed, this`open, this`tail
      modifies sink`bits, sink`nbits, sink`nbytes, sink`out, sink`writes, sink`failed, sink.bytes
      ensures Inv() && open == NoBlock && (tail == [] || eof)
      ensures Items() == old(Items()) + Lits(input) && OneBlock(old(AllClosed()), AllClosed(), eof)
    {
      hide Base, Separate, StateBits, StateItems, GoodBlocks, GoodOpen, Stream, Pow2, HeaderOk, Finished, Lits,
           OneBlock;
      WriteStored(input, eof);
      assert closed + [] == closed;
      StoredOne(old(AllClosed()), closed, input, eof);
    }

    /** Finishes a block of literals. */
    method CloseLiterals()
      requires Inv()
      modifies this`lastHeader, this`lastHuffMan, this`closed, this`open
      modifies sink`bits, sink`nbits, sink`nbytes, sink`out, sink`writes, sink.bytes
      ensures Inv() && open == NoBlock && AllClosed() == old(AllClosed()) && Items() == old(Items())
    {
      hide Table, OpenOk, CacheOk, GoodGlobals, Separate, StateBits, StateItems, GoodBlocks, GoodOpen, Stream, Pow2,
           HeaderOk, Finished;
      CloseOpen();
      lastHuffMan := false;
      assert closed + [] == closed;
      NoneOpen(false, litLens, offLens);
    }

    /** What became of the open block: it took the literals in, or it was finished and a block added. */
    twostate predicate Taken(input: seq<byte>, eof: bool, continued: bool)
      reads this
    {
      if continued then
        && old(open).OpenBlock?
        && AllClosed() == old(closed) + [Finished(old(open).(items := old(open).items + Lits(input)))]
      else OneBlock(old(AllClosed()), AllClosed(), eof)
    }

    /** Stores the counted input, or writes it as literals. */
    method HuffOrStore(eof: bool, input: seq<byte>, sync: bool) returns (ghost continued: bool)
      requires Ready() && |input| <= MAX_BLOCK && Tallies(literalFreq, input) && !Shapeless(input)
      modifies this`lastHeader, this`lastHuffMan, this`closed, this`open, this`tail, this`literalFreq
      modifies this`literalEncoding, this`tmpLitEncoding, this`hdr, this`litLens
      modifies sink`bits, sink`nbits, sink`nbytes, sink`out, sink`writes, sink`failed, sink.bytes
      modifies tmpLitEncoding.Repr(), codegenEncoding.Repr(), codegen, codegenFreq
      ensures Inv() && (sync || eof ==> open == NoBlock) && (tail == [] || eof)
      ensures Items() == old(Items()) + Lits(input) && Taken(input, eof, continued)
      ensures Footprint() == old(Footprint())
      ensures continued <==> old(Continuing(input, lastHeader, logNewTablePenalty, LitCodes()))
      ensures !continued && !old(Storing(input, lastHeader, logNewTablePenalty)) ==> OwnLens(input, litLens)
      ensures !sync && !eof && !old(Storing(input, lastHeader, logNewTablePenalty)) ==> Ready() && open.OpenBlock?
    {
      hide Encoder.Repr, Base, Separate, StateBits, StateItems, GoodBlocks, GoodOpen, Stream, Pow2, HeaderOk, Finished;
      hide Tallies, CountsOf, LiteralTable, Lits, OneBlock, Estimated, ByteCounts, ReuseSize, Storing, Continuing,
           OwnLens;
      hide HuffmanOptimal.Cost;
      continued := false;
      ghost var lens := BuildTmp(input);
      LitSize();
      Decided(input, lastHeader, logNewTablePenalty, LitCodes(), lens);
      var estBits := Estimate(lens, input);
      if (|input| + 5) * 8 <= estBits {
        StoreWhole(input, eof);
        return;
      }
      continued := PlaceLiterals(eof, input, estBits, lens);
      if eof || sync {
        CloseLiterals();
      }
    }

    lemma LitSize()
      requires Base()
      ensures |LitCodes()| == LITERAL_CODES
    {
      hide Table, OpenOk, CacheOk, GoodGlobals, GoodBlocks, GoodOpen;
    }

    /** Writes the input as literals, into the open block if its code has them all and is small enough,
        or as a new block; or stores it. An open block that takes the input in keeps the final bit that
        it was opened with, whatever is asked for. */
    method WriteBlockHuff(eof: bool, input: seq<byte>, sync: bool) returns (ghost continued: bool)
      requires Ready() && |input| <= MAX_BLOCK
      modifies this`lastHeader, this`lastHuffMan, this`closed, this`open, this`tail, this`literalFreq, this`offsetFreq
      modifies this`literalEncoding, this`tmpLitEncoding, this`hdr, this`litLens
      modifies sink`bits, sink`nbits, sink`nbytes, sink`out, sink`writes, sink`failed, sink.bytes
      modifies tmpLitEncoding.Repr(), codegenEncoding.Repr(), codegen, codegenFreq
      ensures Inv() && (sync || eof ==> open == NoBlock) && (tail == [] || eof)
      ensures Items() == old(Items()) + Lits(input) && Taken(input, eof, continued)
      ensures Footprint() == old(Footprint())
      ensures continued <==> old(Continuing(input, lastHeader, logNewTablePenalty, LitCodes()))
      ensures !continued && !old(Storing(input, lastHeader, logNewTablePenalty)) ==> OwnLens(input, litLens)
      ensures !sync && !eof && !old(Storing(input, lastHeader, logNewTablePenalty)) ==> Ready() && open.OpenBlock?
    {
      hide Encoder.Repr, Base, Separate, StateBits, StateItems, GoodBlocks, GoodOpen, Stream, Pow2, HeaderOk, Finished;
      hide Tallies, Lits, OneBlock, OwnLens, OwnCost, Estimated, ReuseSize, ByteCounts, Shapeless;
      continued := false;
      CountLiterals(input);
      TallySlots(literalFreq, input);
      var shapeless := QuickCheck(input, literalFreq);
      if shapeless {
        StoreWhole(input, eof);
        return;
      }
      continued := HuffOrStore(eof, input, sync);
    }

    // -------------------------------------------------------------------------------------------
    // Whole streams.
    // -------------------------------------------------------------------------------------------

    /** An empty stored block that ends on a whole byte, for a reader to synchronise on. */
    method SyncFlush()
      requires Ready()
      modifies this`lastHeader, this`closed, this`open, this`tail
      modifies sink`bits, sink`nbits, sink`nbytes, sink`out, sink`writes, sink.bytes
      ensures Ready() && open == NoBlock && closed == old(AllClosed()) + [Stored(false, [])] && Items() == old(Items())
      ensures sink.nbytes == 0 && sink.nbits == 0 && sink.Emitted() == BytesBits(sink.out)
    {
      hide Table, OpenOk, CacheOk, GoodGlobals, Separate, StateBits, StateItems, GoodBlocks, GoodOpen, Stream, Pow2,
           HeaderOk, Finished, Padding, Zeros, StoredBits, StoredHead;
      CodesApart();
      WriteStoredHeader(0, false);
      ghost var s := Done();
      StoredIs(s, false, []);
      NothingMore(s + StoredHead(false, 0, |s|), Items());
      Finish(Stored(false, []));
      WholeBytesOut(sink.out, sink.bytes[..], sink.nbytes, sink.bits, sink.nbits);
      assert Done() + [] == Done() && closed + [] == closed;
      Flush();
      NoPadding(|Done()|);
      assert Done() + [] == Done() && closed + [] == closed;
    }

    /** Ends the stream and hands its bytes over; the writer is then ready for another stream, and the
        header cache stays. */
    method Close(ghost dict: seq<byte>) returns (bytes: seq<byte>, ghost padding: seq<bool>)
      requires Ready() && NoneFinal(AllClosed()) && AllValid(dict, Items())
      modifies this`lastHeader, this`lastHuffMan, this`closed, this`open, this`tail
      modifies sink`bits, sink`nbits, sink`nbytes, sink`out, sink`writes, sink.bytes
      ensures ReadStream(BytesBits(bytes), dict) == Some((Expand(dict, old(Items())), padding)) && |padding| < 8
      ensures Ready() && closed == [] && open == NoBlock
    {
      hide Table, OpenOk, CacheOk, GoodGlobals, Separate, StateBits, StateItems, GoodBlocks, GoodOpen, Stream, Pow2,
           HeaderOk, Finished, Zeros, LastIsFinal, NoneFinal, AllValid, Expand, ReadStream, Padding;
      CodesApart();
      WriteStoredHeader(0, true);
      WholeBytesOut(sink.out, sink.bytes[..], sink.nbytes, sink.bits, sink.nbits);
      NoPadding(|Done() + tail|);
      PaddingSmall(|Done()|);
      assert AllClosed() == closed + [] == closed;
      ghost var before := tail;
      Flush();
      assert before + [] == before;
      padding := tail;
      OnlyLast(old(AllClosed()), Fixed(true, []));
      StreamDecodes(closed, padding, dict);
      bytes := sink.out;
      Reset();
    }

    /** Starts a new stream. What the writer has not handed on is dropped; the header cache stays. */
    method Reset()
      requires Base()
      modifies this`lastHeader, this`lastHuffMan, this`closed, this`open, this`tail
      modifies sink`bits, sink`nbits, sink`nbytes, sink`out
      ensures Ready() && closed == [] && open == NoBlock && Items() == [] && AtStreamStart()
      ensures hdr == old(hdr)
    {
      hide Table, OpenOk, CacheOk, GoodGlobals, Separate, Stream, StateBits, GoodBlocks, GoodOpen, HeaderOk, Pow2;
      CodesApart();
      sink.out, sink.bits, sink.nbits, sink.nbytes := [], 0, 0, 0;
      lastHeader := 0;
      lastHuffMan := false;
      closed, open, tail := [], NoBlock, [];
      NothingWritten(hdr.(valid := false), litLens, offLens, cached, cachedFinal);
      NoneOpen(false, litLens, offLens);
      NoBuffer([], sink.bytes[..]);
      NothingPut();
      BaseIs();
      assert [] + tail == [];
    }
  }

  lemma {:induction false} CodegenBound(codes: seq<nat>, cg: seq<nat>, acc: seq<nat>)
    requires |codes| == CODEGEN_CODES && GoodCodegen(cg, acc) && forall c :: 0 <= c < CODEGEN_CODES ==>
      HLen(codes[c]) < 8
    ensures |CodegenEmit(codes, cg, acc)| <= 14 * (|ExpandCodegen(cg, acc)| - |acc|)
    decreases |cg|
  {
    hide HLen;
    if cg != [] { CodegenBound(codes, cg[HeadSize(cg)..], acc + HeadLengths(cg, acc)); }
  }

  /** No header is larger than the limit. */
  lemma HeaderBound(h: Hdr)
    requires GoodHdr(h)
    ensures 3 + |HdrBits(h)| <= HEADER_LIMIT
  {
    hide HLen, CodegenEmit, Fits, Acceptable, GoodCodegen, ExpandCodegen, UsedAll, CanonCodes;
    HdrSizes(h);
    CodegenBound(h.codes, h.cg, []);
  }

  /** The header has this many bits, block opening included. */
  ghost predicate SizeIs(h: Hdr, size: nat) {
    GoodHdr(h) && size == 3 + |HdrBits(h)|
  }

  /** Outcomes of the comparisons with sizes that are estimated in floating point: whether an open block
      or a cached header is worth using, and the form written when a block is open. Nothing depends on them. */
  datatype Choice = Choice(newTable: bool, fixed: bool, stored: bool, warm: bool)

  predicate Storable(input: Option<seq<byte>>) {
    input.Some? && |input.value| <= MAX_STORED
  }

  /** The sizes of tokens in a block of their own. */
  ghost predicate FreshFrom(ts: seq<nat>, counted: bool, lf: seq<nat>, of: seq<nat>, numLit: nat, numOff: nat,
                            lit: seq<nat>, off: seq<nat>, h: Hdr, z: Sizes) {
    && Indexed(ts, true, lf, of, numLit, numOff)
    && |lit| == LITERAL_CODES && |off| == MAX_DIST_CODES && |lf| >= LITERAL_CODES && |of| >= MAX_DIST_CODES
    && OwnTable(lf[..LITERAL_CODES], lit) && OwnTable(of[..MAX_DIST_CODES], off)
    && numLit <= |lit| && numOff <= |off| && h.lit == lit[..numLit] && h.off == off[..numOff] && GoodHdr(h) &&
      Standard(h)
    && z == SizesOf(lf, of, lit, off, 3 + |HdrBits(h)|, if counted then ExtraSize(lf, of) else 0)
  }

  /** The sizes compared for these tokens. Extra bits are counted when the bytes could be stored. */
  ghost predicate FreshSizes(ts: seq<nat>, counted: bool, z: Sizes) {
    exists lf, of, numLit, numOff, lit, off, h :: FreshFrom(ts, counted, lf, of, numLit, numOff, lit, off, h, z)
  }

  /** Whether the input is stored in place of these tokens, when they would need a block of their own. */
  ghost predicate Chosen(ts: seq<nat>, input: Option<seq<byte>>, asStored: bool) {
    exists z :: FreshSizes(ts, Storable(input), z) && (asStored <==> StoredWins(|ts|, z, input))
  }

  /** A block that is written at once: stored, or with the fixed code. The empty end of a stream is a fixed block. */
  predicate WrittenAs(b: Block, asStored: bool, input: Option<seq<byte>>) {
    if asStored then
      input.Some? && b == if input.value == [] && b.final then Fixed(true, []) else Stored(b.final, input.value)
    else b.Fixed?
  }

  /** The block has the smallest of the forms, by these sizes. */
  predicate FormIs(b: Block, n: nat, z: Sizes, input: Option<seq<byte>>) {
    if StoredWins(n, z, input) || FixedWins(n, z) then WrittenAs(b, StoredWins(n, z, input), input) else b.Dynamic?
  }

  /** The form of the block is the one that the sizes of these tokens give. */
  ghost predicate FormChosen(ts: seq<nat>, input: Option<seq<byte>>, b: Block) {
    exists z :: FreshSizes(ts, Storable(input), z) && FormIs(b, |ts|, z, input)
  }

  /** It is the form of the block written aside, or of one that is open. */
  ghost predicate FormAfter(ts: seq<nat>, input: Option<seq<byte>>, done: bool, closed: seq<Block>) {
    if done then closed != [] && FormChosen(ts, input, closed[|closed| - 1])
    else forall b: Block :: b.Dynamic? ==> FormChosen(ts, input, b)
  }

  lemma FormBy(ts: seq<nat>, input: Option<seq<byte>>, z: Sizes, done: bool, closed: seq<Block>)
    requires done ==> closed != [] && FormIs(closed[|closed| - 1], |ts|, z, input)
    requires !done ==> forall b: Block :: b.Dynamic? ==> FormIs(b, |ts|, z, input)
    ensures FreshSizes(ts, Storable(input), z) ==> FormAfter(ts, input, done, closed)
  {
    hide FreshSizes, FormIs;
  }

  lemma FormLast(ts: seq<nat>, input: Option<seq<byte>>, done: bool, closed: seq<Block>, b: Block)
    requires FormAfter(ts, input, done, closed)
    requires if done then closed != [] ==> b == closed[|closed| - 1] else b.Dynamic?
    ensures FormChosen(ts, input, b)
  {
    hide FormChosen;
  }

  lemma BlockCount(before: seq<Block>, after: seq<Block>, final: bool)
    requires OneBlock(before, after, final)
    ensures |after| == |before| + 1
  {
  }

  lemma ChosenBy(ts: seq<nat>, input: Option<seq<byte>>, z: Sizes)
    ensures FreshSizes(ts, Storable(input), z) ==> Chosen(ts, input, StoredWins(|ts|, z, input))
  {
    hide FreshSizes, StoredWins;
  }

  lemma IndexedOnce(ts: seq<nat>, lf: seq<nat>, of: seq<nat>, a: nat, b: nat, lf': seq<nat>, of': seq<nat>, a': nat,
          b': nat)
    requires Indexed(ts, true, lf, of, a, b) && Indexed(ts, true, lf', of', a', b')
    ensures lf == lf' && of == of' && a == a' && b == b'
  {
    hide SymbolCount, OffsetCount, ValidFreq, NoMatches;
  }

  lemma FreshOnce(ts: seq<nat>, counted: bool, y: Sizes, z: Sizes)
    requires FreshSizes(ts, counted, y) && FreshSizes(ts, counted, z)
    ensures y == z
  {
    hide Indexed, OwnTable, GoodHdr, Standard, HdrBits, ExtraSize, SizesOf;
    var lf, of, a, b, lit, off, h :| FreshFrom(ts, counted, lf, of, a, b, lit, off, h, y);
    var lf', of', a', b', lit', off', h' :| FreshFrom(ts, counted, lf', of', a', b', lit', off', h', z);
    IndexedOnce(ts, lf, of, a, b, lf', of', a', b');
    OwnTableOnce(lf[..LITERAL_CODES], lit, lit');
    OwnTableOnce(of[..MAX_DIST_CODES], off, off');
    StandardOnce(h, h');
  }

  /** The choice depends on the tokens and the input only. */
  lemma ChosenOnce(ts: seq<nat>, input: Option<seq<byte>>, a: bool, b: bool)
    requires Chosen(ts, input, a) && Chosen(ts, input, b)
    ensures a == b
  {
    hide FreshSizes, StoredWins;
    var y :| FreshSizes(ts, Storable(input), y) && (a <==> StoredWins(|ts|, y, input));
    var z :| FreshSizes(ts, Storable(input), z) && (b <==> StoredWins(|ts|, z, input));
    FreshOnce(ts, Storable(input), y, z);
  }

  /** Tokens with the end of block that finishes them. */
  function WithEnd(ts: seq<nat>, end: bool): seq<nat> {
    if end then ts + [EOB_TOKEN] else ts
  }

  lemma FreshFromParts(ts: seq<nat>, counted: bool, lf: seq<nat>, of: seq<nat>, numLit: nat, numOff: nat,
                       lit: seq<nat>, off: seq<nat>, h: Hdr, z: Sizes, size: nat, extra: nat)
    requires Indexed(ts, true, lf, of, numLit, numOff)
    requires |lit| == LITERAL_CODES && |off| == MAX_DIST_CODES && |lf| >= LITERAL_CODES && |of| >= MAX_DIST_CODES
    requires OwnTable(lf[..LITERAL_CODES], lit) && OwnTable(of[..MAX_DIST_CODES], off)
    requires Fitted(lit, h.lit) && Fitted(off, h.off) && |h.lit| == numLit && |h.off| == numOff
    requires GoodHdr(h) && Standard(h) && size == 3 + |HdrBits(h)|
    requires extra == if counted then ExtraSize(lf, of) else 0
    requires z == SizesOf(lf, of, lit, off, size, extra)
    ensures FreshSizes(ts, counted, z)
  {
    hide Indexed, OwnTable, GoodHdr, Standard, HdrBits, ExtraSize, SizesOf;
    assert FreshFrom(ts, counted, lf, of, numLit, numOff, lit, off, h, z);
  }

  lemma TableHLens(lens: seq<nat>, codes: seq<nat>)
    requires Table(lens, codes)
    ensures |lens| <= |codes| && forall s :: 0 <= s < |lens| ==> HLen(codes[s]) == lens[s]
  {
    TableZero(lens, codes);
    hide Fits, CanonHCode, HLen, GoodCode;
  }

  lemma GlobalHLens(g: Globals)
    requires GoodGlobals(g)
    ensures |g.fixedLiteral| == LITERAL_CODES && |g.fixedOffset| == MAX_DIST_CODES
    ensures |FixedLit()| >= LITERAL_CODES && |FixedOff()| >= MAX_DIST_CODES
    ensures forall s :: 0 <= s < LITERAL_CODES ==> HLen(g.fixedLiteral[s]) == FixedLit()[s]
    ensures forall s :: 0 <= s < MAX_DIST_CODES ==> HLen(g.fixedOffset[s]) == FixedOff()[s]
  {
    hide HLen, CanonHCode, GoodCode, LensOf;
    FixedFit();
    forall s | 0 <= s < LITERAL_CODES ensures HLen(g.fixedLiteral[s]) == FixedLit()[s] { CanonEmits(FixedLit(), s); }
    forall s | 0 <= s < MAX_DIST_CODES ensures HLen(g.fixedOffset[s]) == FixedOff()[s] { CanonEmits(FixedOff(), s); }
  }

  predicate NoneFinal(bs: seq<Block>) {
    forall k :: 0 <= k < |bs| ==> !bs[k].final
  }

  /** One more block, with this final bit. */
  predicate OneBlock(before: seq<Block>, after: seq<Block>, final: bool) {
    |after| == |before| + 1 && after[..|before|] == before && after[|before|].final == final
  }

  lemma EndList(ts: seq<nat>)
    requires TokenList(ts)
    ensures var us := if Ends(ts) then ts else ts + [EOB_TOKEN];
      TokenList(us) && Ends(us) && Body(us) == Body(ts)
  {
  }

  lemma IndexedFits(ts: seq<nat>, lf: seq<nat>, of: seq<nat>, numLit: nat, numOff: nat)
    requires Indexed(ts, true, lf, of, numLit, numOff)
    ensures numLit <= LITERAL_CODES && |lf| == LITERAL_SLOTS && numOff <= MAX_DIST_CODES && |of| == OFFSET_SLOTS
  {
    hide SymbolCount, OffsetCount, ValidFreq;
  }

  /** Tables with every symbol in use cover the tokens. */
  lemma WarmCovers(litLens: seq<nat>, offLens: seq<nat>, le: seq<nat>, oe: seq<nat>, ts: seq<nat>,
                   lf: seq<nat>, of: seq<nat>, numLit: nat, numOff: nat)
    requires Table(litLens, le) && Table(offLens, oe)
    requires |litLens| == |le| == LITERAL_CODES && |offLens| == |oe| == MAX_DIST_CODES
    requires Indexed(ts, true, lf, of, numLit, numOff)
    requires forall s :: 0 <= s < numLit && lf[s] != 0 ==> HLen(le[s]) != 0
    requires forall c :: 0 <= c < numOff && of[c] != 0 ==> HLen(oe[c]) != 0
    ensures CountsCovered(litLens, offLens, ts)
  {
    hide Table, SymbolCount, OffsetCount, HLen, GoodCode, ValidFreq;
    TableZero(litLens, le);
    TableZero(offLens, oe);
    forall s | 0 <= s < MAX_LIT && SymbolCount(ts, s) > 0 ensures Used(litLens, s) { assert lf[s] != 0; }
    forall c | 0 <= c < MAX_DIST_CODES && OffsetCount(ts, c) > 0 ensures Used(offLens, c) { assert of[c] != 0; }
  }

  lemma SameFinal(before: seq<Block>, a: Open, b: Open)
    requires a.OpenBlock? && b.OpenBlock? && a.final == b.final
    ensures NoneFinal(before + [Finished(a)]) ==> NoneFinal(before + [Finished(b)])
  {
    assert (before + [Finished(a)])[|before|] == Finished(a);
    forall k | 0 <= k < |before| && NoneFinal(before + [Finished(a)]) ensures !before[k].final {
      assert (before + [Finished(a)])[k] == before[k];
    }
  }

  /** Final bits: an end-of-file block is the one new block and the only final one; any other call
      adds no final block. */
  ghost predicate Finality(before: seq<Block>, after: seq<Block>, eof: bool) {
    if eof then OneBlock(before, after, true) else NoneFinal(before) ==> NoneFinal(after)
  }

  lemma FinalityKept(all: seq<Block>, eof: bool)
    ensures !eof ==> Finality(all, all, eof)
  {
  }

  lemma OneFinality(before: seq<Block>, after: seq<Block>, eof: bool)
    requires OneBlock(before, after, eof)
    ensures Finality(before, after, eof)
  {
    if !eof && NoneFinal(before) {
      forall k | 0 <= k < |after| ensures !after[k].final {
        if k < |before| { assert after[..|before|][k] == before[k]; }
      }
    }
  }

  lemma NoFinality(before: seq<Block>, after: seq<Block>)
    requires NoneFinal(before) ==> NoneFinal(after)
    ensures Finality(before, after, false)
  {
  }

  lemma AllList(ts: seq<nat>)
    requires AllTokens(ts)
    ensures !Ends(ts) && Body(ts) == ts
  {
    if Ends(ts) { IsMatchFields(EOB_TOKEN); }
  }

  /** A code with a word for every byte of the input and the end of block. */
  predicate LiteralTable(lens: seq<nat>, codes: seq<nat>, input: seq<byte>) {
    && Table(lens, codes) && |lens| == END_OF_BLOCK + 1 <= |codes| && (Complete(lens) || Single(lens))
    && Used(lens, END_OF_BLOCK) && forall k :: 0 <= k < |input| ==> Used(lens, input[k])
  }

  /** Counts of the input's bytes and one end of block. */
  predicate CountsOf(lf: seq<nat>, input: seq<byte>) {
    && |lf| == LITERAL_SLOTS && lf[END_OF_BLOCK] == 1 && Sum(lf[..END_OF_BLOCK + 1]) <= MAX_BLOCK + 1
    && (forall v :: 0 <= v < 256 ==> lf[v] == ByteCount(input, v))
  }

  lemma TallyEnd(lf: seq<nat>, input: seq<byte>)
    requires Tallies(lf, input) && |lf| == LITERAL_SLOTS
    ensures lf[LITERAL_SLOTS - 1] == 0
  {
  }

  lemma TallySlots(lf: seq<nat>, input: seq<byte>)
    requires Tallies(lf, input)
    ensures |lf| >= 256 && forall v :: 0 <= v < 256 ==> lf[v] == ByteCounts(input)[v]
  {
    hide ByteCount, Sum;
  }

  lemma CountsAre(lf: seq<nat>, input: seq<byte>)
    requires CountsOf(lf, input)
    ensures |lf| == LITERAL_SLOTS && lf[..END_OF_BLOCK + 1] == ByteCounts(input)
  {
    hide ByteCount, Sum;
  }

  lemma LiteralsCost(lf: seq<nat>, input: seq<byte>, lens: seq<nat>, codes: seq<nat>)
    requires CountsOf(lf, input) && LiteralTable(lens, codes, input)
    ensures |lf| == LITERAL_SLOTS && |codes| >= |lens| == END_OF_BLOCK + 1
    ensures SizeTo(codes, lf[..END_OF_BLOCK + 1], END_OF_BLOCK + 1) == HuffmanOptimal.Cost(ByteCounts(input), lens)
  {
    hide ByteCounts, Sum, Complete, Single, Table, HLen, SizeTo, GoodCode, ByteCount;
    CountsAre(lf, input);
    TableZero(lens, codes);
    var f := lf[..END_OF_BLOCK + 1];
    SizeIsCost(codes, f, lens, END_OF_BLOCK + 1);
    assert f[..END_OF_BLOCK + 1] == f && lens[..END_OF_BLOCK + 1] == lens;
  }

  lemma TalliedFreq(lf: seq<nat>, input: seq<byte>)
    requires Tallies(lf, input) && |lf| == LITERAL_SLOTS && |input| <= MAX_BLOCK
    ensures var f := lf[END_OF_BLOCK := 1];
      ValidFreq(f[..END_OF_BLOCK + 1]) && CountsOf(f, input) && f[LITERAL_SLOTS - 1] == 0
  {
    hide ByteCount, Sum, ValidFreq;
    var f := lf[END_OF_BLOCK := 1];
    SumSet(lf, END_OF_BLOCK, 1);
    SumTo(f, END_OF_BLOCK + 1);
    ValidSpan(f, END_OF_BLOCK + 1);
  }

  lemma LiteralsCoded(lf: seq<nat>, input: seq<byte>, lens: seq<nat>, codes: seq<nat>)
    requires CountsOf(lf, input) && |lens| == END_OF_BLOCK + 1 <= |codes|
    requires TableOf(lf[..END_OF_BLOCK + 1], lens) && Fits(lens) && CanonCodes(lens, codes)
    ensures LiteralTable(lens, codes, input)
  {
    hide ByteCount, Sum, Complete, Single, Fits, CanonCodes;
    var f := lf[..END_OF_BLOCK + 1];
    assert f[END_OF_BLOCK] > 0;
    forall k | 0 <= k < |input| ensures Used(lens, input[k]) {
      ByteCounted(input, k);
      assert f[input[k]] > 0;
    }
  }

  lemma LiteralsSize(lf: seq<nat>, input: seq<byte>, lens: seq<nat>, codes: seq<nat>)
    requires CountsOf(lf, input) && LiteralTable(lens, codes, input)
    ensures SizeTo(codes, lf[..END_OF_BLOCK + 1], END_OF_BLOCK + 1) <= 15 * (MAX_BLOCK + 1)
    ensures Reusable(codes, lf[..END_OF_BLOCK + 1])
  {
    hide ByteCount, Sum, Complete, Single, Table, HLen, SizeTo, GoodCode;
    var f := lf[..END_OF_BLOCK + 1];
    TableZero(lens, codes);
    TableLimit(lens, codes);
    SizeBound(codes, f, END_OF_BLOCK + 1);
    assert f[..END_OF_BLOCK + 1] == f;
    forall i | 0 <= i < |f| && f[i] != 0 ensures codes[i] != 0 {
      if i < 256 { FoundByte(input, i); }
    }
  }

  lemma TableLimit(lens: seq<nat>, codes: seq<nat>)
    requires Table(lens, codes)
    ensures forall s :: 0 <= s < |lens| ==> lens[s] <= 15
  {
    hide Kraft, CanonCodes;
  }

  lemma {:induction false} FoundByte(s: seq<byte>, v: nat)
    requires ByteCount(s, v) > 0
    ensures exists k :: 0 <= k < |s| && s[k] == v
  {
    if s[0] != v {
      FoundByte(s[1..], v);
      var k :| 0 <= k < |s[1..]| && s[1..][k] == v;
      assert s[k + 1] == v;
    } else {
      assert s[0] == v;
    }
  }

  lemma HuffGlobals(g: Globals)
    requires GoodGlobals(g)
    ensures |g.huffOffset| == MAX_DIST_CODES && GoodCodes(g.huffOffset) && LensOf(g.huffOffset, 1) == [1]
    ensures Acceptable([1]) && Fits([1])
  {
    hide Complete, Empty, Fits, GoodCodes, LensOf, Agree;
    CountSole([1], 1, 0, 1);
    HuffmanDecoder.AcceptedFits([1]);
  }

  /** A literal table declares itself. */
  lemma LiteralDeclared(lens: seq<nat>, codes: seq<nat>, input: seq<byte>)
    requires LiteralTable(lens, codes, input)
    ensures Table(lens, codes) && Acceptable(lens) && Fits(lens) && Used(lens, END_OF_BLOCK)
    ensures |lens| == END_OF_BLOCK + 1 <= |codes|
    ensures LensOf(codes[..END_OF_BLOCK + 1], END_OF_BLOCK + 1) == lens && GoodCodes(codes[..END_OF_BLOCK + 1])
  {
    hide Complete, Single, Fits, CanonCodes, GoodCode, HLen;
    TableZero(lens, codes);
  }

  lemma LiteralOpen(final: bool, h: Hdr, litLens: seq<nat>, offLens: seq<nat>)
    requires GoodHdr(h) && h.lit == litLens && |litLens| == END_OF_BLOCK + 1
    ensures OpenOk(OpenBlock(final, h, []), true, litLens, offLens)
  {
    hide GoodHdr;
    assert litLens[..|litLens|] == litLens;
  }

  /** Literals that the table has are written with the codes that the open block declares. */
  lemma OpenLiteralCodes(open: Open, huff: bool, litLens: seq<nat>, offLens: seq<nat>, codes: seq<nat>,
          input: seq<byte>)
    requires open.OpenBlock? && OpenOk(open, huff, litLens, offLens) && Table(litLens, codes) &&
      |codes| == LITERAL_CODES
    requires forall k :: 0 <= k < |input| ==> Used(litLens, input[k])
    ensures GoodHdr(open.hdr) && CoversAll(open.hdr.lit, open.hdr.off, Lits(input)) && LiteralCodes(codes)
    ensures LiteralsEmit(codes, input) == ItemsBits(open.hdr.lit, open.hdr.off, Lits(input))
  {
    hide Table, GoodHeader, Fits, CoversAll, ItemsBits, LiteralsEmit, Agree, GoodCode, Trims, HLen;
    FittedAgree(litLens, open.hdr.lit, codes);
    TableZero(litLens, codes);
    LiteralsAreItems(codes, open.hdr.lit, open.hdr.off, input);
  }

  lemma SameHeader(a: Open, b: Open, lastHeader: nat)
    requires GoodOpen(a) && GoodOpen(b) && a.OpenBlock? && b.OpenBlock? && a.hdr == b.hdr && HeaderOk(a, lastHeader)
    ensures HeaderOk(b, lastHeader)
  {
    hide GoodHdr, HdrBits, CoversAll;
  }

  lemma LiteralSlots(lf: seq<nat>, input: seq<byte>)
    requires CountsOf(lf, input)
    ensures |lf| == LITERAL_SLOTS
  {
  }

  lemma TableLiterals(lens: seq<nat>, codes: seq<nat>, input: seq<byte>)
    requires LiteralTable(lens, codes, input)
    ensures forall k :: 0 <= k < |input| ==> Used(lens, input[k])
  {
    hide Table, Complete, Single;
  }

  /** A code that has a word for every counted byte has one for every byte of the input. */
  lemma ReusedLiterals(litLens: seq<nat>, codes: seq<nat>, lf: seq<nat>, input: seq<byte>)
    requires Table(litLens, codes) && |litLens| > END_OF_BLOCK && |codes| == LITERAL_CODES
    requires CountsOf(lf, input) && Reusable(codes, lf[..256])
    ensures forall k :: 0 <= k < |input| ==> Used(litLens, input[k])
  {
    hide Table, ByteCount, Sum, HLen, GoodCode;
    TableZero(litLens, codes);
    forall k | 0 <= k < |input| ensures Used(litLens, input[k]) {
      ByteCounted(input, k);
      assert lf[..256][input[k]] > 0;
    }
  }

  lemma OneMoreBlock(before: seq<Block>, b: Block)
    ensures OneBlock(before, before + [b], b.final)
  {
  }

  /** The bits of a finished stream decode to what its blocks stand for. */
  lemma StreamDecodes(closed: seq<Block>, tail: seq<bool>, dict: seq<byte>)
    requires GoodBlocks(closed) && LastIsFinal(closed) && AllValid(dict, StateItems(closed, NoBlock))
    requires |StateBits(closed, NoBlock) + tail| % 8 == 0
    ensures ReadStream(StateBits(closed, NoBlock) + tail, dict) ==
      Some((Expand(dict, StateItems(closed, NoBlock)), tail))
  {
    hide GoodBlocks, AllValid, Expand, LastIsFinal, ReadStream, Contents, BlocksBits;
    assert Contents(closed) + [] == Contents(closed);
    assert BlocksBits(closed, 0) + [] == BlocksBits(closed, 0);
    StreamRoundTrip(closed, 0, dict, tail);
  }

  lemma WholeBytesOut(out: seq<byte>, buf: seq<byte>, n: nat, bits: nat, nbits: nat)
    requires n <= |buf| && nbits % 8 == 0
    ensures |Stream(out, buf, n, bits, nbits)| % 8 == 0
  {
    var k := |out + buf[..n]|;
    DivUnique(8 * k + nbits, k + nbits / 8, 0, 8);
  }

  lemma NoPadding(n: nat)
    requires n % 8 == 0
    ensures Padding(n) == 0 && Zeros(Padding(n)) == []
  {
  }

  lemma PaddingSmall(n: nat)
    ensures |Zeros(Padding(n))| < 8
  {
  }

  lemma OnlyLast(before: seq<Block>, last: Block)
    requires NoneFinal(before) && last.final
    ensures LastIsFinal(before + [last])
  {
  }

  lemma StoredOne(before: seq<Block>, after: seq<Block>, input: seq<byte>, eof: bool)
    requires after == before + [if input == [] && eof then Fixed(true, []) else Stored(eof, input)]
    ensures OneBlock(before, after, eof)
  {
  }

  lemma CoverCounts(litLens: seq<nat>, offLens: seq<nat>, le: seq<nat>, oe: seq<nat>, ts: seq<nat>)
    requires Table(litLens, le) && Table(offLens, oe)
    requires |litLens| == |le| == LITERAL_CODES && |offLens| == |oe| == MAX_DIST_CODES && CodesCover(le, oe, ts)
    ensures CountsCovered(litLens, offLens, ts)
  {
    hide Table, SymbolCount, OffsetCount, HLen, GoodCode;
    TableZero(litLens, le);
    TableZero(offLens, oe);
  }

  /** What a call put in: the input as it is when it was stored, and else the tokens' items. */
  predicate Took(before: seq<Item>, after: seq<Item>, xs: seq<Item>, input: Option<seq<byte>>, asStored: bool) {
    if asStored then input.Some? && after == before + Lits(input.value) else after == before + xs
  }

  /** Either of them. */
  predicate Appended(before: seq<Item>, after: seq<Item>, xs: seq<Item>, input: Option<seq<byte>>) {
    after == before + xs || (input.Some? && after == before + Lits(input.value))
  }

  lemma BodyEnd(ts0: seq<nat>, ts: seq<nat>)
    requires ts == ts0 + [EOB_TOKEN]
    ensures Ends(ts) && Body(ts) == ts0
  {
  }

  lemma {:induction false} EndCounted(ts: seq<nat>)
    requires Ends(ts)
    ensures SymbolCount(ts, END_OF_BLOCK) > 0
  {
    CountedSymbol(ts, |ts| - 1);
  }

  /** The end of block is counted once. */
  lemma {:induction false} NoEnd(ts: seq<nat>)
    requires AllTokens(ts)
    ensures SymbolCount(ts, END_OF_BLOCK) == 0
  {
    if ts != [] {
      assert ts[|ts| - 1] in ts;
      NoEnd(ts[..|ts| - 1]);
    }
  }

  lemma EndIndexed(ts: seq<nat>, lf: seq<nat>, of: seq<nat>, numLit: nat, numOff: nat)
    requires TokenList(ts) && Ends(ts) && Indexed(ts, false, lf, of, numLit, numOff)
    ensures Indexed(ts, true, lf, of, numLit, numOff)
  {
    NoEnd(ts[..|ts| - 1]);
  }

  lemma IndexedSizes(ts: seq<nat>, always: bool, lf: seq<nat>, of: seq<nat>, numLit: nat, numOff: nat)
    requires Indexed(ts, always, lf, of, numLit, numOff) && (Ends(ts) || always)
    ensures |lf| == LITERAL_SLOTS && |of| == OFFSET_SLOTS && lf[END_OF_BLOCK] > 0 && lf[LITERAL_SLOTS - 1] == 0
    ensures ValidFreq(lf[..LITERAL_CODES]) && ValidFreq(of[..MAX_DIST_CODES])
    ensures 1 <= numLit <= LITERAL_CODES && 1 <= numOff <= MAX_DIST_CODES
  {
    hide ValidFreq, SymbolCount, OffsetCount;
    if Ends(ts) { EndCounted(ts); }
  }

  /** The declared part of a table: up to the last symbol in use. */
  lemma TablePart(freq: seq<nat>, lens: seq<nat>, codes: seq<nat>, m: nat)
    requires TableOf(freq, lens) && Table(lens, codes) && |codes| == |lens|
    requires 1 <= m <= |freq| && freq[m - 1] > 0 && forall s :: m <= s < |freq| ==> freq[s] == 0
    ensures Fitted(lens, lens[..m]) && Acceptable(lens[..m]) && Fits(lens[..m])
    ensures LensOf(codes, m) == lens[..m] && GoodCodes(codes)
    ensures forall s :: 0 <= s < m ==> (Used(lens[..m], s) <==> freq[s] > 0)
  {
    hide Complete, Single, Fits, CanonCodes, HLen, GoodCode;
    TrimAccepted(lens, m);
    TableZero(lens, codes);
  }

  lemma WholeBlock(final: bool, h: Hdr, xs: seq<Item>, s: seq<bool>, body: seq<bool>)
    requires GoodHdr(h) && CoversAll(h.lit, h.off, xs)
    requires body == ItemsBits(h.lit, h.off, xs) + SymBits(h.lit, END_OF_BLOCK)
    ensures GoodBlock(Dynamic(final, h, xs))
    ensures forall pos :: s + Opening(final, 2) + HdrBits(h) + body == s + BlockBits(Dynamic(final, h, xs), pos)
  {
    hide GoodHeader, Fits, CoversAll, ItemsBits, SymBits, Opening, HdrBits;
    StartIs(final, h, xs);
    var o, a, b := Opening(final, 2) + HdrBits(h), ItemsBits(h.lit, h.off, xs), SymBits(h.lit, END_OF_BLOCK);
    Assoc(s, Opening(final, 2), HdrBits(h));
    Assoc(s, o, body);
    Assoc(o, a, b);
  }

  /** A header from parts that were just made. */
  lemma HeaderGood(h: Hdr, freq: seq<nat>)
    requires HeaderReady(h.lit, h.off, freq, h.codes, h.cg) && LeastCodes(freq, h.nc)
    requires Coded(h.cg, freq, h.lit + h.off) && StandardCode(freq, h.codes) && h.cg == CodegenOf(h.lit + h.off)
    requires Fits(h.lit) && Fits(h.off) && Used(h.lit, END_OF_BLOCK)
    ensures GoodHdr(h) && Standard(h)
  {
    hide GoodHeader, NoneAfter, Fits, GoodCodes, Coded, StandardCode, CodegenOf;
  }

  function Not16(x: nat): nat
    requires x < 0x1_0000
  {
    0xffff - x
  }

  /** A stored block up to its data. */
  ghost function StoredHead(final: bool, n: nat, pos: nat): seq<bool>
    requires n <= MAX_STORED
  {
    Opening(final, 0) + Zeros(Padding(pos + 3)) + BitsOf(n, 16) + BitsOf(MAX_STORED - n, 16)
  }

  lemma StoredHeadIs(s: seq<bool>, final: bool, n: nat)
    requires n <= MAX_STORED
    ensures var e := s + Opening(final, 0);
      e + Zeros(Padding(|e|)) + BitsOf(n, 16) + BitsOf(MAX_STORED - n, 16) == s + StoredHead(final, n, |s|)
  {
    hide Opening, Zeros, Padding, BitsOf;
    var o, z, a, b := Opening(final, 0), Zeros(Padding(|s| + 3)), BitsOf(n, 16), BitsOf(MAX_STORED - n, 16);
    Assoc(s, o, z);
    Assoc(s, o + z, a);
    Assoc(s, o + z + a, b);
  }

  lemma StoredIs(s: seq<bool>, final: bool, data: seq<byte>)
    requires |data| <= MAX_STORED
    ensures s + StoredHead(final, |data|, |s|) + BytesBits(data) == s + StoredBits(final, data, |s|)
  {
    hide Opening, Zeros, Padding, BitsOf, BytesBits;
    Assoc(s, StoredHead(final, |data|, |s|), BytesBits(data));
  }

  lemma NothingMore(s: seq<bool>, xs: seq<Item>)
    ensures BytesBits([]) == [] && Lits([]) == [] && s + [] == s && xs + [] == xs
  {
  }

  /** The fixed code's end of block is seven zero bits. */
  lemma FixedEnd()
    ensures Used(FixedLit(), END_OF_BLOCK) && SymBits(FixedLit(), END_OF_BLOCK) == BitsOf(0, 7)
  {
    hide FixedLit;
    FixedLitCode(END_OF_BLOCK);
    ZeroCode(7);
  }

  lemma {:induction false} ZeroCode(n: nat)
    ensures CodeBits(0, n) == BitsOf(0, n)
  {
    ZeroBits(n);
    AllZeroCode(n);
  }

  lemma {:induction false} AllZeroCode(n: nat)
    ensures CodeBits(0, n) == seq(n, _ => false)
  {
    if n > 0 { AllZeroCode(n - 1); }
  }

  lemma FixedNothing(final: bool)
    ensures GoodBlock(Fixed(final, [])) && 0 < Pow2(7)
    ensures forall pos :: BlockBits(Fixed(final, []), pos) == Opening(final, 1) + BitsOf(0, 7)
  {
    hide FixedLit, FixedOff, SymBits, BitsOf, Opening;
    FixedEnd();
    assert Opening(final, 1) + [] + BitsOf(0, 7) == Opening(final, 1) + BitsOf(0, 7);
  }

  /** Tokens written with the fixed code words are a block with the fixed code. */
  lemma FixedTokens(g: Globals, final: bool, ts: seq<nat>)
    requires GoodGlobals(g) && TokenList(ts) && Ends(ts)
    ensures Tables(g.fixedLiteral, g.fixedOffset)
    ensures GoodBlock(Fixed(final, Tokens.Items(Body(ts))))
    ensures forall pos :: (BlockBits(Fixed(final, Tokens.Items(Body(ts))), pos)
                           == Opening(final, 1) + ListEmit(g.fixedLiteral, g.fixedOffset, ts))
  {
    hide FixedLit, FixedOff, SymBits, BitsOf, Opening, Fits, Agree, GoodCodes, CoversAll, ListEmit, ItemsBits;
    FixedEnd();
    FixedCovers(ts);
    FixedFit();
    ListIsBody(FixedLit(), FixedOff(), g.fixedLiteral, g.fixedOffset, ts);
    Assoc(Opening(final, 1), ItemsBits(FixedLit(), FixedOff(), Tokens.Items(Body(ts))),
      SymBits(FixedLit(), END_OF_BLOCK));
  }

  lemma FixedFit()
    ensures Fits(FixedLit()) && Fits(FixedOff())
  {
    hide FixedLit, FixedOff, Kraft;
    FixedLitComplete();
    FixedOffComplete();
    FitsComplete(FixedLit());
    FitsComplete(FixedOff());
  }

  lemma FixedCovers(ts: seq<nat>)
    ensures CountsCovered(FixedLit(), FixedOff(), ts)
  {
    hide SymbolCount, OffsetCount;
  }

  // ---------------------------------------------------------------------------------------------
  // Frequencies of a block.
  // ---------------------------------------------------------------------------------------------

  predicate NoMatches(ts: seq<nat>) {
    forall c :: 0 <= c < OFFSET_SLOTS ==> OffsetCount(ts, c) == 0
  }

  /** The histograms as the code construction gets them: the end of block counted when asked for, and
      at least one distance. */
  predicate Indexed(ts: seq<nat>, alwaysEOB: bool, lf: seq<nat>, of: seq<nat>, numLit: nat, numOff: nat) {
    && |lf| == LITERAL_SLOTS && |of| == OFFSET_SLOTS
    && (forall s :: 0 <= s < LITERAL_SLOTS && s != END_OF_BLOCK ==> lf[s] == SymbolCount(ts, s))
    && lf[END_OF_BLOCK] == (if alwaysEOB then 1 else SymbolCount(ts, END_OF_BLOCK))
    && (forall c :: 1 <= c < OFFSET_SLOTS ==> of[c] == OffsetCount(ts, c))
    && of[0] == (if NoMatches(ts) then 1 else OffsetCount(ts, 0))
    && 1 <= numLit <= LITERAL_CODES && lf[numLit - 1] != 0 && (forall s :: numLit <= s < LITERAL_SLOTS ==> lf[s] == 0)
    && 1 <= numOff <= MAX_DIST_CODES && of[numOff - 1] != 0 && (forall c :: numOff <= c < OFFSET_SLOTS ==> of[c] == 0)
    && ValidFreq(lf[..LITERAL_CODES]) && ValidFreq(of[..MAX_DIST_CODES])
  }

  lemma {:induction false} HighSymbols(ts: seq<nat>, s: nat)
    requires s >= LITERAL_CODES
    ensures SymbolCount(ts, s) == 0
  {
    hide SymbolOf;
    if ts != [] { HighSymbols(ts[..|ts| - 1], s); }
  }

  lemma {:induction false} HighOffsetsIn(ts: seq<nat>, c: nat)
    requires c >= MAX_DIST_CODES && AllTokens(ts)
    ensures OffsetCount(ts, c) == 0
  {
    hide TokOffset, OffsetCode, IsMatch;
    if ts != [] {
      HighOffsetsIn(ts[..|ts| - 1], c);
      var t := ts[|ts| - 1];
      if t > EOB_TOKEN { IsMatchFields(t); }
    }
  }

  lemma HighOffsets(ts: seq<nat>, c: nat)
    requires c >= MAX_DIST_CODES && TokenList(ts)
    ensures OffsetCount(ts, c) == 0
  {
    if Ends(ts) {
      HighOffsetsIn(ts[..|ts| - 1], c);
    } else {
      HighOffsetsIn(ts, c);
    }
  }

  lemma SumTo(f: seq<nat>, k: nat)
    requires k <= |f|
    ensures Sum(f[..k]) <= Sum(f)
  {
    assert f == f[..k] + f[k..];
    SumConcat(f[..k], f[k..]);
  }

  lemma SumSet(f: seq<nat>, k: nat, v: nat)
    requires k < |f|
    ensures Sum(f[k := v]) <= Sum(f) + v
  {
    SumZero(f, k);
    SumZero(f[k := v], k);
    assert f[k := v][k := 0] == f[k := 0];
  }

  lemma ValidSpan(f: seq<nat>, k: nat)
    requires 3 <= k <= |f| && k <= SYMBOL_SPAN && Sum(f) < 0x1_0001 && forall s :: 0 <= s < k ==> f[s] < 0x1_0000
    ensures ValidFreq(f[..k])
  {
    SumTo(f, k);
  }

  /** Histograms side by side count what they counted apart. */
  lemma CopiedCounts(lit: seq<nat>, extra: seq<nat>, off: seq<nat>, ts: seq<nat>, lf: seq<nat>)
    requires Counted(lit, extra, off, ts) && lf == lit + extra + [0]
    ensures |lf| == LITERAL_SLOTS && forall s :: 0 <= s < LITERAL_SLOTS ==> lf[s] == SymbolCount(ts, s)
  {
    hide SymbolCount, OffsetCount;
    HighSymbols(ts, LITERAL_SLOTS - 1);
    forall s | 0 <= s < LITERAL_SLOTS ensures lf[s] == SymbolCount(ts, s) {
      if s < 256 {
        assert lf[s] == lit[s];
      } else if s < 256 + EXTRA_CODES {
        assert lf[s] == extra[s - 256] == SymbolCount(ts, 256 + (s - 256));
      }
    }
  }

  lemma IndexedFrom(ts: seq<nat>, always: bool, lf0: seq<nat>, of0: seq<nat>, lf: seq<nat>, of: seq<nat>, numLit: nat,
          numOff: nat)
    requires TokenList(ts) && |lf0| == LITERAL_SLOTS && |of0| == OFFSET_SLOTS
    requires Sum(lf0) == |ts| <= MAX_BLOCK && Sum(of0) <= |ts|
    requires forall s :: 0 <= s < LITERAL_SLOTS ==> lf0[s] == SymbolCount(ts, s)
    requires forall c :: 0 <= c < OFFSET_SLOTS ==> of0[c] == OffsetCount(ts, c)
    requires lf == if always then lf0[END_OF_BLOCK := 1] else lf0
    requires if forall c :: 0 <= c < OFFSET_SLOTS ==> of0[c] == 0 then of == of0[0 := 1] else of == of0
    requires 1 <= numLit <= LITERAL_SLOTS && lf[numLit - 1] != 0 && forall s :: numLit <= s < LITERAL_SLOTS ==>
      lf[s] == 0
    requires 1 <= numOff <= OFFSET_SLOTS && of[numOff - 1] != 0 && forall c :: numOff <= c < OFFSET_SLOTS ==> of[c] == 0
    ensures Indexed(ts, always, lf, of, numLit, numOff)
  {
    hide SymbolCount, OffsetCount, Sum, ValidFreq, TokenList;
    forall s | LITERAL_CODES <= s < LITERAL_SLOTS ensures lf[s] == 0 { HighSymbols(ts, s); }
    forall c | MAX_DIST_CODES <= c < OFFSET_SLOTS ensures of[c] == 0 { HighOffsets(ts, c); }
    BelowSum(lf0, |ts|);
    BelowSum(of0, |ts|);
    SumSet(lf0, END_OF_BLOCK, 1);
    SumSet(of0, 0, 1);
    ValidSpan(lf, LITERAL_CODES);
    ValidSpan(of, MAX_DIST_CODES);
  }

  lemma HistSums(lit: seq<nat>, extra: seq<nat>, lf: seq<nat>)
    requires lf == lit + extra + [0]
    ensures Sum(lf) == Sum(lit) + Sum(extra)
  {
    SumConcat(lit, extra);
    SumConcat(lit + extra, [0]);
    assert Sum([0]) == 0 + Sum([0][1..]);
  }

  lemma BelowSum(f: seq<nat>, m: nat)
    requires Sum(f) <= m
    ensures forall k :: 0 <= k < |f| ==> f[k] <= m
  {
    forall k | 0 <= k < |f| ensures f[k] <= m { SumBounds(f, k); }
  }

  /** Lengths of a code for exactly the symbols with a frequency. */
  predicate TableOf(freq: seq<nat>, lens: seq<nat>) {
    && |lens| == |freq| && (forall s :: 0 <= s < |freq| ==> lens[s] <= MAX_BITS && (lens[s] > 0 <==> freq[s] > 0))
    && ((exists s :: 0 <= s < |freq| && freq[s] > 0) ==> Complete(lens) || Single(lens))
  }

  /** Lengths built for these frequencies. */
  ghost predicate OwnTable(freq: seq<nat>, lens: seq<nat>) {
    exists q :: SortedEntries(freq, q) && Built(freq, lens, 15, q)
  }

  lemma OwnTableIs(freq: seq<nat>, lens: seq<nat>, q: seq<nat>)
    requires SortedEntries(freq, q) && Built(freq, lens, 15, q)
    ensures OwnTable(freq, lens)
  {
    hide SortedEntries, Built;
  }

  lemma OwnTableOnce(freq: seq<nat>, a: seq<nat>, b: seq<nat>)
    requires OwnTable(freq, a) && OwnTable(freq, b)
    ensures a == b
  {
    hide SortedEntries, Built;
    var q :| SortedEntries(freq, q) && Built(freq, a, 15, q);
    var r :| SortedEntries(freq, r) && Built(freq, b, 15, r);
    BuiltOnce(freq, a, b, 15, q, r);
  }

  lemma OwnTableOf(freq: seq<nat>, lens: seq<nat>)
    requires OwnTable(freq, lens)
    ensures TableOf(freq, lens)
  {
    hide SortedEntries, Built, TableOf;
    var q :| SortedEntries(freq, q) && Built(freq, lens, 15, q);
    GeneratedTable(freq, lens, 15, q);
  }

  lemma GeneratedTable(freq: seq<nat>, lens: seq<nat>, m: nat, q: seq<nat>)
    requires SortedEntries(freq, q) && Built(freq, lens, m, q)
    ensures TableOf(freq, lens) && Fits(lens)
  {
    hide SortedEntries, Built, Complete, Single, Fits;
    BuiltLengths(freq, lens, m, q);
    if s :| 0 <= s < |freq| && freq[s] > 0 {
      GenerateAccepted(freq, lens, m, q, s);
      HuffmanDecoder.AcceptedFits(lens);
    } else {
      EmptyFits(lens);
    }
  }

  lemma EmptyFits(lens: seq<nat>)
    requires Empty(lens)
    ensures Fits(lens)
  {
    assert Trims(lens, 0);
    TrimKraft(lens, 0, MAX_BITS + 1);
    assert lens[..0] == [];
    NoKraft(MAX_BITS + 1);
  }

  lemma AlphabetFits()
    ensures LITERAL_CODES <= Pow2(15) && MAX_DIST_CODES <= Pow2(15) && CODEGEN_CODES <= Pow2(7)
  {
    LzCodes.Pow2Small();
    LzCodes.Pow2Large();
    Pow2Mono(9, 15);
  }

  lemma NotCached(hdr: HdrCache, litLens: seq<nat>, offLens: seq<nat>, cached: Hdr, final: bool)
    requires !hdr.valid
    ensures CacheOk(hdr, litLens, offLens, cached, final)
  {
  }

  /** With any sufficient number of code lengths, the parts make a good header. */
  ghost predicate HeaderReady(lit: seq<nat>, off: seq<nat>, freq: seq<nat>, codes: seq<nat>, cg: seq<nat>) {
    && |freq| == CODEGEN_CODES && GoodCodes(codes)
    && forall nc: nat :: NoneAfter(freq, nc) ==> GoodHeader(lit, off, nc, codes, cg)
  }

  lemma ReadyFrom(lit: seq<nat>, off: seq<nat>, freq: seq<nat>, cl: seq<nat>, codes: seq<nat>, cg: seq<nat>,
          q: seq<nat>)
    requires FIRST_LENGTH <= |lit| <= MAX_LIT && 1 <= |off| <= MAX_DIST_CODES && Acceptable(lit) && Acceptable(off)
    requires Coded(cg, freq, lit + off) && |codes| == |cl| == CODEGEN_CODES && CanonCodes(cl, codes)
    requires SortedEntries(freq, q) && Built(freq, cl, 7, q)
    ensures HeaderReady(lit, off, freq, codes, cg)
  {
    hide Acceptable, GoodCodes, Built, SortedEntries, CanonCodes, GoodHeader, NoneAfter, CodeCount, ExpandCodegen,
         GoodCodegen;
    AllCounted(freq);
    GoodFromParts(lit, off, CODEGEN_CODES, codes, cg, freq, cl, q);
    forall nc: nat | NoneAfter(freq, nc) ensures GoodHeader(lit, off, nc, codes, cg) {
      GoodFromParts(lit, off, nc, codes, cg, freq, cl, q);
    }
  }

  lemma AllCounted(freq: seq<nat>)
    requires |freq| == CODEGEN_CODES
    ensures NoneAfter(freq, CODEGEN_CODES)
  {
  }

  lemma HdrSizes(h: Hdr)
    requires GoodHdr(h)
    ensures FIRST_LENGTH <= |h.lit| <= MAX_LIT && 1 <= |h.off| <= MAX_DIST_CODES && 4 <= h.nc <= CODEGEN_CODES
    ensures |h.codes| == CODEGEN_CODES && GoodCodegen(h.cg, []) && GoodCodes(h.codes)
    ensures forall c :: 0 <= c < CODEGEN_CODES ==> HLen(h.codes[c]) < 8
  {
    hide Fits, Acceptable, CanonCodes, UsedAll, GoodCodegen, ExpandCodegen, HLen;
    var cl := LensOf(h.codes, CODEGEN_CODES);
    LensOfCanon(cl, h.codes);
    assert forall c :: 0 <= c < CODEGEN_CODES ==> cl[c] == HLen(h.codes[c]);
  }

  /** Tokens covered by the tables at hand are covered by the header of the open block, and are
      written with the codes that it declares. */
  lemma OpenTables(open: Open, litLens: seq<nat>, offLens: seq<nat>, le: seq<nat>, oe: seq<nat>, ts: seq<nat>)
    requires open.OpenBlock? && OpenOk(open, false, litLens, offLens)
    requires Table(litLens, le) && Table(offLens, oe) && |le| == LITERAL_CODES && |oe| == MAX_DIST_CODES
    requires TokenList(ts) && CountsCovered(litLens, offLens, ts)
    ensures Tables(le, oe) && CoversAll(open.hdr.lit, open.hdr.off, Tokens.Items(Body(ts)))
    ensures Used(open.hdr.lit, END_OF_BLOCK)
    ensures ListEmit(le, oe, ts) == ItemsBits(open.hdr.lit, open.hdr.off, Tokens.Items(Body(ts)))
      + if Ends(ts) then SymBits(open.hdr.lit, END_OF_BLOCK) else []
  {
    hide Table, GoodHeader, Fits, Fitted, CoversAll, ItemsBits, SymBits, ListEmit, TokenList, Agree, SymbolCount,
         OffsetCount, GoodCode;
    var h := open.hdr;
    FittedAgree(litLens, h.lit, le);
    FittedAgree(offLens, h.off, oe);
    TableZero(litLens, le);
    TableZero(offLens, oe);
    assert CountsCovered(h.lit, h.off, ts);
    ListIsBody(h.lit, h.off, le, oe, ts);
  }

  lemma SameOpen(a: Open, b: Open, huff: bool, litLens: seq<nat>, offLens: seq<nat>)
    requires OpenOk(a, huff, litLens, offLens) && a.OpenBlock? && b.OpenBlock? && a.hdr == b.hdr
    ensures OpenOk(b, huff, litLens, offLens)
  {
  }

  predicate CodesCover(le: seq<nat>, oe: seq<nat>, ts: seq<nat>)
    requires |le| == LITERAL_CODES && |oe| == MAX_DIST_CODES
  {
    && (forall s :: 0 <= s < LITERAL_CODES && SymbolCount(ts, s) > 0 ==> le[s] != 0)
    && (forall c :: 0 <= c < MAX_DIST_CODES && OffsetCount(ts, c) > 0 ==> oe[c] != 0)
  }

  // ---------------------------------------------------------------------------------------------
  // Bits of the cached header.
  // ---------------------------------------------------------------------------------------------

  /** x & ^1, clearing the lowest bit. */
  function AndNot1(x: nat): nat {
    ClearIsLess(x);
    x - And(x, 1)
  }

  lemma ClearIsLess(x: nat)
    ensures And(x, 1) == x % 2
  {
    if x > 0 { assert And(x / 2, 0) == 0; }
  }

  function FirstBit(b: byte, bit: bool): byte {
    b / 2 * 2 + if bit then 1 else 0
  }

  function SetBit(b: byte): (r: byte)
    ensures r == FirstBit(b, true)
  {
    OrOne(b);
    Or(b, 1)
  }

  function ClearBit(b: byte): (r: byte)
    ensures r == FirstBit(b, false)
  {
    ClearIsLess(b);
    AndNot1(b)
  }

  lemma OrOne(x: nat)
    ensures Or(x, 1) == x / 2 * 2 + 1
  {
    if x > 0 { assert Or(x / 2, 0) == x / 2; }
  }

  lemma BitZero(x: nat, y: nat, n: nat)
    requires n >= 1 && y / 2 == x / 2
    ensures BitsOf(y, n) == [y % 2 == 1] + BitsOf(x, n)[1..]
  {
  }

  /** What is in the buffer comes after what has been handed on. */
  lemma Buffered(out: seq<byte>, buf: seq<byte>, n: nat, bits: nat, nbits: nat, code: seq<bool>)
    requires n <= |buf| && Stream(out, buf, n, bits, nbits) == BytesBits(out) + code
    ensures BytesBits(buf[..n]) + BitsOf(bits, nbits) == code
  {
    JoinBuffered(out, buf, n, bits, nbits);
    Cut(BytesBits(out), code);
    Cut(BytesBits(out), BytesBits(buf[..n]) + BitsOf(bits, nbits));
  }

  lemma JoinBuffered(out: seq<byte>, buf: seq<byte>, n: nat, bits: nat, nbits: nat)
    requires n <= |buf|
    ensures Stream(out, buf, n, bits, nbits) == BytesBits(out) + (BytesBits(buf[..n]) + BitsOf(bits, nbits))
  {
    hide BytesBits, BitsOf;
    BytesBitsConcat(out, buf[..n]);
    Assoc(BytesBits(out), BytesBits(buf[..n]), BitsOf(bits, nbits));
  }

  lemma NothingBuffered(out: seq<byte>, buf: seq<byte>, bits: nat)
    ensures Stream(out, buf, 0, bits, 0) == BytesBits(out)
  {
    assert out + buf[..0] == out;
    assert BytesBits(out) + [] == BytesBits(out);
  }

  /** Changing the lowest bit of the first byte, or of the bits when there is none, changes the final
      bit of the header. */
  lemma Patched(b: seq<byte>, bits: nat, nbits: nat, final: bool, isEof: bool, code: seq<bool>)
    requires BytesBits(b) + BitsOf(bits, nbits) == Opening(final, 2) + code && bits < Pow2(nbits)
    ensures b != [] ==> BytesBits(b[0 := FirstBit(b[0], isEof)]) + BitsOf(bits, nbits) == Opening(isEof, 2) + code
    ensures b == [] ==> var x := if isEof then Or(bits, 1) else AndNot1(bits);
      x < Pow2(nbits) && BytesBits(b) + BitsOf(x, nbits) == Opening(isEof, 2) + code
  {
    hide BitsOf, Pow2, Or, And;
    var s, r := Opening(final, 2) + code, Opening(isEof, 2) + code;
    assert r == [isEof] + s[1..];
    if b != [] {
      var c := FirstBit(b[0], isEof);
      var d := b[0 := c];
      BitZero(b[0], c, 8);
      assert d[1..] == b[1..] && BytesBits(d) == BitsOf(c, 8) + BytesBits(b[1..]);
      assert BytesBits(b) == BitsOf(b[0], 8) + BytesBits(b[1..]);
      var t := BytesBits(b[1..]) + BitsOf(bits, nbits);
      Assoc(BitsOf(b[0], 8), BytesBits(b[1..]), BitsOf(bits, nbits));
      Assoc(BitsOf(c, 8), BytesBits(b[1..]), BitsOf(bits, nbits));
      assert (BitsOf(b[0], 8) + t)[1..] == BitsOf(b[0], 8)[1..] + t;
      Assoc([isEof], BitsOf(b[0], 8)[1..], t);
    } else {
      var x := if isEof then Or(bits, 1) else AndNot1(bits);
      OrOne(bits);
      ClearIsLess(bits);
      assert |BitsOf(bits, nbits)| >= 3;
      BitZero(bits, x, nbits);
      EvenPower(bits, nbits);
      assert [] + BitsOf(x, nbits) == BitsOf(x, nbits) && [] + BitsOf(bits, nbits) == BitsOf(bits, nbits);
    }
  }

  lemma EvenPower(x: nat, n: nat)
    requires x < Pow2(n) && n >= 1
    ensures x / 2 * 2 + 1 < Pow2(n)
  {
  }

  lemma HeaderOpen(open: Open, lastHeader: nat)
    requires GoodOpen(open) && HeaderOk(open, lastHeader)
    ensures lastHeader > 0 <==> open.OpenBlock?
    ensures open.NoBlock? ==> open == NoBlock
  {
  }

  lemma NoneOpen(huff: bool, litLens: seq<nat>, offLens: seq<nat>)
    ensures GoodOpen(NoBlock) && HeaderOk(NoBlock, 0) && OpenOk(NoBlock, huff, litLens, offLens)
  {
  }

  lemma NothingWritten(hdr: HdrCache, litLens: seq<nat>, offLens: seq<nat>, cached: Hdr, final: bool)
    requires !hdr.valid
    ensures GoodBlocks([]) && GoodOpen(NoBlock) && StateBits([], NoBlock) == [] && HeaderOk(NoBlock, 0)
    ensures forall huff :: OpenOk(NoBlock, huff, litLens, offLens)
    ensures CacheOk(hdr, litLens, offLens, cached, final)
  {
  }

  lemma NothingPut()
    ensures 0 < Pow2(0) && StateItems([], NoBlock) == [] && BytesBits([]) == []
  {
  }

  lemma NoTable(codes: seq<nat>)
    ensures Table([], codes)
  {
    NoKraft(MAX_BITS + 1);
  }

  lemma {:induction false} NoKraft(l: nat)
    requires 1 <= l <= MAX_BITS + 1
    ensures KraftBelow([], l) == 0
  {
    if l > 1 { NoKraft(l - 1); }
  }
}
