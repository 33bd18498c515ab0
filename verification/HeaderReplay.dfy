/** Replaying a cached header leaves the writer exactly as writing that header anew would. */
module HeaderReplay {
  import opened Words
  import opened Canon
  import opened HuffmanTree
  import opened HuffmanSort
  import opened HuffmanCode
  import opened HuffmanEncoder
  import opened Lz
  import opened LzCodes
  import opened Format
  import opened Codegen
  import opened Header
  import opened BitReader
  import opened BitWriter
  import opened Blocks
  import opened Trim
  import opened HuffmanCodes
  import opened HeaderWriter
  import opened WriterState
  import opened BlockWriter

  /** A buffer of whole groups of six bytes, with at most 47 bits waiting: the state between calls. */
  predicate Grouped(buf: seq<byte>, bits: nat, nbits: nat) {
    |buf| % 6 == 0 && |buf| < FLUSH_SIZE && nbits <= 47 && bits < Pow2(nbits)
  }

  lemma SameGroups(a: nat, m: nat, b: nat, n: nat)
    requires a % 6 == 0 && b % 6 == 0 && m <= 47 && n <= 47 && 8 * a + m == 8 * b + n
    ensures a == b && m == n
  {
    var i, j := a / 6, b / 6;
    DivUnique(48 * i + m, i, m, 48);
    DivUnique(48 * i + m, j, n, 48);
  }

  /** With whole groups of six bytes in the buffer, the bits given to the writer determine its state. */
  lemma BitsFixState(a: seq<byte>, x: nat, m: nat, b: seq<byte>, y: nat, n: nat)
    requires Grouped(a, x, m) && Grouped(b, y, n)
    requires BytesBits(a) + BitsOf(x, m) == BytesBits(b) + BitsOf(y, n)
    ensures a == b && x == y && m == n
  {
    hide BytesBits, BitsOf, Pow2;
    assert 8 * |a| + m == |BytesBits(a) + BitsOf(x, m)| == 8 * |b| + n;
    SameGroups(|a|, m, |b|, n);
    Cut(BytesBits(a), BitsOf(x, m));
    Cut(BytesBits(b), BitsOf(y, n));
    BytesOfBits(a);
    BytesOfBits(b);
    FieldBack(x, m);
    FieldBack(y, n);
  }

  /** Bits that fit in the buffer have not made it overflow. */
  lemma NothingLeft(before: seq<byte>, out: seq<byte>, buf: seq<byte>, n: nat, bits: nat, nbits: nat, code: seq<bool>)
    requires n <= |buf| && Stream(out, buf, n, bits, nbits) == BytesBits(before) + code && |code| < 8 * FLUSH_SIZE
    ensures |out| < |before| + FLUSH_SIZE
  {
    hide BytesBits, BitsOf;
    assert |Stream(out, buf, n, bits, nbits)| == 8 * (|out| + n) + nbits;
  }

  /** The lengths of the first code words of a table are those that the header declares. */
  lemma DeclaredLens(lens: seq<nat>, codes: seq<nat>, h: seq<nat>)
    requires Table(lens, codes) && Fitted(lens, h) && |codes| == |lens|
    ensures h == LensOf(codes, |h|) && GoodCodes(codes)
  {
    hide Table, HLen, GoodCode;
    TableZero(lens, codes);
  }

  /** The code arrays that a good cache describes. */
  lemma CachedAlphabets(hdr: HdrCache, litLens: seq<nat>, offLens: seq<nat>, cached: Hdr, final: bool, le: seq<nat>,
          oe: seq<nat>)
    requires hdr.valid && CacheOk(hdr, litLens, offLens, cached, final) && Table(litLens, le) && Table(offLens, oe)
    requires |le| == LITERAL_CODES && |oe| == MAX_DIST_CODES
    ensures GoodCodes(le) && GoodCodes(oe) && GoodHdr(cached) && hdr.numLit == |cached.lit| &&
      hdr.numOff == |cached.off|
    ensures FIRST_LENGTH <= hdr.numLit <= LITERAL_CODES && 1 <= hdr.numOff <= MAX_DIST_CODES
    ensures cached.lit == LensOf(le, hdr.numLit) && cached.off == LensOf(oe, hdr.numOff)
    ensures Acceptable(cached.lit) && Acceptable(cached.off)
    ensures Fits(cached.lit) && Fits(cached.off) && Used(cached.lit, END_OF_BLOCK)
  {
    hide Table, HLen, GoodCode, Standard, HdrBits, Opening, BytesBits, BitsOf, Fitted, Fits, Acceptable, GoodCodes,
         LensOf;
    HdrSizes(cached);
    AlphabetSizes(litLens, cached.lit);
    AlphabetSizes(offLens, cached.off);
    DeclaredLens(litLens, le, cached.lit);
    DeclaredLens(offLens, oe, cached.off);
  }

  lemma AlphabetSizes(lens: seq<nat>, h: seq<nat>)
    requires Fitted(lens, h)
    ensures |h| <= |lens|
  {
  }

  /** Generates the codegen for the first code words of both tables and writes their header. */
  method WriteAnew(w: Writer, numLiterals: nat, numOffsets: nat, isEof: bool, ghost lit: seq<nat>, ghost off: seq<nat>)
    returns (ghost h: Hdr)
    requires w.Between() && w.sink.Emitted() == w.Done()
    requires FIRST_LENGTH <= numLiterals <= LITERAL_CODES && 1 <= numOffsets <= MAX_DIST_CODES
    requires |w.LitCodes()| == LITERAL_CODES && |w.OffCodes()| == MAX_DIST_CODES
    requires GoodCodes(w.LitCodes()) && GoodCodes(w.OffCodes())
    requires lit == LensOf(w.LitCodes(), numLiterals) && off == LensOf(w.OffCodes(), numOffsets)
    requires Acceptable(lit) && Acceptable(off) && Fits(lit) && Fits(off) && Used(lit, END_OF_BLOCK)
    modifies w.codegen, w.codegenFreq, w.codegenEncoding.Repr()
    modifies w.sink`bits, w.sink`nbits, w.sink`nbytes, w.sink`out, w.sink`writes, w.sink.bytes
    ensures w.Between() && GoodHdr(h) && Standard(h) && h.lit == lit && h.off == off
    ensures w.sink.Emitted() == old(w.sink.Emitted()) + Opening(isEof, 2) + HdrBits(h)
    ensures w.sink.writes == old(w.sink.writes) ==>
      w.sink.out == old(w.sink.out) && w.sink.nbytes % 6 == old(w.sink.nbytes) % 6
    ensures w.sink.writes != old(w.sink.writes) ==> |w.sink.out| >= |old(w.sink.out)| + FLUSH_SIZE
  {
    hide Encoder.Repr, Table, OpenOk, CacheOk, GoodGlobals, Separate, GoodBlocks, GoodOpen, Stream, Pow2, Fitted,
         Acceptable;
    hide Coded, HeaderReady, NoneAfter, LeastCodes, GoodHdr, LensOf, GoodCodes, Fits, HeaderEmit, StateBits, Opening;
    hide Standard, StandardCode, CodegenOf;
    w.EncodersApart();
    ghost var n := w.MakeCodegen(numLiterals, numOffsets, w.LitCodes(), w.OffCodes(), lit, off);
    ghost var cg := w.codegen[..n];
    var size, numCodegens := HeaderSize(w.CodegenCodes(), w.codegenFreq, cg, lit + off, numLiterals, numOffsets);
    h := Hdr(lit, off, numCodegens, w.CodegenCodes(), cg);
    HeaderGood(h, w.codegenFreq[..]);
    w.WriteHeader(numLiterals, numOffsets, numCodegens, isEof, n, h);
  }

  /** The state of two writers that were given the same bits since their buffers were empty. */
  lemma SameState(out: seq<byte>, a: seq<byte>, an: nat, x: nat, m: nat, out2: seq<byte>, b: seq<byte>, bn: nat, y: nat,
          n: nat, code: seq<bool>)
    requires an <= |a| && bn <= |b| && Grouped(a[..an], x, m) && Grouped(b[..bn], y, n)
    requires Stream(out, a, an, x, m) == BytesBits(out) + code && Stream(out2, b, bn, y, n) == BytesBits(out2) + code
    ensures a[..an] == b[..bn] && x == y && m == n
  {
    hide BytesBits, BitsOf, Pow2, Stream;
    Buffered(out, a, an, x, m, code);
    Buffered(out2, b, bn, y, n, code);
    BitsFixState(a[..an], x, m, b[..bn], y, n);
  }

  /** No object of one writer belongs to the other. */
  ghost predicate Unshared(a: Writer, b: Writer)
    reads a`literalEncoding, a`tmpLitEncoding, b`literalEncoding, b`tmpLitEncoding
  {
    a.Footprint() !! b.Footprint()
  }

  lemma UnsharedParts(a: Writer, b: Writer)
    requires Unshared(a, b) && a.Apart() && b.Apart()
    ensures a != b && a.sink != b.sink && a.sink.bytes != b.sink.bytes
    ensures {a as object, a.sink, a.sink.bytes, a.literalEncoding.codes, a.offsetEncoding.codes}
      !! {b.sink as object, b.sink.bytes, b.codegen, b.codegenFreq} + b.codegenEncoding.Repr()
    ensures {b as object, b.literalEncoding.codes, b.offsetEncoding.codes} !! {a.sink as object, a.sink.bytes}
  {
    a.EncodersApart();
    b.EncodersApart();
    hide Encoder.Repr;
  }

  /** What is in a sink's buffer, and the bits waiting. */
  function Buffer(s: Sink): seq<byte>
    requires s.nbytes <= s.bytes.Length
    reads s`nbytes, s.bytes
  {
    s.bytes[..s.nbytes]
  }

  /** What a sink holds when its buffer was empty and it was then given these bits. */
  ghost predicate Given(s: Sink, code: seq<bool>)
    reads s, s.bytes
  {
    && s.Valid() && s.Emitted() == BytesBits(s.out) + code
    && Grouped(Buffer(s), s.bits, s.nbits)
  }

  lemma GivenSame(s: Sink, t: Sink, code: seq<bool>)
    requires Given(s, code) && Given(t, code)
    ensures s.Valid() && t.Valid() && Buffer(s) == Buffer(t) && s.nbytes == t.nbytes && s.bits == t.bits &&
      s.nbits == t.nbits
  {
    hide BytesBits, BitsOf, Pow2, Stream;
    SameState(s.out, s.bytes[..], s.nbytes, s.bits, s.nbits, t.out, t.bytes[..], t.nbytes, t.bits, t.nbits, code);
    assert s.bytes[..][..s.nbytes] == Buffer(s) && t.bytes[..][..t.nbytes] == Buffer(t);
    assert |Buffer(s)| == s.nbytes && |Buffer(t)| == t.nbytes;
  }

  lemma GivenSize(s: Sink, code: seq<bool>)
    requires Given(s, code)
    ensures |code| < 8 * FLUSH_SIZE
  {
    hide BytesBits, BitsOf, Pow2;
    var n := s.nbytes;
    assert |s.Emitted()| == 8 * (|s.out| + n) + s.nbits;
    assert n == |Buffer(s)|;
    assert n % 6 == 0 && n < FLUSH_SIZE;
  }

  /** Replaying the cached header, seen from the sink. */
  method ReplayAtStart(a: Writer, isEof: bool)
    requires a.Between() && a.AtStreamStart() && a.sink.Emitted() == a.Done() && a.hdr.valid
    modifies a.sink`bits, a.sink`nbits, a.sink`nbytes, a.sink.bytes
    ensures a.Between() && GoodHdr(a.cached) && Standard(a.cached) && a.sink.out == old(a.sink.out)
    ensures Given(a.sink, Opening(isEof, 2) + HdrBits(a.cached))
  {
    hide Table, OpenOk, CacheOk, GoodGlobals, Separate, GoodBlocks, GoodOpen, Stream, Pow2, Fitted;
    hide GoodHdr, HdrBits, StateBits, Opening, Standard, BytesBits, BitsOf;
    a.CodesApart();
    NothingBuffered(a.sink.out, a.sink.bytes[..], a.sink.bits);
    ghost var s0 := a.Done();
    a.ReplayHeader(isEof);
    Assoc(s0, Opening(isEof, 2), HdrBits(a.cached));
  }

  /** Writing the header anew, seen from the sink. */
  method AnewAtStart(w: Writer, numLiterals: nat, numOffsets: nat, isEof: bool, ghost g: Hdr)
    requires w.Between() && w.AtStreamStart() && w.sink.Emitted() == w.Done() && GoodHdr(g) && Standard(g)
    requires FIRST_LENGTH <= numLiterals <= LITERAL_CODES && 1 <= numOffsets <= MAX_DIST_CODES
    requires |w.LitCodes()| == LITERAL_CODES && |w.OffCodes()| == MAX_DIST_CODES
    requires GoodCodes(w.LitCodes()) && GoodCodes(w.OffCodes())
    requires g.lit == LensOf(w.LitCodes(), numLiterals) && g.off == LensOf(w.OffCodes(), numOffsets)
    requires Acceptable(g.lit) && Acceptable(g.off) && Fits(g.lit) && Fits(g.off) && Used(g.lit, END_OF_BLOCK)
    requires |Opening(isEof, 2) + HdrBits(g)| < 8 * FLUSH_SIZE
    modifies w.codegen, w.codegenFreq, w.codegenEncoding.Repr()
    modifies w.sink`bits, w.sink`nbits, w.sink`nbytes, w.sink`out, w.sink`writes, w.sink.bytes
    ensures w.Between() && w.sink.out == old(w.sink.out)
    ensures Given(w.sink, Opening(isEof, 2) + HdrBits(g))
  {
    hide Encoder.Repr, Table, OpenOk, CacheOk, GoodGlobals, Separate, GoodBlocks, GoodOpen, Stream, Pow2, Fitted,
         Acceptable;
    hide GoodHdr, LensOf, GoodCodes, Fits, HdrBits, StateBits, Opening, Standard, BytesBits, BitsOf;
    w.CodesApart();
    ghost var out := w.sink.out;
    NothingBuffered(out, w.sink.bytes[..], w.sink.bits);
    ghost var h := WriteAnew(w, numLiterals, numOffsets, isEof, g.lit, g.off);
    StandardOnce(g, h);
    ghost var code := Opening(isEof, 2) + HdrBits(g);
    Assoc(BytesBits(out), Opening(isEof, 2), HdrBits(g));
    NothingLeft(out, w.sink.out, w.sink.bytes[..], w.sink.nbytes, w.sink.bits, w.sink.nbits, code);
  }

  /** With the same tables, at the start of a stream, one writer replays its cached header and the other
      generates the run-length codes for the same alphabets and writes their header. */
  method ReplayIsFresh(a: Writer, b: Writer, isEof: bool)
    requires a.Between() && a.AtStreamStart() && a.sink.Emitted() == a.Done()
    requires b.Between() && b.AtStreamStart() && b.sink.Emitted() == b.Done()
    requires a.hdr.valid && Unshared(a, b) && a.LitCodes() == b.LitCodes() && a.OffCodes() == b.OffCodes()
    modifies a.sink`bits, a.sink`nbits, a.sink`nbytes, a.sink.bytes
    modifies b.codegen, b.codegenFreq, b.codegenEncoding.Repr()
    modifies b.sink`bits, b.sink`nbits, b.sink`nbytes, b.sink`out, b.sink`writes, b.sink.bytes
    ensures a.Between() && b.Between() && Buffer(a.sink) == Buffer(b.sink)
    ensures a.sink.nbytes == b.sink.nbytes && a.sink.bits == b.sink.bits && a.sink.nbits == b.sink.nbits
    ensures a.sink.out == old(a.sink.out) && b.sink.out == old(b.sink.out)
  {
    hide Encoder.Repr, Writer.Footprint, Table, OpenOk, CacheOk, GoodGlobals, Separate, GoodBlocks, GoodOpen, Stream,
         Pow2;
    hide GoodHdr, LensOf, GoodCodes, Fits, HdrBits, StateBits, Opening, Standard, BytesBits, BitsOf, Unshared;
    hide Acceptable, Given;
    UnsharedParts(a, b);
    a.CodesApart();
    b.CodesApart();
    CachedAlphabets(a.hdr, a.litLens, a.offLens, a.cached, a.cachedFinal, a.LitCodes(), a.OffCodes());
    ReplayAtStart(a, isEof);
    GivenSize(a.sink, Opening(isEof, 2) + HdrBits(a.cached));
    AnewAtStart(b, a.hdr.numLit, a.hdr.numOff, isEof, a.cached);
    GivenSame(a.sink, b.sink, Opening(isEof, 2) + HdrBits(a.cached));
  }
}
