/** Streams compressed with a block size of 1 to 12 bytes: what is decoded, exactly when that is the input,
    and an input for which it is not. */
module SmallStream {
  import opened Words
  import opened Canon
  import opened Lz
  import opened Tokens
  import opened TokenBuffer
  import opened HuffmanEncoder
  import opened FastGen
  import opened Level1
  import opened Level6
  import opened BitReader
  import opened BitWriter
  import opened Blocks
  import opened WriterState
  import opened BlockWriter
  import opened WriterRun
  import opened RoundTrip
  import opened SmallBlocks
  import opened EndToEnd
  import FastCompress

  // ---------------------------------------------------------------------------------------------
  // What is decoded.
  // ---------------------------------------------------------------------------------------------

  /** How many of n bytes fill whole blocks. */
  function Whole(size: nat, n: nat): (m: nat)
    requires size > 0
    ensures m <= n < m + size
  {
    n / size * size
  }

  /** Bytes with those of whole blocks replaced by zeros. */
  function Blanked(size: nat, s: seq<byte>): (r: seq<byte>)
    requires size > 0
    ensures |r| == |s|
  {
    ZeroBytes(Whole(size, |s|)) + s[Whole(size, |s|)..]
  }

  /** What was fed since the last flush. */
  function LastPart(ops: seq<Op>): seq<byte> {
    if ops == [] || ops[|ops| - 1].Flush? then [] else LastPart(ops[..|ops| - 1]) + ops[|ops| - 1].data
  }

  /** What comes out for everything up to the last flush. */
  function Settled(size: nat, ops: seq<Op>): seq<byte>
    requires size > 0
  {
    if ops == [] then []
    else
      var before := ops[..|ops| - 1];
      Settled(size, before) + if ops[|ops| - 1].Flush? then Blanked(size, LastPart(before)) else []
  }

  /** What comes out: each stretch between flushes, with its whole blocks blanked. */
  function Decoded(size: nat, ops: seq<Op>): seq<byte>
    requires size > 0
  {
    Settled(size, ops) + Blanked(size, LastPart(ops))
  }

  /** The whole blocks are zeros already. */
  predicate ZeroBlocks(size: nat, s: seq<byte>)
    requires size > 0
  {
    forall k :: 0 <= k < Whole(size, |s|) ==> s[k] == 0
  }

  predicate SettledZero(size: nat, ops: seq<Op>)
    requires size > 0
  {
    ops == [] || (SettledZero(size, ops[..|ops| - 1])
                  && (ops[|ops| - 1].Flush? ==> ZeroBlocks(size, LastPart(ops[..|ops| - 1]))))
  }

  lemma BlankedSame(size: nat, s: seq<byte>)
    requires size > 0
    ensures Blanked(size, s) == s <==> ZeroBlocks(size, s)
  {
    var m := Whole(size, |s|);
    if ZeroBlocks(size, s) {
      assert Blanked(size, s) == s[..m] + s[m..];
    } else {
      var k :| 0 <= k < m && s[k] != 0;
      assert Blanked(size, s)[k] == 0;
    }
  }

  lemma SameParts(a: seq<byte>, b: seq<byte>, x: seq<byte>, y: seq<byte>)
    requires |a| == |b|
    ensures a + x == b + y <==> a == b && x == y
  {
    if a + x == b + y {
      assert a == (a + x)[..|a|] && b == (b + y)[..|b|];
      assert x == (a + x)[|a|..] && y == (b + y)[|b|..];
    }
  }

  /** Everything fed is what was fed up to the last flush and after it. */
  function Before(ops: seq<Op>): seq<byte> {
    if ops == [] then []
    else Before(ops[..|ops| - 1]) + if ops[|ops| - 1].Flush? then LastPart(ops[..|ops| - 1]) else []
  }

  lemma {:induction false} FedParts(ops: seq<Op>)
    ensures Fed(ops) == Before(ops) + LastPart(ops)
  {
    if ops != [] {
      var init, last := ops[..|ops| - 1], ops[|ops| - 1];
      FedParts(init);
      if last.Feed? {
        Assoc(Before(init), LastPart(init), last.data);
        assert Before(init) + [] == Before(init);
      }
    }
  }

  lemma {:induction false} SettledSame(size: nat, ops: seq<Op>)
    requires size > 0
    ensures |Settled(size, ops)| == |Before(ops)|
    ensures Settled(size, ops) == Before(ops) <==> SettledZero(size, ops)
  {
    if ops != [] {
      var init, last := ops[..|ops| - 1], ops[|ops| - 1];
      SettledSame(size, init);
      if last.Flush? {
        BlankedSame(size, LastPart(init));
        SameParts(Settled(size, init), Before(init), Blanked(size, LastPart(init)), LastPart(init));
      } else {
        assert Settled(size, ops) == Settled(size, init) && Before(ops) == Before(init);
      }
    }
  }

  /** What comes out is what went in exactly if every byte of a whole block is zero. */
  lemma RightExactly(size: nat, ops: seq<Op>)
    requires size > 0
    ensures Decoded(size, ops) == Fed(ops) <==> SettledZero(size, ops) && ZeroBlocks(size, LastPart(ops))
  {
    FedParts(ops);
    SettledSame(size, ops);
    BlankedSame(size, LastPart(ops));
    SameParts(Settled(size, ops), Before(ops), Blanked(size, LastPart(ops)), LastPart(ops));
  }

  /** One byte, not zero, with blocks of one byte. */
  lemma OneByteLost()
    ensures Fed([Feed([1])]) == [1] && Decoded(1, [Feed([1])]) == [0]
  {
    var ops := [Feed([1])];
    assert ops[..0] == [];
    assert LastPart(ops) == [] + [1] == [1] && Settled(1, ops) == [];
    assert Whole(1, 1) == 1 && Blanked(1, [1]) == [0];
  }

  // ---------------------------------------------------------------------------------------------
  // The compressor and the block writer together.
  // ---------------------------------------------------------------------------------------------

  /** The compressor's parts that calls may change. */
  ghost function Parts(c: FastCompress.Compressor): set<object> {
    {c as object, c.l1, c.l1.gen, c.l1.table, c.l6, c.l6.gen, c.l6.table, c.l6.bTable, c.tokens} + c.tokens.Repr()
  }

  /** Between calls the token buffer is empty, and behind its end it holds zeros, which are literals of 0. */
  ghost predicate Waiting(c: FastCompress.Compressor)
    reads c`window, c.tokens, c.tokens.Repr(), c.l1, c.l1.gen, c.l1.table, c.l6, c.l6.gen, c.l6.table, c.l6.bTable
  {
    && c.Base() && c.blockSize < MIN_BLOCK && c.tokens.Valid() && c.tokens.n == 0 && c.tokens.Slice() == []
    && (forall k :: 0 <= k < c.blockSize ==> c.tokens.tokens[k] == 0) && |c.window| <= c.blockSize
  }

  /** Between calls no block is open and no header is cached, since none is ever written. */
  ghost predicate Unopened(w: Writer)
    reads w, w.sink, w.sink.bytes, w.literalEncoding.codes, w.offsetEncoding.codes
  {
    w.Ready() && w.open == NoBlock && !w.hdr.valid && NoneFinal(w.closed)
  }

  lemma {:induction false} LitsConcat(a: seq<byte>, b: seq<byte>)
    ensures Lits(a + b) == Lits(a) + Lits(b)
  {
    if a == [] {
      assert a + b == b;
    } else {
      LitsConcat(a[1..], b);
      assert (a + b)[1..] == a[1..] + b;
    }
  }

  /** Tokens that were never written stand for zero bytes. */
  lemma ZeroTokens(ts: seq<nat>)
    requires forall k :: 0 <= k < |ts| ==> ts[k] == 0
    ensures AllTokens(ts) && Items(ts) == Lits(ZeroBytes(|ts|))
  {
    assert ts == Plain(ZeroBytes(|ts|));
    PlainItems(ZeroBytes(|ts|));
  }

  /** Runs the match finder, which sets the token count and writes no token. */
  method EncodeShort(c: FastCompress.Compressor)
    requires Waiting(c) && c.window != []
    modifies c.l1, c.l1.gen, c.l1.table, c.l6, c.l6.gen, c.l6.table, c.l6.bTable, c.tokens`n, c.tokens.Repr()
    ensures c.Base() && Uncounted(c.tokens) && c.tokens.n == |c.window| == |old(c.window)|
    ensures Items(c.tokens.Slice()) == Lits(ZeroBytes(|c.window|))
    ensures forall k :: 0 <= k < c.blockSize ==> c.tokens.tokens[k] == 0
  {
    hide FastCompress.Compressor.Base, Buffer.Valid, Buffer.Tallied;
    c.BaseSized();
    ghost var all := c.tokens.tokens[..];
    ghost var kept := c.Encode(c.window);
    c.BaseSized();
    assert forall k :: 0 <= k < c.blockSize ==> c.tokens.tokens[..][k] == all[k];
    ZeroTokens(c.tokens.Slice());
  }

  /** Empties the buffers again. */
  method Empty(c: FastCompress.Compressor)
    requires c.Base() && c.blockSize < MIN_BLOCK && c.tokens.Sized() && (c.tokens.n == 0 ==> c.tokens.Valid())
    requires forall k :: 0 <= k < c.blockSize ==> c.tokens.tokens[k] == 0
    modifies c`window, c.tokens`n, c.tokens.litHist, c.tokens.extraHist, c.tokens.offHist
    ensures Waiting(c) && c.window == []
  {
    hide FastCompress.Compressor.Base, Buffer.Valid, Buffer.Slice, Buffer.Tallied;
    c.BaseSized();
    c.tokens.Reset();
    c.window := [];
  }

  /** What is read of the writer belongs to it. */
  lemma ReadsOwn(w: Writer)
    requires w.Ready()
    ensures {w as object, w.sink, w.sink.bytes, w.literalEncoding.codes, w.offsetEncoding.codes} <= w.Footprint()
  {
    hide Encoder.Repr;
    w.BaseParts();
    w.EncodersApart();
  }

  lemma ForeignTo(w: Writer, t: Buffer)
    requires {t as object} + t.Repr() !! w.Footprint()
    ensures w.Foreign(t)
  {
    hide Encoder.Repr;
  }

  /** The block writer's part, seen from outside. */
  method WriteZeros(w: Writer, t: Buffer, input: seq<byte>, sync: bool)
    requires Unopened(w) && Uncounted(t) && |input| == t.n < MIN_BLOCK && {t as object} + t.Repr() !! w.Footprint()
    modifies w.Footprint(), t`n, t.tokens, t.extraHist
    ensures Unopened(w) && w.Footprint() == old(w.Footprint()) && w.Items() == old(w.Items()) + Items(old(t.Slice()))
    ensures 0 < t.n && forall k :: 0 <= k < old(t.n) ==> t.tokens[k] == old(t.tokens[k])
  {
    hide Buffer.Tallied, Writer.Inv, NoneFinal, OneBlock, StateItems, Writer.Apart, AllTokens, Encoder.Repr,
         Writer.Foreign;
    ForeignTo(w, t);
    ghost var all := t.tokens[..];
    WriteUncounted(w, t, false, input, sync);
    assert forall k :: 0 <= k < |all| ==> t.tokens[k] == t.tokens[..][k];
    OneNotFinal(old(w.closed), w.closed);
  }

  /** A full window: encoded, written, and what comes out is zeros. */
  method StoreFull(c: FastCompress.Compressor, w: Writer)
    requires Waiting(c) && Unopened(w) && Parts(c) !! w.Footprint() && |c.window| == c.blockSize
    modifies Parts(c), w.Footprint()
    ensures Waiting(c) && Unopened(w) && c.window == [] && w.Footprint() == old(w.Footprint()) && c.sync == old(c.sync)
    ensures w.Items() == old(w.Items()) + Lits(ZeroBytes(|old(c.window)|))
  {
    hide FastCompress.Compressor.Base, Buffer.Valid, Buffer.Tallied, Writer.Ready, NoneFinal, StateItems, Lits,
         ZeroBytes;
    hide Writer.Footprint, AllTokens;
    c.BaseSized();
    ReadsOwn(w);
    EncodeShort(c);
    WriteZeros(w, c.tokens, c.window, c.sync);
    ReadsOwn(w);
    Empty(c);
  }

  /** Part of a window, at a flush: stored as it is. */
  method StoreRest(c: FastCompress.Compressor, w: Writer)
    requires Waiting(c) && Unopened(w) && Parts(c) !! w.Footprint()
    modifies Parts(c), w.Footprint()
    ensures Waiting(c) && Unopened(w) && c.window == [] && w.Footprint() == old(w.Footprint()) && c.sync == old(c.sync)
    ensures w.Items() == old(w.Items()) + Lits(old(c.window))
  {
    hide FastCompress.Compressor.Base, Buffer.Valid, Buffer.Tallied, Writer.Ready, NoneFinal, StateItems, Lits,
         OneBlock;
    hide Writer.Footprint, Buffer.Slice;
    if |c.window| == 0 {
      NoLits(w.Items());
      return;
    }
    c.BaseSized();
    ReadsOwn(w);
    StorePart(w, c.window);
    ReadsOwn(w);
    Empty(c);
    c.ResetEncoder();
  }

  lemma NoLits(xs: seq<Item>)
    ensures xs + Lits([]) == xs
  {
  }

  method StorePart(w: Writer, input: seq<byte>)
    requires Unopened(w) && |input| <= MAX_STORED
    modifies w.Footprint()
    ensures Unopened(w) && w.Footprint() == old(w.Footprint()) && w.Items() == old(w.Items()) + Lits(input)
  {
    hide Writer.Base, NoneFinal, StateItems, Lits, OneBlock, StateBits, GoodBlocks, GoodOpen, Stream, HeaderOk;
    assert w.closed + [] == w.closed;
    w.StoreWhole(input, false);
    assert w.closed + [] == w.closed;
    OneNotFinal(old(w.AllClosed()), w.AllClosed());
  }

  /** The blocks written stand for base and for zeros in place of the part's whole blocks; the rest of the
      part is in the window. */
  ghost predicate Holding(c: FastCompress.Compressor, w: Writer, base: seq<byte>, part: seq<byte>)
    reads c, c.tokens, c.tokens.Repr(), c.l1, c.l1.gen, c.l1.table, c.l6, c.l6.gen, c.l6.table, c.l6.bTable
    reads w, w.sink, w.sink.bytes, w.literalEncoding.codes, w.offsetEncoding.codes
  {
    && Waiting(c) && Unopened(w) && Parts(c) !! w.Footprint() && |c.window| <= |part|
    && var m := |part| - |c.window|;
      c.blockSize > 0 && m % c.blockSize == 0 && c.window == part[m..] && w.Items() == Lits(base + ZeroBytes(m))
  }

  lemma WholeIs(size: nat, total: nat, n: nat)
    requires n <= size && 0 < size && n <= total && (total - n) % size == 0
    ensures Whole(size, total) == if n < size then total - n else total
    ensures n == size ==> total % size == 0
  {
    var k := (total - n) / size;
    assert total - n == k * size;
    if n < size { DivUnique(total, k, n, size); } else { DivUnique(total, k + 1, 0, size); }
  }

  lemma FullPart(size: nat, base: seq<byte>, part: seq<byte>, n: nat)
    requires n == size > 0 && n <= |part| && (|part| - n) % size == 0
    ensures Lits(base + ZeroBytes(|part| - n)) + Lits(ZeroBytes(n)) == Lits(base + ZeroBytes(|part|))
    ensures Blanked(size, part) == ZeroBytes(|part|) && |part| % size == 0
  {
    hide Lits, Whole;
    LitsConcat(base + ZeroBytes(|part| - n), ZeroBytes(n));
    assert base + ZeroBytes(|part| - n) + ZeroBytes(n) == base + ZeroBytes(|part|);
    WholeIs(size, |part|, n);
    assert part[|part|..] == [];
  }

  lemma RestPart(size: nat, base: seq<byte>, part: seq<byte>, n: nat)
    requires n < size && n <= |part| && (|part| - n) % size == 0
    ensures Lits(base + ZeroBytes(|part| - n)) + Lits(part[|part| - n..]) == Lits(base + Blanked(size, part))
  {
    hide Lits, ZeroBytes, Whole;
    var z, r := ZeroBytes(|part| - n), part[|part| - n..];
    LitsConcat(base + z, r);
    WholeIs(size, |part|, n);
    assert base + z + r == base + (z + r);
  }

  /** Writes the window out if it is full or a flush is wanted. */
  method StoreFast(c: FastCompress.Compressor, w: Writer, ghost base: seq<byte>, ghost part: seq<byte>)
    requires Holding(c, w, base, part)
    modifies Parts(c), w.Footprint()
    ensures w.Footprint() == old(w.Footprint()) && c.sync == old(c.sync)
    ensures |old(c.window)| == c.blockSize ==> Holding(c, w, base, part) && c.window == []
    ensures c.sync ==>
      Waiting(c) && Unopened(w) && c.window == [] && w.Items() == Lits(base + Blanked(c.blockSize, part))
  {
    hide Waiting, Unopened, Writer.Footprint, Writer.Items, Lits, ZeroBytes, Blanked;
    WaitingSizes(c);
    if |c.window| < c.blockSize {
      if !c.sync {
        return;
      }
      RestPart(c.blockSize, base, part, |c.window|);
      StoreRest(c, w);
      return;
    }
    FullPart(c.blockSize, base, part, |c.window|);
    StoreFull(c, w);
  }

  lemma WaitingSizes(c: FastCompress.Compressor)
    requires Waiting(c)
    ensures |c.window| <= c.blockSize && 1 <= c.blockSize < MIN_BLOCK
  {
    hide Buffer.Valid;
  }

  lemma HoldingMore(size: nat, part: seq<byte>, window: seq<byte>, b: seq<byte>)
    requires |window| <= |part| && window == part[|part| - |window|..]
    ensures |part + b| - |window + b| == |part| - |window| && window + b == (part + b)[|part| - |window|..]
  {
  }

  /** Takes all the bytes given. */
  method Write(c: FastCompress.Compressor, w: Writer, b0: seq<byte>, ghost base: seq<byte>, ghost part: seq<byte>)
    requires Holding(c, w, base, part) && !c.sync
    modifies Parts(c), w.Footprint()
    ensures Holding(c, w, base, part + b0) && !c.sync && w.Footprint() == old(w.Footprint())
  {
    hide Writer.Footprint, Holding;
    var b := b0;
    ghost var p := part;
    while |b| > 0
      invariant Holding(c, w, base, p) && !c.sync && w.Footprint() == old(w.Footprint()) && p + b == part + b0
      decreases |b|
    {
      HoldingSizes(c, w, base, p);
      if |c.window| == c.blockSize {
        StoreFast(c, w, base, p);
      }
      var n := if |b| <= c.blockSize - |c.window| then |b| else c.blockSize - |c.window|;
      assert p + b[..n] + b[n..] == p + b;
      Take(c, w, b[..n], base, p);
      p := p + b[..n];
      b := b[n..];
    }
    assert p + [] == p;
  }

  method Take(c: FastCompress.Compressor, w: Writer, b: seq<byte>, ghost base: seq<byte>, ghost part: seq<byte>)
    requires Holding(c, w, base, part) && |c.window| + |b| <= c.blockSize
    modifies c`window
    ensures Holding(c, w, base, part + b)
  {
    hide FastCompress.Compressor.Base, Buffer.Valid, Unopened, Writer.Footprint, Writer.Items, Lits, ZeroBytes;
    HoldingMore(c.blockSize, part, c.window, b);
    ReadsMore(c, w);
    c.window := c.window + b;
  }

  lemma ReadsMore(c: FastCompress.Compressor, w: Writer)
    requires Unopened(w) && Parts(c) !! w.Footprint()
    ensures c as object !in {w as object, w.sink, w.sink.bytes, w.literalEncoding.codes, w.offsetEncoding.codes}
  {
    ReadsOwn(w);
  }

  lemma HoldingSizes(c: FastCompress.Compressor, w: Writer, base: seq<byte>, part: seq<byte>)
    requires Holding(c, w, base, part)
    ensures |c.window| <= c.blockSize && 1 <= c.blockSize < MIN_BLOCK
  {
    hide Buffer.Valid, Unopened, Writer.Footprint;
  }

  lemma HoldingNone(c: FastCompress.Compressor, w: Writer, base: seq<byte>)
    requires Waiting(c) && Unopened(w) && Parts(c) !! w.Footprint() && c.window == [] && w.Items() == Lits(base)
    ensures Holding(c, w, base, [])
  {
    hide Waiting, Unopened, Writer.Footprint, Writer.Items, Lits, ZeroBytes;
    WaitingSizes(c);
    assert base + ZeroBytes(0) == base;
  }

  /** Everything taken goes out, and the empty stored block. */
  method SyncFlush(c: FastCompress.Compressor, w: Writer, ghost base: seq<byte>, ghost part: seq<byte>)
    requires Holding(c, w, base, part) && !c.sync
    modifies Parts(c), w.Footprint()
    ensures Holding(c, w, base + Blanked(c.blockSize, part), []) && !c.sync && w.Footprint() == old(w.Footprint())
  {
    hide Writer.Footprint, Waiting, Unopened, Writer.Items, Lits, Blanked;
    c.sync := true;
    StoreFast(c, w, base, part);
    ReadsMore(c, w);
    SyncMark(w);
    c.sync := false;
    ReadsMore(c, w);
    HoldingNone(c, w, base + Blanked(c.blockSize, part));
  }

  method SyncMark(w: Writer)
    requires Unopened(w)
    modifies w.Footprint()
    ensures Unopened(w) && w.Footprint() == old(w.Footprint()) && w.Items() == old(w.Items())
  {
    hide Writer.Base, NoneFinal, StateItems, OneBlock, StateBits, GoodBlocks, GoodOpen, Stream, HeaderOk;
    assert w.closed + [] == w.closed;
    w.SyncFlush();
    OneMoreBlock(old(w.AllClosed()), Stored(false, []));
    OneNotFinal(old(w.AllClosed()), w.closed);
  }

  /** Everything taken goes out, and the end of the stream. */
  method Close(c: FastCompress.Compressor, w: Writer, ghost base: seq<byte>, ghost part: seq<byte>)
    returns (bytes: seq<byte>, ghost padding: seq<bool>)
    requires Holding(c, w, base, part)
    modifies Parts(c), w.Footprint()
    ensures ReadStream(BytesBits(bytes), []) == Some((base + Blanked(c.blockSize, part), padding))
    ensures Idle(w) && !w.hdr.valid && w.Footprint() == old(w.Footprint())
  {
    hide Waiting, Writer.Items, Lits, Blanked, ReadStream, BytesBits, Writer.Ready, NoneFinal, Writer.Footprint;
    c.sync := true;
    StoreFast(c, w, base, part);
    ghost var h := base + Blanked(c.blockSize, part);
    HoldsLits(w, h);
    bytes, padding := End(w, h);
  }

  method End(w: Writer, ghost h: seq<byte>) returns (bytes: seq<byte>, ghost padding: seq<bool>)
    requires Holds(w, [], h) && !w.hdr.valid
    modifies w.Footprint()
    ensures ReadStream(BytesBits(bytes), []) == Some((h, padding))
    ensures Idle(w) && !w.hdr.valid && w.Footprint() == old(w.Footprint())
  {
    hide Writer.Inv, ReadStream, BytesBits;
    bytes, padding := w.Close([]);
  }

  lemma HoldsLits(w: Writer, h: seq<byte>)
    requires Unopened(w) && w.Items() == Lits(h)
    ensures Holds(w, [], h)
  {
    hide Writer.Ready, NoneFinal, Writer.Items;
    ExpandLits([], h);
    assert [] + h == h && w.closed + [] == w.closed;
  }

  /** Levels 1 and 6 with a block size of 1 to 12: every whole block between flushes comes out as zeros. */
  method SmallStream(w: Writer, best: bool, blockSize: nat, ops: seq<Op>, sizes: seq<nat>, partialFlush: bool)
    returns (out: seq<byte>)
    requires Idle(w) && !w.hdr.valid && 1 <= blockSize < MIN_BLOCK
    requires sizes != [] && forall k :: 0 <= k < |sizes| ==> sizes[k] > 0
    modifies w.Footprint()
    ensures out == Decoded(blockSize, ops) && Idle(w) && !w.hdr.valid && w.Footprint() == old(w.Footprint())
  {
    hide Idle, Writer.Footprint, Decoded, Holding, ReadStream, BytesBits;
    var c := Start(w, best, blockSize);
    ghost var base, part: seq<byte> := [], [];
    assert ops[..0] == [];
    for i := 0 to |ops|
      invariant fresh(Parts(c)) && c.blockSize == blockSize && Holding(c, w, base, part) && !c.sync
      invariant w.Footprint() == old(w.Footprint()) && base == Settled(blockSize, ops[..i]) &&
        part == LastPart(ops[..i])
    {
      assert ops[..i + 1][..i] == ops[..i];
      match ops[i] {
        case Feed(data) =>
          Write(c, w, data, base, part);
          part := part + data;
          assert base + [] == base;
        case Flush =>
          SyncFlush(c, w, base, part);
          base, part := base + Blanked(blockSize, part), [];
      }
    }
    assert ops[..|ops|] == ops;
    var bytes;
    ghost var padding;
    bytes, padding := Close(c, w, base, part);
    out := Decode(bytes, [], sizes, partialFlush);
    assert [] + out == out;
    DecodedIs(blockSize, ops);
  }

  method Start(w: Writer, best: bool, blockSize: nat) returns (c: FastCompress.Compressor)
    requires Idle(w) && !w.hdr.valid && 1 <= blockSize < MIN_BLOCK
    ensures fresh(Parts(c)) && c.blockSize == blockSize && !c.sync && Holding(c, w, [], [])
  {
    hide Idle, Holding, FastCompress.Compressor.Base, Buffer.Valid, Writer.Footprint;
    ghost var f := w.Footprint();
    c := new FastCompress.Compressor(blockSize, best);
    Apart(c, f);
    StartHolding(c, w);
  }

  twostate lemma Apart(new c: FastCompress.Compressor, f: set<object>)
    requires fresh(Parts(c))
    ensures Parts(c) !! f
  {
    hide Parts;
  }

  lemma DecodedIs(size: nat, ops: seq<Op>)
    requires size > 0
    ensures Decoded(size, ops) == Settled(size, ops) + Blanked(size, LastPart(ops))
  {
  }

  lemma StartHolding(c: FastCompress.Compressor, w: Writer)
    requires Idle(w) && !w.hdr.valid && c.Base() && c.blockSize < MIN_BLOCK && c.tokens.Valid() && c.tokens.n == 0
    requires c.tokens.Slice() == [] && c.window == [] &&
      (forall k :: 0 <= k < c.tokens.tokens.Length ==> c.tokens.tokens[k] == 0)
    requires Parts(c) !! w.Footprint()
    ensures Holding(c, w, [], [])
  {
    hide Buffer.Valid, Writer.Ready, Writer.Footprint;
    c.BaseSized();
    assert [] + ZeroBytes(0) == [];
  }
}
