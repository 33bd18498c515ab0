/** What the block writer has written, as a sequence of finished blocks and perhaps an open one that
    still owes its end-of-block code; and what its steps add to the bits. */
module WriterState {
  import opened Words
  import opened Canon
  import opened Lz
  import opened LzCodes
  import opened Format
  import opened Tokens
  import opened TokenBuffer
  import opened Header
  import opened BitReader
  import opened BitWriter
  import opened Blocks
  import opened Trim

  datatype Open = NoBlock | OpenBlock(final: bool, hdr: Hdr, items: seq<Item>)

  ghost predicate GoodOpen(open: Open) {
    open.OpenBlock? ==> GoodHdr(open.hdr) && CoversAll(open.hdr.lit, open.hdr.off, open.items)
  }

  ghost function OpenBits(open: Open): seq<bool>
    requires GoodOpen(open)
  {
    if open.OpenBlock? then DynamicStart(open.final, open.hdr, open.items) else []
  }

  ghost function StateBits(closed: seq<Block>, open: Open): seq<bool>
    requires GoodBlocks(closed) && GoodOpen(open)
  {
    BlocksBits(closed, 0) + OpenBits(open)
  }

  function StateItems(closed: seq<Block>, open: Open): seq<Item> {
    Contents(closed) + if open.OpenBlock? then open.items else []
  }

  function Finished(open: Open): Block
    requires open.OpenBlock?
  {
    Dynamic(open.final, open.hdr, open.items)
  }

  /** The end-of-block code finishes the open block. */
  lemma CloseBlock(closed: seq<Block>, open: Open)
    requires GoodBlocks(closed) && GoodOpen(open) && open.OpenBlock?
    ensures GoodBlocks(closed + [Finished(open)])
    ensures StateBits(closed + [Finished(open)], NoBlock)
      == StateBits(closed, open) + SymBits(open.hdr.lit, END_OF_BLOCK)
    ensures StateItems(closed + [Finished(open)], NoBlock) == StateItems(closed, open)
  {
    hide GoodHeader, Fits, DynamicStart, SymBits, CoversAll, BlocksBits;
    var b := Finished(open);
    BlocksBitsAppend(closed, 0, b);
    ContentsAppend(closed, b);
    Assoc(BlocksBits(closed, 0), OpenBits(open), SymBits(open.hdr.lit, END_OF_BLOCK));
  }

  /** A whole block after the finished ones. */
  lemma AddBlock(closed: seq<Block>, b: Block)
    requires GoodBlocks(closed) && GoodBlock(b)
    ensures GoodBlocks(closed + [b])
    ensures var s := StateBits(closed, NoBlock); StateBits(closed + [b], NoBlock) == s + BlockBits(b, |s|)
    ensures StateItems(closed + [b], NoBlock) == StateItems(closed, NoBlock) + Content(b)
  {
    hide GoodBlock, BlockBits, BlocksBits;
    BlocksBitsAppend(closed, 0, b);
    ContentsAppend(closed, b);
  }

  ghost function HdrBits(h: Hdr): seq<bool>
    requires GoodHdr(h)
  {
    HeaderEmit(|h.lit|, |h.off|, h.nc, h.codes, h.cg)
  }

  /** A header opens a block. */
  lemma OpenNew(closed: seq<Block>, final: bool, h: Hdr)
    requires GoodBlocks(closed) && GoodHdr(h)
    ensures GoodOpen(OpenBlock(final, h, []))
    ensures StateBits(closed, OpenBlock(final, h, [])) == StateBits(closed, NoBlock) + Opening(final, 2) + HdrBits(h)
    ensures StateItems(closed, OpenBlock(final, h, [])) == StateItems(closed, NoBlock)
  {
    hide GoodHdr, HeaderEmit, BlocksBits;
    Assoc(BlocksBits(closed, 0), Opening(final, 2), HdrBits(h));
    assert Opening(final, 2) + HdrBits(h) + [] == Opening(final, 2) + HdrBits(h);
  }

  lemma StartIs(final: bool, h: Hdr, xs: seq<Item>)
    requires GoodHdr(h) && CoversAll(h.lit, h.off, xs)
    ensures DynamicStart(final, h, xs) == Opening(final, 2) + HdrBits(h) + ItemsBits(h.lit, h.off, xs)
  {
  }

  /** Items go into the open block. */
  lemma AddItems(closed: seq<Block>, open: Open, xs: seq<Item>)
    requires GoodBlocks(closed) && GoodOpen(open) && open.OpenBlock? && CoversAll(open.hdr.lit, open.hdr.off, xs)
    ensures var next := open.(items := open.items + xs);
      && GoodOpen(next)
      && StateBits(closed, next) == StateBits(closed, open) + ItemsBits(open.hdr.lit, open.hdr.off, xs)
      && StateItems(closed, next) == StateItems(closed, open) + xs
  {
    hide GoodHdr, HdrBits, BlocksBits, CoversAll, DynamicStart, Contents, ItemsBits, Opening;
    var h := open.hdr;
    ItemsBitsConcat(h.lit, h.off, open.items, xs);
    var o := Opening(open.final, 2) + HdrBits(h);
    StartIs(open.final, h, open.items);
    StartIs(open.final, h, open.items + xs);
    var a, b := ItemsBits(h.lit, h.off, open.items), ItemsBits(h.lit, h.off, xs);
    Assoc(o, a, b);
    Assoc(BlocksBits(closed, 0), o + a, b);
  }

  // ---------------------------------------------------------------------------------------------
  // Token lists.
  // ---------------------------------------------------------------------------------------------

  predicate Ends(ts: seq<nat>) {
    |ts| > 0 && ts[|ts| - 1] == EOB_TOKEN
  }

  /** The tokens without the end of block. */
  function Body(ts: seq<nat>): seq<nat> {
    if Ends(ts) then ts[..|ts| - 1] else ts
  }

  /** The codes have words for every symbol that the histograms count. */
  predicate CountsCovered(lit: seq<nat>, off: seq<nat>, ts: seq<nat>) {
    && (forall s :: 0 <= s < MAX_LIT && SymbolCount(ts, s) > 0 ==> Used(lit, s))
    && (forall c :: 0 <= c < MAX_DIST_CODES && OffsetCount(ts, c) > 0 ==> Used(off, c))
  }

  lemma TokenCovered(lit: seq<nat>, off: seq<nat>, ts: seq<nat>, k: nat)
    requires CountsCovered(lit, off, ts) && k < |ts| && ValidToken(ts[k])
    ensures Covers(lit, off, ItemOf(ts[k]))
  {
    hide LengthCode, OffsetCode, SymbolCount, OffsetCount, TokLength, TokOffset;
    var t := ts[k];
    CountedSymbol(ts, k);
    if t >= 256 {
      IsMatchFields(t);
    }
  }

  lemma BodyCovered(lit: seq<nat>, off: seq<nat>, ts: seq<nat>)
    requires CountsCovered(lit, off, ts) && TokenList(ts)
    ensures AllTokens(Body(ts)) && CoversAll(lit, off, Items(Body(ts)))
  {
    hide CountsCovered, Covers, ItemOf, ValidToken;
    var b := Body(ts);
    forall k | 0 <= k < |b| ensures Covers(lit, off, Items(b)[k]) {
      ItemsAt(b, k);
      TokenCovered(lit, off, ts, k);
    }
  }

  /** What writing a token list appends under tables that agree with the codes. */
  lemma ListIsBody(lit: seq<nat>, off: seq<nat>, le: seq<nat>, oe: seq<nat>, ts: seq<nat>)
    requires Tables(le, oe) && TokenList(ts) && CountsCovered(lit, off, ts) && Used(lit, END_OF_BLOCK)
    requires Fits(lit) && Fits(off) && Agree(lit, le) && Agree(off, oe)
    ensures CoversAll(lit, off, Items(Body(ts)))
    ensures ListEmit(le, oe, ts)
      == ItemsBits(lit, off, Items(Body(ts))) + if Ends(ts) then SymBits(lit, END_OF_BLOCK) else []
  {
    hide Fits, CountsCovered, CoversAll, ItemsBits, SymBits, CanonHCode, CodeEmit, TokensEmit, GoodCodes, AllTokens;
    BodyCovered(lit, off, ts);
    TokensAreItems(le, oe, lit, off, Body(ts));
    CanonEmits(lit, END_OF_BLOCK);
    EmptyEmit(le, oe);
  }

  lemma EmptyEmit(le: seq<nat>, oe: seq<nat>)
    requires Tables(le, oe)
    ensures AllTokens([]) && TokensEmit(le, oe, []) == []
  {
  }

  // ---------------------------------------------------------------------------------------------
  // The tables at hand and the header that described them.
  // ---------------------------------------------------------------------------------------------

  /** The header's vector is the table's, less symbols without a code at its end. */
  predicate Fitted(lens: seq<nat>, h: seq<nat>) {
    |h| <= |lens| && h == lens[..|h|] && Trims(lens, |h|)
  }

  /** Code words in place for these lengths. */
  predicate Table(lens: seq<nat>, codes: seq<nat>) {
    Fits(lens) && CanonCodes(lens, codes)
  }

  lemma FittedAgree(lens: seq<nat>, h: seq<nat>, codes: seq<nat>)
    requires Table(lens, codes) && Fitted(lens, h)
    ensures Fits(h) && Agree(h, codes)
    ensures forall s :: 0 <= s < |lens| ==> (Used(h, s) <==> lens[s] > 0)
  {
    hide Fits, CanonHCode;
    TrimCanon(lens, |h|, codes);
    TrimAccepted(lens, |h|);
  }

  /** Zero code words are exactly those of symbols without a code. */
  lemma TableZero(lens: seq<nat>, codes: seq<nat>)
    requires Table(lens, codes)
    ensures forall s :: 0 <= s < |lens| ==> (codes[s] == 0 <==> lens[s] == 0)
    ensures forall s :: 0 <= s < |lens| ==> HLen(codes[s]) == lens[s] && GoodCode(codes[s])
  {
    hide Fits, CanonHCode, HLen, GoodCode;
    forall s | 0 <= s < |lens|
      ensures codes[s] == 0 <==> lens[s] == 0
      ensures HLen(codes[s]) == lens[s] && GoodCode(codes[s])
    {
      CanonEmits(lens, s);
    }
  }

  /** The end-of-block code word writes the code that the header gives it. */
  lemma EndCode(lens: seq<nat>, h: seq<nat>, codes: seq<nat>)
    requires Table(lens, codes) && Fitted(lens, h) && Used(h, END_OF_BLOCK)
    ensures |codes| > END_OF_BLOCK && GoodCode(codes[END_OF_BLOCK])
    ensures CodeEmit(codes[END_OF_BLOCK]) == SymBits(h, END_OF_BLOCK)
  {
    hide Fits, CanonHCode, HLen, GoodCode, SymBits, CodeEmit;
    FittedAgree(lens, h, codes);
    CanonEmits(h, END_OF_BLOCK);
  }
}
