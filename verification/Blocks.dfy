/** Blocks (section 3.2.3 of RFC 1951): the bits of a sequence of blocks, and what reading a stream
    of them puts out. */
module Blocks {
  import opened Words
  import opened Canon
  import opened Lz
  import opened LzCodes
  import opened Format
  import opened Codegen
  import opened Header
  import opened HuffmanDecoder
  import opened BitReader
  import opened BitWriter

  const MAX_STORED: nat := 65535

  /** A dynamic header: the two tables, and how they are written. */
  datatype Hdr = Hdr(lit: seq<nat>, off: seq<nat>, nc: nat, codes: seq<nat>, cg: seq<nat>)

  datatype Block =
    | Stored(final: bool, data: seq<byte>)
    | Fixed(final: bool, items: seq<Item>)
    | Dynamic(final: bool, hdr: Hdr, items: seq<Item>)

  ghost predicate GoodHdr(h: Hdr) {
    && GoodHeader(h.lit, h.off, h.nc, h.codes, h.cg)
    && Fits(h.lit) && Fits(h.off) && Used(h.lit, END_OF_BLOCK)
  }

  ghost predicate GoodBlock(b: Block) {
    match b
    case Stored(_, data) => |data| <= MAX_STORED
    case Fixed(_, items) => CoversAll(FixedLit(), FixedOff(), items)
    case Dynamic(_, hdr, items) => GoodHdr(hdr) && CoversAll(hdr.lit, hdr.off, items)
  }

  // ---------------------------------------------------------------------------------------------
  // Writing.
  // ---------------------------------------------------------------------------------------------

  /** The three bits that open a block: final, then the type. */
  function Opening(final: bool, kind: nat): (s: seq<bool>)
    ensures |s| == 3
  {
    [final, kind % 2 == 1, kind / 2 % 2 == 1]
  }

  /** A dynamic block up to and without its end-of-block code. */
  ghost function DynamicStart(final: bool, hdr: Hdr, items: seq<Item>): seq<bool>
    requires GoodHdr(hdr) && CoversAll(hdr.lit, hdr.off, items)
  {
    Opening(final, 2) + HeaderEmit(|hdr.lit|, |hdr.off|, hdr.nc, hdr.codes, hdr.cg)
    + ItemsBits(hdr.lit, hdr.off, items)
  }

  ghost function StoredBits(final: bool, data: seq<byte>, pos: nat): seq<bool>
    requires |data| <= MAX_STORED
  {
    Opening(final, 0) + Zeros(Padding(pos + 3)) + BitsOf(|data|, 16) + BitsOf(MAX_STORED - |data|, 16)
    + BytesBits(data)
  }

  ghost function FixedBits(final: bool, items: seq<Item>): seq<bool>
    requires CoversAll(FixedLit(), FixedOff(), items)
  {
    Opening(final, 1) + ItemsBits(FixedLit(), FixedOff(), items) + SymBits(FixedLit(), END_OF_BLOCK)
  }

  /** The bits of a block that starts at bit position pos. */
  ghost function BlockBits(b: Block, pos: nat): seq<bool>
    requires GoodBlock(b)
  {
    match b
    case Stored(final, data) => StoredBits(final, data, pos)
    case Fixed(final, items) => FixedBits(final, items)
    case Dynamic(final, hdr, items) => DynamicStart(final, hdr, items) + SymBits(hdr.lit, END_OF_BLOCK)
  }

  ghost predicate GoodBlocks(bs: seq<Block>) {
    forall k :: 0 <= k < |bs| ==> GoodBlock(bs[k])
  }

  ghost function BlocksBits(bs: seq<Block>, pos: nat): seq<bool>
    requires GoodBlocks(bs)
    decreases |bs|
  {
    if bs == [] then []
    else var s := BlockBits(bs[0], pos); s + BlocksBits(bs[1..], pos + |s|)
  }

  lemma {:induction false} BlocksBitsAppend(bs: seq<Block>, pos: nat, b: Block)
    requires GoodBlocks(bs) && GoodBlock(b)
    ensures GoodBlocks(bs + [b])
    ensures var s := BlocksBits(bs, pos); BlocksBits(bs + [b], pos) == s + BlockBits(b, pos + |s|)
    decreases |bs|
  {
    hide GoodBlock, BlockBits;
    if bs == [] {
      assert bs + [b] == [b] && [b][1..] == [];
    } else {
      var s := BlockBits(bs[0], pos);
      assert (bs + [b])[1..] == bs[1..] + [b];
      BlocksBitsAppend(bs[1..], pos + |s|, b);
      var t := BlocksBits(bs[1..], pos + |s|);
      assert s + (t + BlockBits(b, pos + |s| + |t|)) == s + t + BlockBits(b, pos + |s + t|);
    }
  }

  // ---------------------------------------------------------------------------------------------
  // What blocks stand for.
  // ---------------------------------------------------------------------------------------------

  function Content(b: Block): seq<Item> {
    match b
    case Stored(_, data) => Lits(data)
    case Fixed(_, items) => items
    case Dynamic(_, _, items) => items
  }

  function Contents(bs: seq<Block>): seq<Item> {
    if bs == [] then [] else Content(bs[0]) + Contents(bs[1..])
  }

  lemma {:induction false} ContentsAppend(bs: seq<Block>, b: Block)
    ensures Contents(bs + [b]) == Contents(bs) + Content(b)
  {
    hide Content;
    if bs == [] {
      assert bs + [b] == [b] && [b][1..] == [];
    } else {
      ContentsAppend(bs[1..], b);
      assert (bs + [b])[1..] == bs[1..] + [b];
    }
  }

  // ---------------------------------------------------------------------------------------------
  // Reading.
  // ---------------------------------------------------------------------------------------------

  function BytesOf(bits: seq<bool>): (s: seq<byte>)
    ensures |s| == |bits| / 8
  {
    if |bits| < 8 then []
    else
      EightBits(bits[..8]);
      [ValueOf(bits[..8])] + BytesOf(bits[8..])
  }

  lemma EightBits(b: seq<bool>)
    requires |b| == 8
    ensures ValueOf(b) < 256
  {
    Pow2Values();
  }

  lemma {:induction false} BytesOfBits(s: seq<byte>)
    ensures BytesOf(BytesBits(s)) == s
  {
    hide BitsOf, ValueOf;
    if s != [] {
      var b := BytesBits(s);
      assert b[..8] == BitsOf(s[0], 8) && b[8..] == BytesBits(s[1..]);
      Pow2Values();
      FieldBack(s[0], 8);
      BytesOfBits(s[1..]);
    }
  }

  lemma {:induction false} BitsOfBytes(bits: seq<bool>)
    requires |bits| % 8 == 0
    ensures BytesBits(BytesOf(bits)) == bits
  {
    hide BitsOf, ValueOf;
    if bits != [] {
      BitsOfValueOf(bits[..8]);
      EightBits(bits[..8]);
      BitsOfBytes(bits[8..]);
      assert bits == bits[..8] + bits[8..];
      var s := BytesOf(bits);
      assert s[0] == ValueOf(bits[..8]) && s[1..] == BytesOf(bits[8..]);
    }
  }

  /** A block: whether it is the last, what it stands for, and what follows it. */
  datatype Reading = Reading(final: bool, items: seq<Item>, rest: seq<bool>) | Malformed

  function ReadStored(final: bool, bits: seq<bool>): Reading {
    var p := |bits| % 8;
    if |bits| < p + 32 then Malformed
    else
      var n, m, rest := ValueOf(bits[p..p + 16]), ValueOf(bits[p + 16..p + 32]), bits[p + 32..];
      if m != MAX_STORED - n || |rest| < 8 * n then Malformed
      else Reading(final, Lits(BytesOf(rest[..8 * n])), rest[8 * n..])
  }

  function ReadBody(final: bool, lit: seq<nat>, off: seq<nat>, bits: seq<bool>): Reading {
    match ReadItems(lit, off, bits)
    case None => Malformed
    case Some(p) => Reading(final, p.0, p.1)
  }

  function ReadBlock(bits: seq<bool>): (r: Reading) {
    if |bits| < 3 then Malformed
    else
      var final, rest := bits[0], bits[3..];
      match (bits[1], bits[2])
      case (false, false) => ReadStored(final, rest)
      case (true, false) => ReadBody(final, FixedLit(), FixedOff(), rest)
      case (false, true) =>
        (match ReadHeader(rest)
         case None => Malformed
         case Some(h) => ReadBody(final, h.0, h.1, h.2))
      case (true, true) => Malformed
  }

  lemma ReadBlockShorter(bits: seq<bool>)
    ensures ReadBlock(bits).Reading? ==> |ReadBlock(bits).rest| < |bits|
  {
    hide ReadItems, ReadHeader, BytesOf, Lits;
    if |bits| >= 3 {
      var rest := bits[3..];
      var h := ReadHeader(rest);
      if h.Some? { ReadHeaderShorter(rest); }
    }
  }

  lemma ReadHeaderShorter(bits: seq<bool>)
    ensures ReadHeader(bits).Some? ==> |ReadHeader(bits).value.2| <= |bits|
  {
    hide ReadLengths, Acceptable, SetLens;
    if |bits| >= 14 {
      var nlit, ndist, nclen := ValueOf(bits[..5]) + 257, ValueOf(bits[5..10]) + 1, ValueOf(bits[10..14]) + 4;
      FieldValues(bits);
      if |bits| >= 14 + 3 * nclen {
        ReadLengthsShorter(SetLens(bits[14..], nclen), bits[14 + 3 * nclen..], nlit + ndist, []);
      }
    }
  }

  lemma {:induction false} ReadLengthsShorter(cl: seq<nat>, bits: seq<bool>, n: nat, acc: seq<nat>)
    requires |cl| == 19
    ensures var r := ReadLengths(cl, bits, n, acc); r.Some? ==> |r.value.1| <= |bits|
    decreases n - |acc|
  {
    hide DecodeTo, RunLengths;
    if |acc| < n {
      var r := DecodeSym(cl, bits);
      if r.Some? && !(r.value == 16 && acc == []) {
        var s := r.value;
        var v := Field(bits[cl[s]..], ExtraBits(s));
        if v.Some? {
          var run := RunLengths(s, acc, v.value);
          if |run| > 0 { ReadLengthsShorter(cl, bits[cl[s]..][ExtraBits(s)..], n, acc + run); }
        }
      }
    }
  }

  /** All that a stream puts out after the history h, and what follows the last block. */
  function ReadStream(bits: seq<bool>, h: seq<byte>): (r: Option<(seq<byte>, seq<bool>)>)
    decreases |bits|
  {
    ReadBlockShorter(bits);
    match ReadBlock(bits)
    case Malformed => None
    case Reading(final, items, rest) =>
      if !AllValid(h, items) then None
      else if final then Some((Expand(h, items), rest))
      else ReadStream(rest, Expand(h, items))
  }

  // ---------------------------------------------------------------------------------------------
  // Reading inverts writing.
  // ---------------------------------------------------------------------------------------------

  lemma StoredRoundTrip(final: bool, data: seq<byte>, pos: nat, tail: seq<bool>)
    requires |data| <= MAX_STORED && (pos + |StoredBits(final, data, pos)| + |tail|) % 8 == 0
    ensures ReadBlock(StoredBits(final, data, pos) + tail) == Reading(final, Lits(data), tail)
  {
    hide BitsOf, BytesBits, BytesOf, ValueOf, Lits, Padding;
    var n, p := |data|, Padding(pos + 3);
    var a, b, c, z := BitsOf(n, 16), BitsOf(MAX_STORED - n, 16), BytesBits(data), Zeros(p);
    var bits := StoredBits(final, data, pos) + tail;
    PaddingBack(pos, |tail|, n);
    var o := Opening(final, 0);
    Assoc(o, z, a);
    Assoc(o, z + a, b);
    Assoc(o, z + a + b, c);
    Assoc(o, z + a + b + c, tail);
    Cut(o, z + a + b + c + tail);
    StoredBack(final, z, data, tail);
    StoredKind(bits);
  }

  lemma StoredKind(bits: seq<bool>)
    requires |bits| >= 3 && !bits[1] && !bits[2]
    ensures ReadBlock(bits) == ReadStored(bits[0], bits[3..])
  {
    hide ReadStored, ReadHeader, ReadItems, FixedLit, FixedOff;
  }

  lemma StoredBack(final: bool, z: seq<bool>, data: seq<byte>, tail: seq<bool>)
    requires |data| <= MAX_STORED && (|z| + 32 + 8 * |data| + |tail|) % 8 == |z|
    ensures ReadStored(final, z + BitsOf(|data|, 16) + BitsOf(MAX_STORED - |data|, 16) + BytesBits(data) + tail)
      == Reading(final, Lits(data), tail)
  {
    hide *;
    var n, p := |data|, |z|;
    var a, b, c := BitsOf(n, 16), BitsOf(MAX_STORED - n, 16), BytesBits(data);
    var rest := z + a + b + c + tail;
    Assoc(z + a + b, c, tail);
    Assoc(z + a, b, c + tail);
    Assoc(z, a, b + (c + tail));
    Cut(z, a + (b + (c + tail)));
    Cut(a, b + (c + tail));
    Cut(b, c + tail);
    Slices(rest, p, 16);
    Slices(rest, p + 16, 16);
    assert |rest| % 8 == p;
    StoredLengths(n);
    StoredParts(final, rest, data, tail);
  }

  lemma StoredParts(final: bool, rest: seq<bool>, data: seq<byte>, tail: seq<bool>)
    requires var p := |rest| % 8;
      && |rest| >= p + 32 && ValueOf(rest[p..p + 16]) == |data| && ValueOf(rest[p + 16..p + 32]) == MAX_STORED - |data|
      && rest[p + 32..] == BytesBits(data) + tail
    ensures ReadStored(final, rest) == Reading(final, Lits(data), tail)
  {
    hide BitsOf, BytesBits, BytesOf, ValueOf, Lits;
    Cut(BytesBits(data), tail);
    BytesOfBits(data);
  }

  lemma StoredLengths(n: nat)
    requires n <= MAX_STORED
    ensures ValueOf(BitsOf(n, 16)) == n && ValueOf(BitsOf(MAX_STORED - n, 16)) == MAX_STORED - n
  {
    Pow2Values();
    FieldBack(n, 16);
    FieldBack(MAX_STORED - n, 16);
  }

  lemma PaddingBack(pos: nat, t: nat, n: nat)
    requires (pos + 3 + Padding(pos + 3) + 32 + 8 * n + t) % 8 == 0
    ensures (Padding(pos + 3) + 32 + 8 * n + t) % 8 == Padding(pos + 3)
  {
    var q := Padding(pos + 3);
    var x := q + 32 + 8 * n + t;
    assert (pos + 3 + q) % 8 == 0 by { RoundUpIs(pos + 3); }
    var k, j := (pos + 3 + q) / 8, (pos + 3 + x) / 8;
    assert x == (j - k) * 8 + q;
    DivUnique(x, j - k, q, 8);
  }

  lemma FixedRoundTrip(final: bool, items: seq<Item>, tail: seq<bool>)
    requires CoversAll(FixedLit(), FixedOff(), items)
    ensures ReadBlock(FixedBits(final, items) + tail) == Reading(final, items, tail)
  {
    hide ItemsBits, SymBits, ReadItems, FixedLit, FixedOff, Complete, CoversAll, ReadHeader, ReadStored;
    FixedLitComplete();
    FixedOffComplete();
    CompleteFits(FixedLit());
    CompleteFits(FixedOff());
    var bits := FixedBits(final, items) + tail;
    assert bits[3..] == ItemsBits(FixedLit(), FixedOff(), items) + SymBits(FixedLit(), END_OF_BLOCK) + tail;
    ItemsRoundTrip(FixedLit(), FixedOff(), items, tail);
  }

  lemma CompleteFits(lens: seq<nat>)
    requires Complete(lens)
    ensures Fits(lens)
  {
  }

  lemma DynamicRoundTrip(final: bool, h: Hdr, items: seq<Item>, tail: seq<bool>)
    requires GoodHdr(h) && CoversAll(h.lit, h.off, items)
    ensures ReadBlock(DynamicStart(final, h, items) + SymBits(h.lit, END_OF_BLOCK) + tail) ==
      Reading(final, items, tail)
  {
    hide ItemsBits, SymBits, ReadItems, Fits, CoversAll, HeaderEmit, ReadHeader, Acceptable, CanonCodes, UsedAll,
         GoodCodegen, ExpandCodegen, LensOf;
    var e, b, z := HeaderEmit(|h.lit|, |h.off|, h.nc, h.codes, h.cg), ItemsBits(h.lit, h.off, items),
      SymBits(h.lit, END_OF_BLOCK);
    var bits := DynamicStart(final, h, items) + z + tail;
    assert bits[3..] == e + (b + z + tail);
    HeaderRoundTrip(h.lit, h.off, h.nc, h.codes, h.cg, b + z + tail);
    ItemsRoundTrip(h.lit, h.off, items, tail);
  }

  lemma BlockRoundTrip(b: Block, pos: nat, tail: seq<bool>)
    requires GoodBlock(b) && (pos + |BlockBits(b, pos)| + |tail|) % 8 == 0
    ensures ReadBlock(BlockBits(b, pos) + tail) == Reading(b.final, Content(b), tail)
  {
    hide StoredBits, FixedBits, DynamicStart, ReadBlock, Lits, CoversAll;
    match b
    case Stored(final, data) => StoredRoundTrip(final, data, pos, tail);
    case Fixed(final, items) => FixedRoundTrip(final, items, tail);
    case Dynamic(final, hdr, items) => DynamicRoundTrip(final, hdr, items, tail);
  }

  /** Only the last block says that it is the last. */
  predicate LastIsFinal(bs: seq<Block>) {
    bs != [] && forall k :: 0 <= k < |bs| ==> (bs[k].final <==> k == |bs| - 1)
  }

  /** Reading a written stream of whole bytes puts out what its blocks stand for. */
  lemma {:induction false} StreamRoundTrip(bs: seq<Block>, pos: nat, h: seq<byte>, tail: seq<bool>)
    requires GoodBlocks(bs) && LastIsFinal(bs) && AllValid(h, Contents(bs))
    requires (pos + |BlocksBits(bs, pos)| + |tail|) % 8 == 0
    ensures ReadStream(BlocksBits(bs, pos) + tail, h) == Some((Expand(h, Contents(bs)), tail))
    decreases |bs|
  {
    hide GoodBlock, BlockBits, AllValid, Expand, ReadBlock, Content;
    var b, t := bs[0], bs[1..];
    var s := BlockBits(b, pos);
    var after := BlocksBits(t, pos + |s|) + tail;
    assert BlocksBits(bs, pos) + tail == s + after;
    BlockRoundTrip(b, pos, after);
    ExpandConcat(h, Content(b), Contents(t)) by { ValidPrefix(h, Content(b), Contents(t)); }
    ValidPrefix(h, Content(b), Contents(t));
    if t == [] {
      assert after == tail && Content(b) + Contents(t) == Content(b);
    } else {
      assert LastIsFinal(t) by {
        forall k | 0 <= k < |t| ensures t[k].final <==> k == |t| - 1 { assert t[k] == bs[k + 1]; }
      }
      StreamRoundTrip(t, pos + |s|, Expand(h, Content(b)), tail);
    }
  }

  lemma {:induction false} ValidPrefix(h: seq<byte>, xs: seq<Item>, ys: seq<Item>)
    requires AllValid(h, xs + ys)
    ensures AllValid(h, xs)
    decreases xs
  {
    hide Valid, Apply;
    if xs != [] {
      assert (xs + ys)[1..] == xs[1..] + ys;
      ValidPrefix(Apply(h, xs[0]), xs[1..], ys);
    }
  }
}
