/** The compressed format of RFC 1951 as functions on bits: what a block writes and what reading it
    gives back. */
module Format {
  import opened Words
  import opened Canon
  import opened Lz
  import opened LzCodes

  const END_OF_BLOCK: nat := 256
  const FIRST_LENGTH: nat := 257
  const MAX_LIT: nat := 286
  const MAX_DIST_CODES: nat := 30

  // ---------------------------------------------------------------------------------------------
  // Items (section 3.2.5).
  // ---------------------------------------------------------------------------------------------

  /** The codes have words for everything the item needs. */
  predicate Covers(lit: seq<nat>, off: seq<nat>, x: Item) {
    match x
    case Lit(b) => Used(lit, b)
    case Copy(len, dist) =>
      && MIN_MATCH <= len <= MAX_MATCH && 1 <= dist <= MAX_DIST
      && Used(lit, FIRST_LENGTH + LengthCode(len - MIN_MATCH)) && Used(off, OffsetCode(dist - 1))
  }

  predicate CoversAll(lit: seq<nat>, off: seq<nat>, xs: seq<Item>) {
    forall k :: 0 <= k < |xs| ==> Covers(lit, off, xs[k])
  }

  function LengthBits(lit: seq<nat>, len: nat): seq<bool>
    requires MIN_MATCH <= len <= MAX_MATCH && Used(lit, FIRST_LENGTH + LengthCode(len - MIN_MATCH))
  {
    var c := LengthCode(len - MIN_MATCH);
    SymBits(lit, FIRST_LENGTH + c) + BitsOf(len - MIN_MATCH - LengthBase(c), LengthExtra(c))
  }

  function DistBits(off: seq<nat>, dist: nat): seq<bool>
    requires 1 <= dist <= MAX_DIST && Used(off, OffsetCode(dist - 1))
  {
    var c := OffsetCode(dist - 1);
    OffsetRange(dist - 1);
    SymBits(off, c) + BitsOf(dist - 1 - OffsetBase(c), OffsetExtra(c))
  }

  function ItemBits(lit: seq<nat>, off: seq<nat>, x: Item): seq<bool>
    requires Covers(lit, off, x)
  {
    match x
    case Lit(b) => SymBits(lit, b)
    case Copy(len, dist) => LengthBits(lit, len) + DistBits(off, dist)
  }

  function ItemsBits(lit: seq<nat>, off: seq<nat>, xs: seq<Item>): seq<bool>
    requires CoversAll(lit, off, xs)
  {
    if xs == [] then [] else ItemBits(lit, off, xs[0]) + ItemsBits(lit, off, xs[1..])
  }

  lemma {:induction false} ItemsBitsConcat(lit: seq<nat>, off: seq<nat>, xs: seq<Item>, ys: seq<Item>)
    requires CoversAll(lit, off, xs) && CoversAll(lit, off, ys)
    ensures CoversAll(lit, off, xs + ys)
    ensures ItemsBits(lit, off, xs + ys) == ItemsBits(lit, off, xs) + ItemsBits(lit, off, ys)
  {
    hide Covers, ItemBits;
    if xs == [] {
      assert xs + ys == ys;
    } else {
      assert CoversAll(lit, off, xs + ys);
      ItemsBitsConcat(lit, off, xs[1..], ys);
      assert (xs + ys)[1..] == xs[1..] + ys;
    }
  }

  /** What a reader finds: an item, the end of the block, or bits that are no item. */
  datatype ReadResult = Got(item: Item, rest: seq<bool>) | Stop(rest: seq<bool>) | Bad

  /** n bits as a number, and what follows. */
  function Field(bits: seq<bool>, n: nat): (r: Option<nat>)
    ensures r.Some? <==> |bits| >= n
    ensures r.Some? ==> r.value < Pow2(n)
  {
    if |bits| < n then None else Some(ValueOf(bits[..n]))
  }

  function ReadDist(off: seq<nat>, len: nat, bits: seq<bool>): ReadResult {
    match DecodeSym(off, bits)
    case None => Bad
    case Some(c) =>
      if c >= MAX_DIST_CODES then Bad
      else
        var rest := bits[off[c]..];
        match Field(rest, OffsetExtra(c))
        case None => Bad
        case Some(v) => Got(Copy(len, OffsetBase(c) + v + 1), rest[OffsetExtra(c)..])
  }

  function ReadItem(lit: seq<nat>, off: seq<nat>, bits: seq<bool>): ReadResult {
    match DecodeSym(lit, bits)
    case None => Bad
    case Some(s) =>
      var rest := bits[lit[s]..];
      if s < END_OF_BLOCK then Got(Lit(s), rest)
      else if s == END_OF_BLOCK then Stop(rest)
      else if s >= MAX_LIT then Bad
      else
        var c := s - FIRST_LENGTH;
        match Field(rest, LengthExtra(c))
        case None => Bad
        case Some(v) => ReadDist(off, LengthBase(c) + v + MIN_MATCH, rest[LengthExtra(c)..])
  }

  lemma ReadItemShorter(lit: seq<nat>, off: seq<nat>, bits: seq<bool>)
    ensures var r := ReadItem(lit, off, bits);
      (r.Got? || r.Stop?) ==> |r.rest| < |bits|
  {
  }

  /** All items up to the end of the block, and what follows it. */
  function ReadItems(lit: seq<nat>, off: seq<nat>, bits: seq<bool>): (r: Option<(seq<Item>, seq<bool>)>)
    ensures r.Some? ==> |r.value.1| < |bits|
    decreases |bits|
  {
    ReadItemShorter(lit, off, bits);
    match ReadItem(lit, off, bits)
    case Bad => None
    case Stop(rest) => Some(([], rest))
    case Got(x, rest) =>
      match ReadItems(lit, off, rest)
      case None => None
      case Some(p) => Some(([x] + p.0, p.1))
  }

  /** A symbol at the front reads back. */
  lemma SymFront(lens: seq<nat>, s: nat, rest: seq<bool>)
    requires Fits(lens) && Used(lens, s)
    ensures DecodeSym(lens, SymBits(lens, s) + rest) == Some(s)
    ensures (SymBits(lens, s) + rest)[lens[s]..] == rest
  {
    DecodeEncode(lens, s, SymBits(lens, s) + rest);
  }

  lemma FieldFront(v: nat, n: nat, rest: seq<bool>)
    requires v < Pow2(n)
    ensures Field(BitsOf(v, n) + rest, n) == Some(v)
    ensures (BitsOf(v, n) + rest)[n..] == rest
  {
    assert (BitsOf(v, n) + rest)[..n] == BitsOf(v, n);
    ValueOfBitsOf(v, n);
    LowSmall(v, n);
  }

  lemma DistRoundTrip(off: seq<nat>, len: nat, dist: nat, rest: seq<bool>)
    requires Fits(off) && 1 <= dist <= MAX_DIST && Used(off, OffsetCode(dist - 1))
    ensures ReadDist(off, len, DistBits(off, dist) + rest) == Got(Copy(len, dist), rest)
  {
    hide SymBits, DecodeSym, BitsOf, Fits, OffsetBase, OffsetExtra, Field, Pow2;
    var c := OffsetCode(dist - 1);
    OffsetRange(dist - 1);
    var e := BitsOf(dist - 1 - OffsetBase(c), OffsetExtra(c));
    assert DistBits(off, dist) + rest == SymBits(off, c) + (e + rest);
    SymFront(off, c, e + rest);
    FieldFront(dist - 1 - OffsetBase(c), OffsetExtra(c), rest);
  }

  /** Reading inverts writing for one item. */
  lemma ItemRoundTrip(lit: seq<nat>, off: seq<nat>, x: Item, rest: seq<bool>)
    requires Fits(lit) && Covers(lit, off, x) && (x.Copy? ==> Fits(off))
    ensures ReadItem(lit, off, ItemBits(lit, off, x) + rest) == Got(x, rest)
  {
    hide SymBits, DecodeSym, BitsOf, Fits, LengthBase, LengthExtra, LengthCode, Field, Pow2, DistBits, ReadDist;
    match x
    case Lit(b) => SymFront(lit, b, rest);
    case Copy(len, dist) =>
      var c := LengthCode(len - MIN_MATCH);
      var d := DistBits(off, dist);
      var e := BitsOf(len - MIN_MATCH - LengthBase(c), LengthExtra(c));
      assert ItemBits(lit, off, x) + rest == SymBits(lit, FIRST_LENGTH + c) + (e + (d + rest));
      SymFront(lit, FIRST_LENGTH + c, e + (d + rest));
      FieldFront(len - MIN_MATCH - LengthBase(c), LengthExtra(c), d + rest);
      DistRoundTrip(off, len, dist, rest);
  }

  /** Reading inverts writing for a block body. */
  lemma {:induction false} ItemsRoundTrip(lit: seq<nat>, off: seq<nat>, xs: seq<Item>, rest: seq<bool>)
    requires Fits(lit) && CoversAll(lit, off, xs) && Used(lit, END_OF_BLOCK)
    requires Fits(off)
    ensures ReadItems(lit, off, ItemsBits(lit, off, xs) + SymBits(lit, END_OF_BLOCK) + rest) == Some((xs, rest))
  {
    hide SymBits, DecodeSym, ItemBits, Fits;
    var eob := SymBits(lit, END_OF_BLOCK);
    if xs == [] {
      assert [] + eob + rest == eob + rest;
      SymFront(lit, END_OF_BLOCK, rest);
    } else {
      var tail := ItemsBits(lit, off, xs[1..]) + eob + rest;
      assert ItemsBits(lit, off, xs) + eob + rest == ItemBits(lit, off, xs[0]) + tail;
      ItemRoundTrip(lit, off, xs[0], tail);
      ItemsRoundTrip(lit, off, xs[1..], rest);
      assert [xs[0]] + xs[1..] == xs;
    }
  }

  // ---------------------------------------------------------------------------------------------
  // The fixed codes (section 3.2.6).
  // ---------------------------------------------------------------------------------------------

  function FixedLength(s: nat): nat {
    if s < 144 then 8 else if s < 256 then 9 else if s < 280 then 7 else 8
  }

  function FixedLit(): (l: seq<nat>)
    ensures |l| == 288 && forall s :: 0 <= s < 288 ==> l[s] == FixedLength(s)
  {
    seq(288, s requires 0 <= s < 288 => FixedLength(s))
  }

  function FixedOff(): (l: seq<nat>)
    ensures |l| == 32 && forall s :: 0 <= s < 32 ==> l[s] == 5
  {
    seq(32, s => 5)
  }

  /** How many of the first k fixed literal codes have length l. */
  function FixedCount(l: nat, k: nat): nat {
    if l == 7 then (if k <= 256 then 0 else if k <= 280 then k - 256 else 24)
    else if l == 8 then (if k <= 144 then k else if k <= 280 then 144 else k - 136)
    else if l == 9 then (if k <= 144 then 0 else if k <= 256 then k - 144 else 112)
    else 0
  }

  lemma {:induction false} FixedCounts(l: nat, k: nat)
    requires k <= 288 && l >= 1
    ensures CountTo(FixedLit(), l, k) == FixedCount(l, k)
  {
    if k > 0 { FixedCounts(l, k - 1); }
  }

  lemma {:induction false} FixedFirst(l: nat)
    requires 1 <= l <= 9
    ensures FirstCode(FixedLit(), l) == if l <= 7 then 0 else if l == 8 then 48 else 400
  {
    if l > 1 {
      FixedFirst(l - 1);
      FixedCounts(l - 1, 288);
    }
  }

  /** The code of a literal or length symbol under the fixed code. */
  lemma FixedLitCode(s: nat)
    requires s < 288
    ensures CodeOf(FixedLit(), s) ==
      if s < 144 then s + 48 else if s < 256 then s + 400 - 144 else if s < 280 then s - 256 else s + 192 - 280
  {
    FixedFirst(FixedLength(s));
    FixedCounts(FixedLength(s), s);
  }

  lemma ShareValues()
    ensures Share(5) == 1024 && Share(7) == 256 && Share(8) == 128 && Share(9) == 64
    ensures Pow2(MAX_BITS) == 32768
  {
    hide Pow2;
    Pow2Small();
    Pow2Large();
    Pow2Add(8, 7);
  }

  lemma {:induction false} FixedKraft(l: nat)
    requires 1 <= l <= 16
    ensures KraftBelow(FixedLit(), l) ==
      if l <= 7 then 0 else if l == 8 then 24 * 256 else if l == 9 then 24 * 256 + 152 * 128 else 32768
  {
    hide Pow2, Share, CountTo;
    if l > 1 {
      FixedKraft(l - 1);
      FixedCounts(l - 1, 288);
      ShareValues();
    }
  }

  lemma FixedLitComplete()
    ensures Complete(FixedLit())
  {
    FixedKraft(16);
    ShareValues();
  }

  lemma {:induction false} FixedOffCounts(l: nat, k: nat)
    requires k <= 32 && l >= 1
    ensures CountTo(FixedOff(), l, k) == if l == 5 then k else 0
  {
    if k > 0 { FixedOffCounts(l, k - 1); }
  }

  lemma {:induction false} FixedOffFirst(l: nat)
    requires 1 <= l <= 5
    ensures FirstCode(FixedOff(), l) == 0
  {
    if l > 1 {
      FixedOffFirst(l - 1);
      FixedOffCounts(l - 1, 32);
    }
  }

  lemma FixedOffCode(s: nat)
    requires s < 32
    ensures CodeOf(FixedOff(), s) == s
  {
    FixedOffFirst(5);
    FixedOffCounts(5, s);
  }

  lemma {:induction false} FixedOffKraft(l: nat)
    requires 1 <= l <= 16
    ensures KraftBelow(FixedOff(), l) == if l <= 5 then 0 else 32768
  {
    hide Pow2, Share, CountTo;
    if l > 1 {
      FixedOffKraft(l - 1);
      FixedOffCounts(l - 1, 32);
      ShareValues();
    }
  }

  lemma FixedOffComplete()
    ensures Complete(FixedOff())
  {
    FixedOffKraft(16);
    ShareValues();
  }
}
