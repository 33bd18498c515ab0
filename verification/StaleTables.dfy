/** An empty distance code leaves the tables of the code before it: a match that the format does not allow
    is decoded. */
module StaleTables {
  import opened Words
  import opened Canon
  import opened LzCodes
  import opened Lz
  import opened Format
  import opened BitReader
  import opened DecoderTable
  import opened HuffmanDecoder
  import HuffmanEncoder
  import opened HeaderReader
  import opened ReadSpec
  import opened ReadAgrees
  import opened TokenReader

  /** One bit each for the end of block and for matches of length 3. */
  function Lit(): (l: seq<nat>)
    ensures |l| == 258
  {
    seq(258, s requires 0 <= s < 258 => if s >= 256 then 1 else 0)
  }

  /** Two distances, and then none. */
  const BEFORE: seq<nat> := [1, 1]
  const EMPTY: seq<nat> := [0]

  lemma LitCounts()
    ensures CountTo(Lit(), 1, 256) == 0 && CountTo(Lit(), 1, 257) == 1 && Count(Lit(), 1) == 2
    ensures Complete(Lit()) && Fits(Lit()) && Used(Lit(), END_OF_BLOCK)
  {
    hide Complete;
    BelowNone(256);
    HuffmanEncoder.TwoComplete(Lit());
    AcceptedFits(Lit());
  }

  lemma {:induction false} BelowNone(k: nat)
    requires k <= 256
    ensures CountTo(Lit(), 1, k) == 0
  {
    if k > 0 { BelowNone(k - 1); }
  }

  lemma BeforeCounts()
    ensures Complete(BEFORE) && Fits(BEFORE) && Empty(EMPTY) && !Empty(BEFORE) && !Empty(Lit())
  {
    hide Complete;
    assert CountTo(BEFORE, 1, 0) == 0 && CountTo(BEFORE, 1, 1) == 1 && CountTo(BEFORE, 1, 2) == 2;
    HuffmanEncoder.TwoComplete(BEFORE);
    AcceptedFits(BEFORE);
    assert BEFORE[0] > 0 && Lit()[256] > 0;
  }

  /** One bit for a code of two symbols. */
  lemma OneBitCode(x: nat)
    requires x <= 1
    ensures CodeBits(x, 1) == [x == 1]
  {
    assert CodeBits(x / 2, 0) == [];
  }

  lemma LitWord()
    ensures SymBits(Lit(), FIRST_LENGTH) == [true] && Used(Lit(), FIRST_LENGTH)
  {
    LitCounts();
    assert CodeOf(Lit(), FIRST_LENGTH) == 1;
    OneBitCode(1);
  }

  lemma BeforeWord()
    ensures SymBits(BEFORE, 0) == [false] && Used(BEFORE, 0)
  {
    assert CodeOf(BEFORE, 0) == 0;
    OneBitCode(0);
  }

  function Bits(): seq<bool> { [true, false, false, false, false, false, false, false] }

  lemma BitsAre()
    ensures BytesBits([1]) == Bits()
  {
    var b: byte := 1;
    assert BitsOf(0, 4) == [false, false, false, false];
    assert BitsOf(0, 7) == [false, false, false] + BitsOf(0, 4);
    assert BitsOf(1, 8) == [true] + BitsOf(0, 7);
    assert [b][1..] == [] && BytesBits([]) == [];
    assert BytesBits([b]) == BitsOf(1, 8) + BytesBits([]);
  }

  /** The codes in force: no distance, and the tables of two distances. */
  function Stale(): Codes {
    Codes(false, Lit(), EMPTY, Tables([], BEFORE), 1)
  }

  /** Read with what is left over, the first token is a match; with the code declared, it is an error. */
  lemma Items()
    ensures TokenOf(Stale(), Bits()) == Next(Copy(3, 1), Bits()[2..]) && Borrows(Stale(), Copy(3, 1))
    ensures ReadItem(Lit(), EMPTY, Bits()) == Bad
  {
    hide DecodeTo, Fits, Complete, SymBits;
    LitCounts();
    BeforeCounts();
    LitWord();
    BeforeWord();
    var rest := Bits()[1..];
    assert SymBits(Lit(), FIRST_LENGTH) <= Bits() && SymBits(BEFORE, 0) <= NineBits(rest);
    DecodeEncode(Lit(), FIRST_LENGTH, Bits());
    DecodeEncode(BEFORE, 0, NineBits(rest));
    assert Lit()[FIRST_LENGTH] == 1 && rest[0..] == rest && rest[1..] == Bits()[2..] && rest[..0] == [];
    assert rest[1..][..0] == [] && rest[1..][0..] == rest[1..];
    EmptyDecodes(EMPTY, rest, |EMPTY|);
  }

  /** A distance decoder that has accepted a code of two distances and then an empty one. */
  method StaleTable() returns (h: Decoder)
    ensures fresh(h) && fresh(h.chunks) && h.chunks.Length == NUM_CHUNKS && h.maxRead == 0
    ensures InPlace(h, EMPTY, BEFORE)
  {
    hide Complete, Decoder.Kept, Decoder.Holds, Decoder.Left;
    BeforeCounts();
    h := new Decoder();
    var ok := h.Init(BEFORE);
    assert ok && h.last == BEFORE;
    ok := h.Init(EMPTY);
    assert ok && h.last == BEFORE && h.maxRead == 0;
    h.KeptLeft();
  }

  method LitTable() returns (h: Decoder)
    ensures fresh(h) && fresh(h.chunks) && h.chunks.Length == NUM_CHUNKS && h.maxRead == 1 && h.Holds(Lit())
  {
    hide Complete, Decoder.Kept, Decoder.Holds;
    BeforeCounts();
    LitCounts();
    h := new Decoder();
    LitValid();
    var ok := h.Init(Lit());
    ShortLit(h.maxRead);
  }

  lemma LitValid()
    ensures ValidLens(Lit())
  {
  }

  lemma ShortLit(min: nat)
    requires Shortest(Lit(), min)
    ensures min == 1
  {
  }

  /** The match that follows is read with the first of the two distances, although the code in force has
      none. */
  method StaleMatch() returns (r: Token)
    ensures r == TMatch(3, 1) && ReadItem(Lit(), EMPTY, BytesBits([1])) == Bad
  {
    hide Decoder.Holds, ReadItem, Lit, DecodeTo, InPlace, Empty, TokenOf;
    BeforeCounts();
    BitsAre();
    Items();
    var h1 := LitTable();
    var h2 := StaleTable();
    var f := new Reader([1]);
    r := ReadToken(f, h1, h2, false, Stale(), 0);
  }
}
