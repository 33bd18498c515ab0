/** One stream given bit by bit, written and read: a dynamic block that stands for "abcabc", and an empty
    stored block. The fields are those of the byte string 0c c2 01 0d 00 00 00 82 b0 ac 4a ff 0e b0 7d 27 06
    00 00 ff ff, each byte's least significant bit first. */
module KnownStream {
  import opened Words
  import opened Canon
  import opened HuffmanDecoder
  import opened Lz
  import opened LzCodes
  import opened Format
  import opened Codegen
  import opened Header
  import opened BitReader
  import opened Blocks
  import opened BitWriter
  import opened InflateSpec
  import opened ReadSpec
  import opened RoundTrip

  /** Bits as digits. */
  function B(s: string): (r: seq<bool>)
    ensures |r| == |s|
  {
    seq(|s|, i requires 0 <= i < |s| => s[i] == '1')
  }

  // ---------------------------------------------------------------------------------------------
  // The bits.
  // ---------------------------------------------------------------------------------------------

  /** Three bits for each code of the code length code, in the order 16, 17, 18, 0, 8, 7, 9, 6, 10 */
  function LensBitsFront(): seq<bool> {
    [] + B("000") + B("000") + B("010") + B("110") + B("000") + B("000") + B("000") + B("000") + B("000")
  }

  /** and then 5, 11, 4, 12, 3, 13, 2, 14, 1. */
  function LensBits(): seq<bool> {
    LensBitsFront()
    + B("000") + B("000") + B("000") + B("000") + B("010") + B("000") + B("010") + B("000") + B("110")
  }

  /** The run-length codes, each with its count: 97 zeros, 3, 3, 2, 138 zeros, 18 zeros, 2, 2; 0, 0, 1. */
  function CodegenBits(): seq<bool> {
    B("10") + B("0110101") + (B("01") + [] + (B("01") + [] + (B("00") + [] + (B("10") + B("1111111")
    + (B("10") + B("1110000") + LastBits())))))
  }

  function LastBits(): seq<bool> {
    B("00") + [] + (B("00") + [] + (B("110") + [] + (B("110") + [] + (B("111") + [] + []))))
  }

  /** 258 literal and length codes, 3 distance codes, 18 code length codes. */
  function HeaderBits(): seq<bool> {
    B("10000") + B("01000") + B("0111") + LensBits() + CodegenBits()
  }

  /** The literals a, b and c, a match of length 3 at distance 3, and the end of the block. */
  function BodyBits(): seq<bool> {
    B("110") + (B("111") + (B("00") + (B("10") + B("0") + []))) + B("01")
  }

  function StoredBlock(): seq<bool> {
    B("100") + B("000") + (B("00000000") + B("00000000")) + (B("11111111") + B("11111111")) + []
  }

  function StreamBits(): seq<bool> {
    B("001") + HeaderBits() + BodyBits() + (StoredBlock() + [])
  }

  // ---------------------------------------------------------------------------------------------
  // The blocks.
  // ---------------------------------------------------------------------------------------------

  function LitLength(s: nat): nat {
    if s == 97 || s == 98 then 3 else if s == 99 || s == 256 || s == 257 then 2 else 0
  }

  function LitLens(): (l: seq<nat>)
    ensures |l| == 258 && forall s :: 0 <= s < 258 ==> l[s] == LitLength(s)
  {
    seq(258, s requires 0 <= s < 258 => LitLength(s))
  }

  const OFF_LENS: seq<nat> := [0, 0, 1]

  function ClLength(s: nat): nat {
    if s <= 1 then 3 else if s <= 3 || s == 18 then 2 else 0
  }

  /** Code lengths 3 for 0 and 1, and 2 for 2, 3 and 18. */
  function ClLens(): (l: seq<nat>)
    ensures |l| == CODEGEN_CODES && forall s :: 0 <= s < CODEGEN_CODES ==> l[s] == ClLength(s)
  {
    seq(CODEGEN_CODES, s requires 0 <= s < CODEGEN_CODES => ClLength(s))
  }

  const RUNS: seq<nat> := [18, 86, 3, 3, 2, 18, 127, 18, 7, 2, 2, 0, 0, 1]

  function ClCodes(): (c: seq<nat>)
    ensures |c| == CODEGEN_CODES && forall s :: 0 <= s < CODEGEN_CODES ==> c[s] == CanonHCode(ClLens(), s)
  {
    seq(CODEGEN_CODES, s requires 0 <= s < CODEGEN_CODES => CanonHCode(ClLens(), s))
  }

  function KnownHdr(): Hdr {
    Hdr(LitLens(), OFF_LENS, 18, ClCodes(), RUNS)
  }

  const ITEMS: seq<Item> := [Lit(97), Lit(98), Lit(99), Copy(3, 3)]

  function KnownBlocks(): seq<Block> {
    [Dynamic(false, KnownHdr(), ITEMS), Stored(true, [])]
  }

  // ---------------------------------------------------------------------------------------------
  // The codes.
  // ---------------------------------------------------------------------------------------------

  lemma {:induction false} LitCounts(l: nat, k: nat)
    requires l >= 1 && k <= 258
    ensures CountTo(LitLens(), l, k) ==
      if l == 3 then (if k <= 97 then 0 else if k == 98 then 1 else 2)
      else if l == 2 then (if k <= 99 then 0 else if k <= 256 then 1 else if k == 257 then 2 else 3)
      else 0
  {
    if k > 0 { LitCounts(l, k - 1); }
  }

  lemma {:induction false} ClCounts(l: nat, k: nat)
    requires l >= 1 && k <= CODEGEN_CODES
    ensures CountTo(ClLens(), l, k) ==
      if l == 3 then (if k <= 2 then k else 2)
      else if l == 2 then (if k <= 2 then 0 else if k == 3 then 1 else if k <= 18 then 2 else 3)
      else 0
  {
    if k > 0 { ClCounts(l, k - 1); }
  }

  /** Three codes of two bits and two of three fill the code space. */
  lemma {:induction false} FiveKraft(lens: seq<nat>, l: nat)
    requires 1 <= l <= 16 && Five(lens)
    ensures KraftBelow(lens, l) == if l <= 2 then 0 else if l == 3 then 24576 else 32768
  {
    hide Pow2, CountTo;
    if l > 1 {
      FiveKraft(lens, l - 1);
      Pow2Large();
      Pow2Add(8, 5);
      Pow2Add(8, 4);
      assert Count(lens, l - 1) * Share(l - 1) == if l == 3 then 3 * Share(2) else if l == 4 then 2 * Share(3) else 0;
    }
  }

  lemma FiveFirst(lens: seq<nat>)
    requires Five(lens)
    ensures FirstCode(lens, 2) == 0 && FirstCode(lens, 3) == 6
  {
    hide Count;
    assert FirstCode(lens, 1) == 0;
    assert FirstCode(lens, 2) == 2 * (FirstCode(lens, 1) + Count(lens, 1));
  }

  /** Three codes of two bits and two of three, at each length. */
  predicate Five(lens: seq<nat>) {
    forall m :: 1 <= m <= 15 ==> Count(lens, m) == if m == 2 then 3 else if m == 3 then 2 else 0
  }

  lemma FiveComplete(lens: seq<nat>)
    requires ValidLens(lens) && Five(lens)
    ensures Complete(lens) && FirstCode(lens, 2) == 0 && FirstCode(lens, 3) == 6
  {
    hide KraftBelow, FirstCode, Count, Pow2, Five, ValidLens;
    ShareValues();
    FiveKraft(lens, 16);
    FiveFirst(lens);
  }

  lemma LitComplete()
    ensures Complete(LitLens()) && FirstCode(LitLens(), 2) == 0 && FirstCode(LitLens(), 3) == 6
  {
    hide CountTo, Complete, FirstCode;
    forall m | 1 <= m <= 15 ensures Count(LitLens(), m) == if m == 2 then 3 else if m == 3 then 2 else 0 {
      LitCounts(m, 258);
    }
    FiveComplete(LitLens());
  }

  lemma ClComplete()
    ensures Complete(ClLens()) && FirstCode(ClLens(), 2) == 0 && FirstCode(ClLens(), 3) == 6
  {
    hide CountTo, Complete, FirstCode;
    forall m | 1 <= m <= 15 ensures Count(ClLens(), m) == if m == 2 then 3 else if m == 3 then 2 else 0 {
      ClCounts(m, 19);
    }
    FiveComplete(ClLens());
  }

  /** The code words in force, most significant bit first. */
  lemma LitWords()
    ensures forall s :: s in {97, 98, 99, 256, 257} ==> Used(LitLens(), s)
    ensures SymBits(LitLens(), 97) == B("110") && SymBits(LitLens(), 98) == B("111")
    ensures SymBits(LitLens(), 99) == B("00") && SymBits(LitLens(), 256) == B("01")
    ensures SymBits(LitLens(), 257) == B("10")
  {
    hide CountTo, FirstCode, Complete;
    LitComplete();
    LitCounts(3, 97);
    LitCounts(3, 98);
    LitCounts(2, 99);
    LitCounts(2, 256);
    LitCounts(2, 257);
    assert CodeBits(6, 3) == B("110") && CodeBits(7, 3) == B("111");
    assert CodeBits(0, 2) == B("00") && CodeBits(1, 2) == B("01") && CodeBits(2, 2) == B("10");
  }

  lemma ClWords()
    ensures CodeEmit(ClCodes()[0]) == B("110") && CodeEmit(ClCodes()[1]) == B("111")
    ensures CodeEmit(ClCodes()[2]) == B("00") && CodeEmit(ClCodes()[3]) == B("01") && CodeEmit(ClCodes()[18]) == B("10")
    ensures LensOf(ClCodes(), CODEGEN_CODES) == ClLens()
  {
    hide CountTo, FirstCode, Complete, CodeEmit, CanonHCode;
    ClComplete();
    CompleteFits(ClLens());
    forall s | 0 <= s < CODEGEN_CODES
      ensures HLen(ClCodes()[s]) == ClLens()[s]
      ensures ClLens()[s] > 0 ==> CodeEmit(ClCodes()[s]) == SymBits(ClLens(), s)
    {
      CanonEmits(ClLens(), s);
    }
    ClCounts(3, 0);
    ClCounts(3, 1);
    ClCounts(2, 2);
    ClCounts(2, 3);
    ClCounts(2, 18);
    assert CodeBits(6, 3) == B("110") && CodeBits(7, 3) == B("111");
    assert CodeBits(0, 2) == B("00") && CodeBits(1, 2) == B("01") && CodeBits(2, 2) == B("10");
  }

  lemma OffWords()
    ensures Single(OFF_LENS) && Fits(OFF_LENS) && Used(OFF_LENS, 2) && SymBits(OFF_LENS, 2) == B("0")
  {
    var l := OFF_LENS;
    assert CountTo(l, 1, 0) == CountTo(l, 1, 1) == CountTo(l, 1, 2) == 0 && CountTo(l, 1, 3) == 1;
    assert FirstCode(l, 1) == 0 && CodeBits(0, 1) == B("0");
    AcceptedFits(l);
  }

  // ---------------------------------------------------------------------------------------------
  // The header.
  // ---------------------------------------------------------------------------------------------

  lemma LensStep(k: nat, b: seq<bool>)
    requires 1 <= k <= CODEGEN_CODES && b == ThreeBits(ClLength(CodeOrder()[k - 1]))
    ensures LensEmit(ClLens(), k) == LensEmit(ClLens(), k - 1) + b
  {
    hide BitsOf, CodeOrder;
    ThreeBitsAre();
  }

  function ThreeBits(v: nat): seq<bool> {
    if v == 0 then B("000") else if v == 2 then B("010") else B("110")
  }

  lemma ThreeBitsAre()
    ensures BitsOf(0, 3) == ThreeBits(0) && BitsOf(2, 3) == ThreeBits(2) && BitsOf(3, 3) == ThreeBits(3)
  {
  }

  lemma LensFront()
    ensures LensEmit(ClLens(), 9) == LensBitsFront()
  {
    hide LensEmit, B;
    LensNone();
    LensStep(1, B("000"));
    LensStep(2, B("000"));
    LensStep(3, B("010"));
    LensStep(4, B("110"));
    LensStep(5, B("000"));
    LensStep(6, B("000"));
    LensStep(7, B("000"));
    LensStep(8, B("000"));
    LensStep(9, B("000"));
  }

  lemma LensWritten()
    ensures LensEmit(ClLens(), 18) == LensBits()
  {
    hide LensEmit, B, LensBitsFront;
    LensFront();
    LensStep(10, B("000"));
    LensStep(11, B("000"));
    LensStep(12, B("000"));
    LensStep(13, B("000"));
    LensStep(14, B("010"));
    LensStep(15, B("000"));
    LensStep(16, B("010"));
    LensStep(17, B("000"));
    LensStep(18, B("110"));
  }

  lemma LensNone()
    ensures LensEmit(ClLens(), 0) == []
  {
  }

  /** Run-length codes after acc: they are good, stand for the rest of the lengths, have code words, and are
      written as these bits. */
  ghost predicate Written(cg: seq<nat>, acc: seq<nat>, b: seq<bool>) {
    && GoodCodegen(cg, acc) && ExpandCodegen(cg, acc) == LitLens() + OFF_LENS
    && UsedAll(ClLens(), cg, acc) && CodegenEmit(ClCodes(), cg, acc) == b
  }

  lemma NoneWritten(acc: seq<nat>)
    requires acc == LitLens() + OFF_LENS
    ensures Written([], acc, [])
  {
  }

  lemma LengthWritten(v: nat, cg: seq<nat>, acc: seq<nat>, b: seq<bool>)
    requires v < 16 && Used(ClLens(), v) && Written(cg, acc + [v], b)
    ensures Written([v] + cg, acc, CodeEmit(ClCodes()[v]) + [] + b)
  {
    hide CodeEmit, LitLens, ClLens, ClCodes;
    assert ([v] + cg)[1..] == cg;
  }

  lemma ZerosWritten(n: nat, cg: seq<nat>, acc: seq<nat>, b: seq<bool>)
    requires n <= 127 && Used(ClLens(), 18) && Written(cg, acc + Repeat(0, 11 + n), b)
    ensures Written([18, n] + cg, acc, CodeEmit(ClCodes()[18]) + BitsOf(n, 7) + b)
  {
    hide CodeEmit, LitLens, ClLens, ClCodes, BitsOf, Repeat, Used;
    var c := [18, n] + cg;
    assert c[0] == 18 && c[1] == n && c[2..] == cg && HeadSize(c) == 2;
    assert GoodHead(c, acc) && HeadLengths(c, acc) == Repeat(0, 11 + n);
    assert GoodCodegen(c, acc);
    assert ExpandCodegen(c, acc) == ExpandCodegen(cg, acc + Repeat(0, 11 + n));
    assert CodegenEmit(ClCodes(), c, acc) == CodeEmit(ClCodes()[18]) + BitsOf(n, ExtraBits(18)) + b;
  }

  /** The lengths at the beginning. */
  function Front(n: nat): seq<nat>
    requires n <= 261
  {
    (LitLens() + OFF_LENS)[..n]
  }

  function AllLength(n: nat): nat {
    if n < 258 then LitLength(n) else if n == 260 then 1 else 0
  }

  lemma FrontStep(n: nat, v: nat)
    requires n < 261 && v == AllLength(n)
    ensures Front(n) + [v] == Front(n + 1)
  {
  }

  lemma FrontZeros(n: nat, m: nat)
    requires n + m <= 261 && forall k :: n <= k < n + m ==> AllLength(k) == 0
    ensures Front(n) + Repeat(0, m) == Front(n + m)
  {
    var f := Front(n + m);
    forall k | n <= k < n + m ensures f[k] == 0 {
      assert AllLength(k) == 0;
    }
  }

  lemma FrontEnds()
    ensures Front(0) == [] && Front(261) == LitLens() + OFF_LENS
  {
  }

  lemma ClUsed()
    ensures Used(ClLens(), 0) && Used(ClLens(), 1) && Used(ClLens(), 2) && Used(ClLens(), 3) && Used(ClLens(), 18)
  {
  }

  lemma LastWritten()
    ensures Written([2, 2, 0, 0, 1], Front(256), LastBits())
  {
    hide Written, Front, CodeEmit, ClCodes, LitLens, ClLens, B, Used;
    ClWords();
    FrontEnds();
    ClUsed();
    NoneWritten(Front(261));
    FrontStep(260, 1);
    LengthWritten(1, [], Front(260), []);
    FrontStep(259, 0);
    assert [1] + [] == [1];
    LengthWritten(0, [1], Front(259), B("111") + [] + []);
    FrontStep(258, 0);
    assert [0] + [1] == [0, 1];
    LengthWritten(0, [0, 1], Front(258), B("110") + [] + (B("111") + [] + []));
    FrontStep(257, 2);
    assert [0] + [0, 1] == [0, 0, 1];
    LengthWritten(2, [0, 0, 1], Front(257), B("110") + [] + (B("110") + [] + (B("111") + [] + [])));
    FrontStep(256, 2);
    assert [2] + [0, 0, 1] == [2, 0, 0, 1];
    LengthWritten(2, [2, 0, 0, 1], Front(256),
      B("00") + [] + (B("110") + [] + (B("110") + [] + (B("111") + [] + []))));
    assert [2] + [2, 0, 0, 1] == [2, 2, 0, 0, 1];
  }

  lemma CountBits()
    ensures BitsOf(127, 7) == B("1111111") && BitsOf(7, 7) == B("1110000") && BitsOf(86, 7) == B("0110101")
  {
    hide B, BitsOf;
    Bits127();
    Bits7();
    Bits86();
  }

  lemma Bits127()
    ensures BitsOf(127, 7) == B("1111111")
  {
  }

  lemma Bits7()
    ensures BitsOf(7, 7) == B("1110000")
  {
  }

  lemma Bits86()
    ensures BitsOf(86, 7) == B("0110101")
  {
  }

  lemma ZeroRuns()
    ensures Written([18, 127, 18, 7, 2, 2, 0, 0, 1], Front(100),
      B("10") + B("1111111") + (B("10") + B("1110000") + LastBits()))
  {
    hide Written, Front, CodeEmit, ClCodes, LitLens, ClLens, LastBits, Used, Repeat, B, BitsOf;
    ClWords();
    ClUsed();
    CountBits();
    LastWritten();
    FrontZeros(238, 18);
    ZerosWritten(7, [2, 2, 0, 0, 1], Front(238), LastBits());
    FrontZeros(100, 138);
    assert [18, 7] + [2, 2, 0, 0, 1] == [18, 7, 2, 2, 0, 0, 1];
    ZerosWritten(127, [18, 7, 2, 2, 0, 0, 1], Front(100), B("10") + B("1110000") + LastBits());
    assert [18, 127] + [18, 7, 2, 2, 0, 0, 1] == [18, 127, 18, 7, 2, 2, 0, 0, 1];
  }

  lemma RunsWritten()
    ensures Written(RUNS, [], CodegenBits())
  {
    hide Written, Front, CodeEmit, ClCodes, LitLens, ClLens, LastBits, CodegenBits, Used, Repeat, B, BitsOf;
    ClWords();
    ClUsed();
    CountBits();
    FrontEnds();
    ZeroRuns();
    var t := B("10") + B("1111111") + (B("10") + B("1110000") + LastBits());
    var c0: seq<nat> := [18, 127, 18, 7, 2, 2, 0, 0, 1];
    var c1 := [2] + c0;
    var c2 := [3] + c1;
    var c3 := [3] + c2;
    FrontStep(99, 2);
    LengthWritten(2, c0, Front(99), t);
    FrontStep(98, 3);
    LengthWritten(3, c1, Front(98), B("00") + [] + t);
    FrontStep(97, 3);
    LengthWritten(3, c2, Front(97), B("01") + [] + (B("00") + [] + t));
    FrontZeros(0, 97);
    ZerosWritten(86, c3, Front(0), B("01") + [] + (B("01") + [] + (B("00") + [] + t)));
    RunsAre();
    CodegenIs();
  }

  lemma RunsAre()
    ensures [18, 86] + ([3] + ([3] + ([2] + [18, 127, 18, 7, 2, 2, 0, 0, 1]))) == RUNS
  {
  }

  lemma CodegenIs()
    ensures CodegenBits() == B("10") + B("0110101") + (B("01") + [] + (B("01") + [] + (B("00") + [] + (B("10")
      + B("1111111") + (B("10") + B("1110000") + LastBits())))))
  {
    hide B, LastBits;
  }

  lemma RunsGood()
    ensures GoodCodegen(RUNS, []) && ExpandCodegen(RUNS, []) == LitLens() + OFF_LENS && UsedAll(ClLens(), RUNS, [])
    ensures CodegenEmit(ClCodes(), RUNS, []) == CodegenBits()
  {
    hide GoodCodegen, ExpandCodegen, UsedAll, CodegenEmit, CodegenBits, LitLens, ClLens, ClCodes;
    RunsWritten();
  }

  /** The header is good: both codes are ones to accept, and what it declares them with stands for them. */
  lemma KnownHeaderGood()
    ensures GoodHdr(KnownHdr())
  {
    hide CodegenEmit, CodegenBits, Complete, Single, CanonHCode, UsedAll, GoodCodegen, ExpandCodegen, CodeEmit, SymBits,
         Fits, Empty;
    LitComplete();
    ClComplete();
    OffWords();
    ClWords();
    RunsGood();
    CompleteFits(LitLens());
    CompleteFits(ClLens());
    assert CodeOrder()[18] == 15;
  }

  /** It is written as these bits, */
  lemma KnownHeaderWritten()
    ensures GoodHdr(KnownHdr()) && HeaderEmit(258, 3, 18, ClCodes(), RUNS) == HeaderBits()
  {
    hide LensEmit, CodegenEmit, LensBits, CodegenBits, ClCodes, UsedAll, GoodCodegen, ExpandCodegen, CodeEmit, GoodHdr,
         LitLens, ClLens, B, BitsOf;
    KnownHeaderGood();
    ClWords();
    LensWritten();
    RunsGood();
    SizeBits();
  }

  lemma SizeBits()
    ensures BitsOf(1, 5) == B("10000") && BitsOf(2, 5) == B("01000") && BitsOf(14, 4) == B("0111")
  {
  }

  /** and read back to the vectors that it declares. */
  lemma KnownHeaderRead(rest: seq<bool>)
    ensures ReadHeader(HeaderBits() + rest) == Some((LitLens(), OFF_LENS, rest))
  {
    hide ReadHeader, HeaderBits, LitLens, ClCodes;
    KnownHeaderWritten();
    HeaderRoundTrip(LitLens(), OFF_LENS, 18, ClCodes(), RUNS, rest);
  }

  // ---------------------------------------------------------------------------------------------
  // The stream.
  // ---------------------------------------------------------------------------------------------

  lemma BodyWritten()
    ensures CoversAll(LitLens(), OFF_LENS, ITEMS)
    ensures ItemsBits(LitLens(), OFF_LENS, ITEMS) + SymBits(LitLens(), END_OF_BLOCK) == BodyBits()
  {
    hide LitLens, SymBits;
    LitWords();
    OffWords();
    assert Covers(LitLens(), OFF_LENS, Copy(3, 3));
    assert ITEMS[1..] == [Lit(98), Lit(99), Copy(3, 3)] && ITEMS[1..][1..] == [Lit(99), Copy(3, 3)];
    assert ITEMS[1..][1..][1..] == [Copy(3, 3)] && ITEMS[1..][1..][1..][1..] == [];
    assert BitsOf(0, 0) == [];
    assert ItemBits(LitLens(), OFF_LENS, Copy(3, 3)) == B("10") + B("0") by {
      assert LengthBits(LitLens(), 3) == B("10") + [];
      assert DistBits(OFF_LENS, 3) == B("0") + [];
    }
    assert ItemsBits(LitLens(), OFF_LENS, [Copy(3, 3)]) == B("10") + B("0") + [];
    assert ItemsBits(LitLens(), OFF_LENS, [Lit(99), Copy(3, 3)]) == B("00") + (B("10") + B("0") + []);
  }

  /** The blocks are written as these bits, */
  lemma KnownStreamWritten()
    ensures GoodBlocks(KnownBlocks()) && BlocksBits(KnownBlocks(), 0) == StreamBits()
  {
    hide HeaderBits, BodyBits, ItemsBits, SymBits, HeaderEmit, LitLens, ClCodes, GoodHdr, CoversAll;
    KnownHeaderWritten();
    BodyWritten();
    StoredWritten();
    var bs := KnownBlocks();
    assert bs[1..] == [Stored(true, [])] && bs[1..][1..] == [];
    assert Opening(false, 2) == B("001");
    assert |B("001") + HeaderBits() + BodyBits()| == 130 by { Sizes(); }
    assert BlockBits(bs[0], 0) == B("001") + HeaderBits() + BodyBits();
  }

  lemma Sizes()
    ensures |HeaderBits()| == 14 + 54 + 46 && |BodyBits()| == 13
  {
  }

  lemma StoredWritten()
    ensures StoredBits(true, [], 130) == StoredBlock()
  {
    hide B, BitsOf;
    StoredOpening();
    SixteenBits();
  }

  lemma StoredOpening()
    ensures Opening(true, 0) == B("100") && Zeros(Padding(133)) == B("000")
  {
  }

  lemma SixteenBits()
    ensures BitsOf(0, 16) == B("00000000") + B("00000000") && BitsOf(MAX_STORED, 16) == B("11111111") + B("11111111")
  {
    hide BitsOf, B, Pow2, Low;
    Pow2Values();
    BitsOfSplit(0, 8, 8);
    BitsOfSplit(MAX_STORED, 8, 8);
    EightDigits();
    EightOnes();
  }

  lemma EightDigits()
    ensures BitsOf(0, 8) == B("00000000") && BitsOf(255, 8) == B("11111111")
  {
  }

  lemma EightOnes()
    ensures BitsOf(MAX_STORED, 8) == B("11111111")
  {
    assert BitsOf(65535, 8) == B("11111111");
  }

  /** and read to "abcabc". */
  lemma KnownStreamRead()
    ensures ReadStream(StreamBits(), []) == Some(([97, 98, 99, 97, 98, 99], []))
  {
    hide ReadStream, StreamBits, BlocksBits, GoodBlocks;
    KnownStreamWritten();
    StreamSize();
    var xs := Contents(KnownBlocks());
    ItemsAre();
    StreamRoundTrip(KnownBlocks(), 0, [], []);
    assert StreamBits() + [] == StreamBits();
  }

  lemma StreamSize()
    ensures |StreamBits()| == 168
  {
    Sizes();
  }

  lemma ItemsAre()
    ensures Contents(KnownBlocks()) == ITEMS && LastIsFinal(KnownBlocks())
    ensures AllValid([], ITEMS) && Expand([], ITEMS) == [97, 98, 99, 97, 98, 99]
  {
    var bs := KnownBlocks();
    assert bs[1..] == [Stored(true, [])] && bs[1..][1..] == [];
    assert Lits([]) == [];
    assert ITEMS[1..] == [Lit(98), Lit(99), Copy(3, 3)] && ITEMS[1..][1..] == [Lit(99), Copy(3, 3)];
    assert ITEMS[1..][1..][1..] == [Copy(3, 3)] && ITEMS[1..][1..][1..][1..] == [];
    var h: seq<byte> := [97, 98, 99];
    assert Extend(h, 3, 3) == [97, 98, 99, 97, 98, 99] by {
      assert Extend(h, 3, 3) == Extend(h + [97], 2, 3) == Extend(h + [97] + [98], 1, 3);
    }
    assert Expand(h, [Copy(3, 3)]) == Extend(h, 3, 3);
    assert Expand([97, 98], [Lit(99), Copy(3, 3)]) == Expand(h, [Copy(3, 3)]);
  }

  /** The reader gives "abcabc" and a plain end for its bytes. */
  method ReadKnown(sizes: seq<nat>, partialFlush: bool) returns (out: seq<byte>, e: Err)
    requires sizes != [] && forall k :: 0 <= k < |sizes| ==> sizes[k] > 0
    ensures BytesBits(BytesOf(StreamBits())) == StreamBits()
    ensures out == [97, 98, 99, 97, 98, 99] && e == Eof
  {
    hide StreamBits, ReadStream, StreamOf, BytesBits, BytesOf;
    StreamSize();
    BitsOfBytes(StreamBits());
    KnownStreamRead();
    out, e := DecodeAny(BytesOf(StreamBits()), [], sizes, partialFlush);
    assert Preset([]) == [];
  }
}
