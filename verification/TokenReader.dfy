/** Reading what a block consists of: its opening bits, literals and matches. */
module TokenReader {
  import opened Words
  import opened Canon
  import opened DecoderTable
  import opened HuffmanDecoder
  import opened Lz
  import opened LzCodes
  import opened Format
  import opened BitReader
  import opened InflateSpec
  import opened ReadSpec
  import opened HeaderReader

  /** What is read inside a block. */
  datatype Token = TLit(b: byte) | TEnd | TMatch(len: nat, dist: nat) | TErr(e: Err)

  // ---------------------------------------------------------------------------------------------
  // The fixed distance code, read without tables.
  // ---------------------------------------------------------------------------------------------

  /** Reversal of the low five bits, by way of the byte reversal. */
  function Reverse5(x: nat): nat {
    Reverse(Low(x, 5) * 8, 8)
  }

  lemma Reverse5Is(x: nat)
    ensures Reverse5(x) == Reverse(x, 5) < 32
  {
    hide Low, Reverse;
    Pow2Small();
    ReverseLow(x);
    ReverseUp(Low(x, 5));
  }

  lemma ReverseLow(x: nat)
    ensures Reverse(Low(x, 5), 5) == Reverse(x, 5)
  {
    ReverseIsMsb(x, 5);
    ReverseIsMsb(Low(x, 5), 5);
    BitsOfLow(x, 5);
  }

  lemma ReverseUp(x: nat)
    requires x < 32
    ensures Reverse(x * 8, 8) == Reverse(x, 5)
  {
    assert CodeBits(x * 8, 8) == CodeBits(x, 5) + [false, false, false] by {
      assert x * 8 / 2 == x * 4 && x * 4 / 2 == x * 2 && x * 2 / 2 == x;
      assert CodeBits(x * 2, 6) == CodeBits(x, 5) + [false];
      assert CodeBits(x * 4, 7) == CodeBits(x * 2, 6) + [false];
      assert CodeBits(x * 8, 8) == CodeBits(x * 4, 7) + [false];
    }
    HuffmanCodesZeros(CodeBits(x, 5));
  }

  lemma {:induction false} HuffmanCodesZeros(s: seq<bool>)
    ensures ValueOf(s + [false, false, false]) == ValueOf(s)
  {
    var z := [false, false, false];
    if s == [] {
      assert s + z == z && z[1..] == [false, false] && z[1..][1..] == [false] && z[1..][1..][1..] == [];
    } else {
      assert (s + z)[1..] == s[1..] + z;
      HuffmanCodesZeros(s[1..]);
    }
  }

  /** Five bits of the fixed distance code are its symbol, reversed. */
  lemma FixedDistance(b: nat, nb: nat, bits: seq<bool>)
    requires 5 <= nb && BitsOf(b, nb) <= bits
    ensures DecodeSym(FixedOff(), bits) == Some(Reverse(b, 5)) && Reverse(b, 5) < 32
  {
    hide FixedOff, Complete, Pow2;
    var s := Reverse(b, 5);
    Pow2Small();
    FixedOffComplete();
    FixedOffCode(s);
    LowIsValue(b, nb, 5, bits);
    FixedSymBits(b, s);
    assert SymBits(FixedOff(), s) <= bits;
    DecodeEncode(FixedOff(), s, bits);
  }

  lemma FixedSymBits(b: nat, s: nat)
    requires s == Reverse(b, 5) < 32 && CodeOf(FixedOff(), s) == s
    ensures Used(FixedOff(), s) && SymBits(FixedOff(), s) == BitsOf(b, 5)
  {
    ReverseIsMsb(b, 5);
    CodeOfMsb(BitsOf(b, 5));
  }

  lemma {:induction false} CodeOfMsb(s: seq<bool>)
    ensures CodeBits(MsbValue(s), |s|) == s
  {
    if s != [] { CodeOfMsb(s[..|s| - 1]); }
  }

  lemma FixedDistanceShort(bits: seq<bool>)
    requires |bits| < 5
    ensures DecodeSym(FixedOff(), bits) == None
  {
  }

  // ---------------------------------------------------------------------------------------------
  // Matches.
  // ---------------------------------------------------------------------------------------------

  /** What reading a distance gives: it, or an error. */
  datatype DistResult = Dist(dist: nat) | DistErr(e: Err)

  /** The distance for its code and extra bits, as the reader computes it. */
  lemma DistanceIs(d: nat, v: nat)
    requires 4 <= d < MAX_DIST_CODES
    ensures var nb := (d - 2) / 2;
      nb == OffsetExtra(d) && Pow2(nb + 1) + 1 + (d % 2) * Pow2(nb) + v == OffsetBase(d) + v + 1
  {
    var nb := (d - 2) / 2;
    MulAdd(2, d % 2, Pow2(nb));
  }

  /** Extra bits of a distance, if its code has any. */
  method ReadDistExtra(f: Reader, d: nat, ghost k: nat) returns (r: DistResult)
    requires f.Valid()
    modifies f
    ensures f.Valid() && |f.input| <= |old(f.input)| && |f.Bits()| <= |old(f.Bits())| &&
      (old(f.nb) <= 31 ==> f.nb <= 31)
    ensures r.DistErr? ==> r.e == if d < MAX_DIST_CODES then Eof else CorruptInput
    ensures r.Dist? <==> d < MAX_DIST_CODES && |old(f.Bits())| >= OffsetExtra(d)
    ensures r.Dist? ==>
      && r.dist == OffsetBase(d) + ValueOf(old(f.Bits())[..OffsetExtra(d)]) + 1
      && f.Bits() == old(f.Bits())[OffsetExtra(d)..]
    ensures r.Dist? && old(f.Tight(k)) && k <= |f.Bits()| ==> f.Tight(k)
  {
    hide BytesBits, BitsOf, Pow2, ValueOf;
    ghost var bits := f.Bits();
    if d < 4 {
      NoValue(bits);
      return Dist(d + 1);
    } else if d < MAX_DIST_CODES {
      var nb := (d - 2) / 2;
      var ok, v := f.Take(nb, k);
      if !ok {
        return DistErr(Eof);
      }
      DistanceIs(d, v);
      var extra := (d % 2) * Pow2(nb) + v;
      return Dist(Pow2(nb + 1) + 1 + extra);
    }
    r := DistErr(CorruptInput);
  }

  lemma NoValue(bits: seq<bool>)
    ensures ValueOf(bits[..0]) == 0 && bits[0..] == bits
  {
  }

  /** Extra bits of a length, if its code has any. */
  method ReadLength(f: Reader, v: nat, ghost k: nat) returns (ok: bool, length: nat)
    requires f.Valid() && FIRST_LENGTH <= v < MAX_LIT
    modifies f
    ensures f.Valid() && |f.input| <= |old(f.input)| && |f.Bits()| <= |old(f.Bits())| &&
      (old(f.nb) <= 31 ==> f.nb <= 31)
    ensures ok <==> |old(f.Bits())| >= LengthExtra(v - FIRST_LENGTH)
    ensures ok ==>
      && length == LengthBase(v - FIRST_LENGTH) + ValueOf(old(f.Bits())[..LengthExtra(v - FIRST_LENGTH)]) + MIN_MATCH
      && f.Bits() == old(f.Bits())[LengthExtra(v - FIRST_LENGTH)..]
    ensures ok && old(f.Tight(k)) && k <= |f.Bits()| ==> f.Tight(k)
  {
    hide BytesBits, BitsOf, Pow2, ValueOf;
    if v < 265 {
      NoValue(f.Bits());
      return true, v - (257 - 3);
    }
    length := LengthBase(v - 257) + 3;
    var extra;
    ok, extra := f.Take(LengthExtra(v - 257), k);
    length := length + extra;
  }

  /** The tables are ready for a distance. */
  ghost predicate DistReady(hd: Decoder, hdNil: bool, c: Codes)
    reads hd, hd.chunks
  {
    && hdNil == c.fixed && hd.chunks.Length == NUM_CHUNKS && hd.maxRead <= 25
    && (!hdNil ==> InPlace(hd, c.off, c.was.off))
  }

  /** The symbol of a distance: five bits, or from the tables. */
  method ReadDistSym(f: Reader, hd: Decoder, hdNil: bool, ghost c: Codes, ghost k: nat) returns (err: Err, d: nat)
    requires f.Valid() && DistReady(hd, hdNil, c)
    modifies f
    ensures f.Valid() && |f.input| <= |old(f.input)| && |f.Bits()| <= |old(f.Bits())|
    ensures err == NoError && old(f.nb) <= 31 ==> f.nb <= 31
    ensures match DistOf(c, old(f.Bits()))
      case Found(v, rest) => err == NoError && d == v && f.Bits() == rest
      case NoMore => err == if hdNil then Eof else UnexpectedEof
      case NoCode => err == CorruptInput
    ensures err == NoError && old(f.Tight(k)) && k <= |f.Bits()| ==> f.Tight(k)
  {
    hide BytesBits, BitsOf, Pow2, InTables, AskedSymbol, FixedOff, Decoder.Ready, InPlace;
    ghost var bits, tight, was := f.Bits(), f.Tight(k), |f.input|;
    d := 0;
    if hdNil {
      if |bits| < 5 { FixedDistanceShort(bits); }
      f.BitCount();
      var ok := f.Need(5);
      if !ok {
        return Eof, 0;
      }
      f.BitCount();
      Reverse5Is(f.b);
      FixedDistance(f.b, f.nb, bits);
      d := Reverse5(f.b);
      LowIsValue(f.b, f.nb, 5, bits);
      f.Drop(5);
      f.BitCount();
      FixedFive(d, bits, f.Bits());
      return NoError, d;
    }
    InPlaceReads(hd, c.off, c.was.off, bits);
    ReadyIn(hd, c.off, c.was.off);
    var x := f.HuffSym(hd, c.off, c.was.off);
    f.BitCount();
    if !x.Sym? {
      return SymbolError(x), 0;
    }
    d := x.value;
    if tight && k <= |f.Bits()| { SymTight(|bits|, hd.maxRead, |bits| - |f.Bits()|, f.nb, |f.input|, was, k); }
    err := NoError;
  }

  lemma FixedFive(d: nat, bits: seq<bool>, rest: seq<bool>)
    requires d < 32 && |bits| >= 5 && bits == bits[..5] + rest
    ensures FixedOff()[d] == 5 && bits[5..] == rest
  {
  }

  /** Distance, after its length. */
  method ReadDistance(f: Reader, hd: Decoder, hdNil: bool, ghost c: Codes, ghost len: nat, ghost k: nat)
    returns (r: DistResult)
    requires f.Valid() && DistReady(hd, hdNil, c)
    modifies f
    ensures f.Valid() && |f.input| <= |old(f.input)| && |f.Bits()| <= |old(f.Bits())|
    ensures match MatchOf(c, len, old(f.Bits()))
      case Next(x, rest) => r == Dist(x.dist) && f.Bits() == rest
      case BlockEnd(_) => false
      case NoToken(e) => r == DistErr(e)
    ensures r.Dist? ==> (old(f.nb) <= 31 ==> f.nb <= 31) && (old(f.Tight(k)) && k <= |f.Bits()| ==> f.Tight(k))
  {
    hide BytesBits, BitsOf, Pow2, DistOf, ValueOf, DistReady;
    DistNil(hd, hdNil, c);
    var err, d := ReadDistSym(f, hd, hdNil, c, k);
    if err != NoError {
      return DistErr(err);
    }
    r := ReadDistExtra(f, d, k);
  }

  lemma DistNil(hd: Decoder, hdNil: bool, c: Codes)
    requires DistReady(hd, hdNil, c)
    ensures hdNil == c.fixed
  {
  }

  /** Length and distance of a match, after its length symbol. */
  method ReadMatch(f: Reader, hd: Decoder, hdNil: bool, v: nat, ghost c: Codes, ghost k: nat) returns (r: Token)
    requires f.Valid() && DistReady(hd, hdNil, c) && FIRST_LENGTH <= v < MAX_LIT
    modifies f
    ensures f.Valid() && |f.input| <= |old(f.input)| && |f.Bits()| <= |old(f.Bits())|
    ensures match LengthOf(c, v - FIRST_LENGTH, old(f.Bits()))
      case Next(x, rest) => r == TMatch(x.len, x.dist) && f.Bits() == rest
      case BlockEnd(_) => false
      case NoToken(e) => r == TErr(e)
    ensures !r.TErr? ==> (old(f.nb) <= 31 ==> f.nb <= 31) && (old(f.Tight(k)) && k <= |f.Bits()| ==> f.Tight(k))
  {
    hide BytesBits, BitsOf, Pow2, ValueOf, MatchOf, DistReady;
    var ok, length := ReadLength(f, v, k);
    if !ok {
      return TErr(Eof);
    }
    var dr := ReadDistance(f, hd, hdNil, c, length, k);
    if dr.DistErr? {
      return TErr(dr.e);
    }
    r := TMatch(length, dr.dist);
  }

  /** The tables are ready for the codes of a block. */
  ghost predicate TablesIn(hl: Decoder, hd: Decoder, hdNil: bool, c: Codes)
    reads hl, hl.chunks, hd, hd.chunks
  {
    && hl.chunks.Length == NUM_CHUNKS && hl.maxRead == c.ask <= 25
    && hl.Ready(c.lit, c.was.lit) && DistReady(hd, hdNil, c)
  }

  /** A token as the reader hands it on. */
  function TokenFor(r: TokenRead): Token {
    match r
    case Next(x, _) => if x.Lit? then TLit(x.b) else TMatch(x.len, x.dist)
    case BlockEnd(_) => TEnd
    case NoToken(e) => TErr(e)
  }

  /** A literal or length symbol and what belongs to it. The literal code asks for so many bits at once, of
      which at least those before the last k have to be there. */
  method ReadToken(f: Reader, hl: Decoder, hd: Decoder, hdNil: bool, ghost c: Codes, ghost k: nat) returns (r: Token)
    requires f.Valid() && TablesIn(hl, hd, hdNil, c)
    modifies f
    ensures f.Valid() && |f.input| <= |old(f.input)|
    ensures r == TokenFor(TokenOf(c, old(f.Bits())))
    ensures !r.TErr? ==> f.Bits() == TokenOf(c, old(f.Bits())).rest && |f.Bits()| < |old(f.Bits())| && f.nb <= 31
    ensures !r.TErr? && old(f.Tight(k)) && k <= |f.Bits()| && c.ask + k <= |old(f.Bits())| ==> f.Tight(k)
  {
    hide BytesBits, BitsOf, Pow2, InTables, Decoder.Ready, LengthOf, DistReady;
    ghost var bits, tight, was := f.Bits(), f.Tight(k), |f.input|;
    f.BitCount();
    var x := f.HuffSym(hl, c.lit, c.was.lit);
    f.BitCount();
    if !x.Sym? {
      return TErr(SymbolError(x));
    }
    if tight && k <= |f.Bits()| && c.ask + k <= |bits| {
      SymTight(|bits|, hl.maxRead, |bits| - |f.Bits()|, f.nb, |f.input|, was, k);
    }
    var v := x.value;
    if v < 256 {
      return TLit(v);
    } else if v == 256 {
      return TEnd;
    } else if v >= MAX_LIT {
      return TErr(CorruptInput);
    }
    r := ReadMatch(f, hd, hdNil, v, c, k);
  }

  // ---------------------------------------------------------------------------------------------
  // The beginning of a block.
  // ---------------------------------------------------------------------------------------------

  /** The three bits a block begins with; k is what has to be left after them. */
  method BlockHead(f: Reader, ghost k: nat) returns (ok: bool, final: bool, typ: nat)
    requires f.Valid()
    modifies f
    ensures f.Valid() && (ok <==> |old(f.Bits())| >= 3) && (!ok ==> f.Bits() == old(f.Bits()) && !final)
    ensures ok ==>
      final == (ValueOf(old(f.Bits())[..1]) == 1) && typ == ValueOf(old(f.Bits())[1..][..2]) && typ < 4
    ensures ok ==> f.Bits() == old(f.Bits())[3..] && f.nb <= 29
    ensures ok && old(f.Tight(k)) && k <= |f.Bits()| ==> f.Tight(k)
  {
    hide BytesBits, BitsOf, Pow2, ValueOf, Reader.Bits;
    ghost var b := f.Bits();
    final, typ := false, 0;
    ok := f.Need(3);
    if ok {
      KindOf(b);
      f.BitCount();
      var more, v := f.Take(1, k);
      final := v == 1;
      more, typ := f.Take(2, k);
    }
  }
}
