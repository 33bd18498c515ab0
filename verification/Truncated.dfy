/** Input that is cut short: what comes out is a beginning of what the whole would give, and then the end of the
    input; and what follows a stream does not matter. */
module Truncated {
  import opened Words
  import opened Canon
  import opened HuffmanDecoder
  import opened Lz
  import opened LzCodes
  import opened Format
  import opened Codegen
  import opened Header
  import opened BitReader
  import opened Blocks
  import opened InflateSpec
  import opened ReadSpec
  import opened ReadAgrees
  import opened RoundTrip

  /** The same bits with whole bytes missing at the end. */
  predicate Cut(cut: seq<bool>, bits: seq<bool>) {
    cut <= bits && (|bits| - |cut|) % 8 == 0
  }

  // ---------------------------------------------------------------------------------------------
  // Symbols.
  // ---------------------------------------------------------------------------------------------

  /** A code that was accepted. */
  predicate Accepted(lens: seq<nat>) {
    Complete(lens) || Single(lens)
  }

  /** The tables hold what was accepted. */
  predicate Usable(lens: seq<nat>, last: seq<nat>) {
    (Empty(lens) || Accepted(lens)) && (last == [] || Accepted(last))
  }

  /** What is left of a symbol after used bits. */
  function CutSymbol(v: nat, used: nat, cut: seq<bool>): SymRead {
    if |cut| >= used then Found(v, cut[used..]) else NoMore
  }

  lemma SameSymbol(lens: seq<nat>, v: nat, bits: seq<bool>, cut: seq<bool>)
    requires Accepted(lens) && DecodeSym(lens, bits) == Some(v) && cut <= bits
    ensures if |cut| >= lens[v] then DecodeSym(lens, cut) == Some(v) else DecodeSym(lens, cut) == None
  {
    hide DecodeSym, SymBits, Complete, Single;
    AcceptedFits(lens);
    assert |SymBits(lens, v)| == lens[v];
    if |cut| >= lens[v] {
      DecodeEncode(lens, v, cut);
    } else {
      var u := DecodeSym(lens, cut);
      if u.Some? {
        DecodeEncode(lens, u.value, bits);
        SymbolShorter(lens, cut);
        assert false;
      }
    }
  }

  lemma CodeCut(lens: seq<nat>, v: nat, bits: seq<bool>, cut: seq<bool>)
    requires Accepted(lens) && DecodeSym(lens, bits) == Some(v) && cut <= bits
    ensures ByCode(lens, cut) == CutSymbol(v, lens[v], cut)
  {
    hide DecodeSym, Complete, Single;
    SameSymbol(lens, v, bits, cut);
    if Single(lens) { SingleOne(lens, v); }
  }

  lemma NinesStart(bits: seq<bool>, cut: seq<bool>)
    requires cut <= bits
    ensures |cut| >= 9 ==> NineBits(cut) == NineBits(bits)
    ensures |cut| < 9 ==> cut <= NineBits(cut) && cut <= NineBits(bits)
  {
    if |cut| >= 9 { assert cut[..9] == bits[..9]; }
  }

  lemma LeftoverCut(last: seq<nat>, v: nat, bits: seq<bool>, cut: seq<bool>)
    requires Accepted(last) && DecodeSym(last, NineBits(bits)) == Some(v) && last[v] <= |bits| && cut <= bits
    ensures ByLeftover(last, cut) == CutSymbol(v, last[v], cut)
  {
    hide DecodeSym, Complete, Single, NineBits;
    NinesStart(bits, cut);
    if |cut| < 9 {
      var u := DecodeSym(last, NineBits(cut));
      SameSymbol(last, v, NineBits(bits), cut);
      if u.Some? {
        SameSymbol(last, u.value, NineBits(cut), cut);
      } else {
        NothingPadded(last, v, cut);
        assert false;
      }
    }
  }

  /** With zeros in place of what is missing, some symbol is found. */
  lemma NothingPadded(last: seq<nat>, v: nat, cut: seq<bool>)
    requires Accepted(last) && Used(last, v)
    requires if |cut| >= last[v] then DecodeSym(last, cut) == Some(v) else DecodeSym(last, cut) == None
    requires |cut| < 9 && cut <= NineBits(cut)
    ensures DecodeSym(last, NineBits(cut)).Some?
  {
    hide DecodeSym, Complete, Single, NineBits, SymBits;
    AcceptedFits(last);
    var w := NineBits(cut);
    if Complete(last) {
      var t := FindSymbol(last, w);
      DecodeEncode(last, t, w);
    } else {
      SingleOne(last, v);
      if cut == [] {
        NineOfNone(last, w);
      } else {
        DecodeEncode(last, v, w);
      }
    }
  }

  lemma SymbolCut(lens: seq<nat>, last: seq<nat>, bits: seq<bool>, cut: seq<bool>)
    requires Usable(lens, last) && cut <= bits && InTables(lens, last, bits).Found?
    ensures var r := InTables(lens, last, bits);
      |r.rest| <= |bits| && InTables(lens, last, cut) == CutSymbol(r.v, |bits| - |r.rest|, cut)
      && r.rest == bits[|bits| - |r.rest|..]
  {
    hide DecodeTo, NineBits, Accepted;
    SymbolShorter(lens, bits);
    if Empty(lens) {
      LeftoverCut(last, InTables(lens, last, bits).v, bits, cut);
    } else {
      CodeCut(lens, InTables(lens, last, bits).v, bits, cut);
    }
  }

  // ---------------------------------------------------------------------------------------------
  // Tokens.
  // ---------------------------------------------------------------------------------------------

  /** The tables are usable for the codes of a block. */
  predicate UsableCodes(c: Codes) {
    if c.fixed then c == FixedCodes(c.was) else Usable(c.lit, c.was.lit) && Usable(c.off, c.was.off)
  }

  /** The end of input in the middle. */
  predicate CutShort(e: Err) {
    e == UnexpectedEof || e == Eof
  }

  lemma DistCut(c: Codes, bits: seq<bool>, cut: seq<bool>)
    requires UsableCodes(c) && cut <= bits && DistOf(c, bits).Found?
    ensures var r := DistOf(c, bits);
      |r.rest| <= |bits| && DistOf(c, cut) == CutSymbol(r.v, |bits| - |r.rest|, cut)
      && r.rest == bits[|bits| - |r.rest|..]
  {
    hide FixedOff, Complete, DecodeTo, InTables, FixedLit;
    if c.fixed {
      FixedOffComplete();
      SymbolShorter(FixedOff(), bits);
      SameSymbol(FixedOff(), DecodeSym(FixedOff(), bits).value, bits, cut);
    } else {
      SymbolCut(c.off, c.was.off, bits, cut);
    }
  }

  /** A token at the same place in less input. */
  predicate SameToken(r: TokenRead, q: TokenRead, used: int, cut: seq<bool>) {
    if |cut| >= used >= 0 then
      match r
      case Next(x, _) => q == Next(x, cut[used..])
      case BlockEnd(_) => q == BlockEnd(cut[used..])
      case NoToken(_) => true
    else q.NoToken? && CutShort(q.e)
  }

  lemma MatchCut(c: Codes, len: nat, bits: seq<bool>, cut: seq<bool>)
    requires UsableCodes(c) && cut <= bits && MatchOf(c, len, bits).Next?
    ensures var r := MatchOf(c, len, bits);
      |r.rest| <= |bits| && SameToken(r, MatchOf(c, len, cut), |bits| - |r.rest|, cut)
      && r.rest == bits[|bits| - |r.rest|..]
  {
    hide DistOf, ValueOf, UsableCodes;
    DistCut(c, bits, cut);
    var d := DistOf(c, bits);
    var n, used := OffsetExtra(d.v), |bits| - |d.rest|;
    if |cut| >= used {
      var q := cut[used..];
      if |q| >= n { assert q[..n] == d.rest[..n] && q[n..] == cut[used + n..]; }
    }
    assert d.rest[n..] == bits[used + n..];
  }

  lemma LengthCut(c: Codes, l: nat, bits: seq<bool>, cut: seq<bool>)
    requires UsableCodes(c) && cut <= bits && l < MAX_LIT - FIRST_LENGTH && LengthOf(c, l, bits).Next?
    ensures var r := LengthOf(c, l, bits);
      |r.rest| <= |bits| && SameToken(r, LengthOf(c, l, cut), |bits| - |r.rest|, cut)
      && r.rest == bits[|bits| - |r.rest|..]
  {
    hide MatchOf, ValueOf, UsableCodes;
    var n := LengthExtra(l);
    var b := bits[n..];
    var len := LengthBase(l) + ValueOf(bits[..n]) + MIN_MATCH;
    var r := MatchOf(c, len, b);
    if |cut| >= n {
      assert cut[..n] == bits[..n] && cut[n..] <= b;
      MatchCut(c, len, b, cut[n..]);
      var used := |b| - |r.rest|;
      if |cut[n..]| >= used { assert cut[n..][used..] == cut[n + used..]; }
    } else {
      MatchCut(c, len, b, []);
    }
    assert b[|b| - |r.rest|..] == bits[|bits| - |r.rest|..];
  }

  /** What follows a symbol. */
  function TokenFrom(c: Codes, s: nat, rest: seq<bool>): TokenRead {
    if s < END_OF_BLOCK then Next(Lit(s), rest)
    else if s == END_OF_BLOCK then BlockEnd(rest)
    else if s >= MAX_LIT then NoToken(CorruptInput)
    else LengthOf(c, s - FIRST_LENGTH, rest)
  }

  /** In tokens as in symbols, what is left follows from how much was used. */
  lemma FromCut(c: Codes, s: nat, bits: seq<bool>, cut: seq<bool>)
    requires UsableCodes(c) && cut <= bits && !TokenFrom(c, s, bits).NoToken?
    ensures var r := TokenFrom(c, s, bits);
      |r.rest| <= |bits| && SameToken(r, TokenFrom(c, s, cut), |bits| - |r.rest|, cut)
      && r.rest == bits[|bits| - |r.rest|..]
  {
    hide LengthOf, UsableCodes;
    if FIRST_LENGTH <= s < MAX_LIT { LengthCut(c, s - FIRST_LENGTH, bits, cut); }
  }

  lemma LitCut(c: Codes, bits: seq<bool>, cut: seq<bool>)
    requires UsableCodes(c) && cut <= bits && InTables(c.lit, c.was.lit, bits).Found?
    ensures var r := InTables(c.lit, c.was.lit, bits);
      |r.rest| <= |bits| && InTables(c.lit, c.was.lit, cut) == CutSymbol(r.v, |bits| - |r.rest|, cut)
      && r.rest == bits[|bits| - |r.rest|..]
  {
    hide DecodeTo, FixedOff, FixedLit, Complete, InTables;
    FixedLitComplete();
    FixedNotEmpty();
    if c.fixed { CodeTables(c.lit, c.was.lit); }
    SymbolCut(c.lit, if c.fixed then [] else c.was.lit, bits, cut);
  }

  lemma CodeTables(lens: seq<nat>, last: seq<nat>)
    requires !Empty(lens)
    ensures forall b :: InTables(lens, last, b) == InTables(lens, [], b)
  {
  }

  /** With fewer bits, but as many as are asked for, the token is the same or the input ends inside it. */
  lemma TokenCut(c: Codes, bits: seq<bool>, cut: seq<bool>)
    requires UsableCodes(c) && cut <= bits && !TokenOf(c, bits).NoToken?
    ensures var r := TokenOf(c, bits);
      && |r.rest| <= |bits| && r.rest == bits[|bits| - |r.rest|..]
      && (if |cut| >= c.ask then SameToken(r, TokenOf(c, cut), |bits| - |r.rest|, cut)
          else TokenOf(c, cut) == NoToken(UnexpectedEof))
  {
    hide LengthOf, InTables, UsableCodes;
    LitCut(c, bits, cut);
    var x := InTables(c.lit, c.was.lit, bits);
    var used := |bits| - |x.rest|;
    var r := TokenOf(c, bits);
    FromCut(c, x.v, x.rest, if |cut| >= used then cut[used..] else []);
    Drops(bits, used, r.rest);
    if |cut| >= |bits| - |r.rest| { Drops(cut, used, cut[|bits| - |r.rest|..]); }
  }

  /** Taking bits off twice. */
  lemma Drops(bits: seq<bool>, used: nat, rest: seq<bool>)
    requires used <= |bits| && |rest| <= |bits| - used
    ensures bits[used..][|bits| - used - |rest|..] == bits[|bits| - |rest|..]
  {
  }

  // ---------------------------------------------------------------------------------------------
  // Headers.
  // ---------------------------------------------------------------------------------------------

  /** Lengths at the same place in less input. */
  predicate SameLens(r: LensRead, q: LensRead, used: int, cut: seq<bool>) {
    r.AllLens? ==> q == if |cut| >= used >= 0 then AllLens(r.acc, cut[used..]) else BadLens(UnexpectedEof)
  }

  /** What is left is the end of what there was. */
  predicate EndsIn(bits: seq<bool>, rest: seq<bool>) {
    |rest| <= |bits| && rest == bits[|bits| - |rest|..]
  }

  lemma EndsOn(bits: seq<bool>, mid: seq<bool>, rest: seq<bool>, cut: seq<bool>)
    requires EndsIn(bits, mid) && EndsIn(mid, rest) && cut <= bits
    ensures EndsIn(bits, rest)
    ensures |cut| >= |bits| - |mid| ==> cut[|bits| - |mid|..] <= mid
    ensures |cut| >= |bits| - |rest| ==>
      cut[|bits| - |mid|..][|mid| - |rest|..] == cut[|bits| - |rest|..]
  {
  }

  lemma RunCut(s: nat, acc: seq<nat>, n: nat, bits: seq<bool>, cut: seq<bool>)
    requires s >= 16 && cut <= bits && RunOf(s, acc, n, bits).AllLens?
    ensures var r := RunOf(s, acc, n, bits);
      EndsIn(bits, r.rest) && SameLens(r, RunOf(s, acc, n, cut), |bits| - |r.rest|, cut)
  {
    hide RunLengths;
    if |cut| >= ExtraBits(s) { assert cut[..ExtraBits(s)] == bits[..ExtraBits(s)]; }
  }

  lemma StepCut(cl: seq<nat>, last: seq<nat>, bits: seq<bool>, n: nat, acc: seq<nat>, cut: seq<bool>)
    requires Usable(cl, last) && |acc| < n && cut <= bits && LengthStep(cl, last, bits, n, acc).AllLens?
    ensures var r := LengthStep(cl, last, bits, n, acc);
      EndsIn(bits, r.rest) && SameLens(r, LengthStep(cl, last, cut, n, acc), |bits| - |r.rest|, cut)
  {
    hide InTables, RunOf, Usable;
    SymbolCut(cl, last, bits, cut);
    var x := InTables(cl, last, bits);
    if x.v >= 16 {
      var used := |bits| - |x.rest|;
      RunCut(x.v, acc, n, x.rest, if |cut| >= used then cut[used..] else []);
      EndsOn(bits, x.rest, LengthStep(cl, last, bits, n, acc).rest, cut);
    }
  }

  lemma {:induction false} LengthsCut(cl: seq<nat>, last: seq<nat>, bits: seq<bool>, n: nat, acc: seq<nat>,
                                      cut: seq<bool>)
    requires Usable(cl, last) && cut <= bits && LengthsOf(cl, last, bits, n, acc).AllLens?
    ensures var r := LengthsOf(cl, last, bits, n, acc);
      EndsIn(bits, r.rest) && SameLens(r, LengthsOf(cl, last, cut, n, acc), |bits| - |r.rest|, cut)
    decreases n - |acc|
  {
    hide LengthStep, Usable;
    if |acc| < n {
      StepCut(cl, last, bits, n, acc, cut);
      var x := LengthStep(cl, last, bits, n, acc);
      var used := |bits| - |x.rest|;
      LengthsCut(cl, last, x.rest, n, x.acc, if |cut| >= used then cut[used..] else []);
      EndsOn(bits, x.rest, LengthsOf(cl, last, bits, n, acc).rest, cut);
    }
  }

  /** A header at the same place in less input. */
  predicate SameHeader(r: HeaderRead, q: HeaderRead, used: int, cut: seq<bool>) {
    r.Declares? ==>
      q == if |cut| >= used >= 0 then Declares(r.lit, r.off, r.cl, cut[used..]) else NoHeader(UnexpectedEof)
  }

  /** Tables that what was accepted before has left. */
  predicate UsableLast(last: seq<nat>) {
    last == [] || Accepted(last)
  }

  lemma {:induction false} SetLensCut(bits: seq<bool>, n: nat, cut: seq<bool>)
    requires n <= CODEGEN_CODES && 3 * n <= |cut| && cut <= bits
    ensures SetLens(cut, n) == SetLens(bits, n)
  {
    hide ValueOf, CodeOrder, ValidLens;
    if n > 0 {
      SetLensCut(bits, n - 1, cut);
      assert cut[3 * (n - 1)..3 * n] == bits[3 * (n - 1)..3 * n];
    }
  }

  lemma LengthsHeaderCut(nlit: nat, ndist: nat, nclen: nat, bits: seq<bool>, last: seq<nat>, cut: seq<bool>)
    requires nclen <= CODEGEN_CODES && UsableLast(last) && cut <= bits
    requires LengthsHeader(nlit, ndist, nclen, bits, last).Declares?
    ensures var r := LengthsHeader(nlit, ndist, nclen, bits, last);
      EndsIn(bits, r.rest)
      && SameHeader(r, LengthsHeader(nlit, ndist, nclen, cut, last), |bits| - |r.rest|, cut)
  {
    hide LengthsOf, SetLens, Complete, Single, Empty;
    var cl := SetLens(bits, nclen);
    var rest, n := bits[3 * nclen..], 3 * nclen;
    LengthsCut(cl, last, rest, nlit + ndist, [], if |cut| >= n then cut[n..] else []);
    EndsOn(bits, rest, LengthsHeader(nlit, ndist, nclen, bits, last).rest, cut);
    if |cut| >= n { SetLensCut(bits, nclen, cut); }
  }

  lemma HeaderCut(bits: seq<bool>, last: seq<nat>, cut: seq<bool>)
    requires UsableLast(last) && cut <= bits && HeaderOf(bits, last).Declares?
    ensures var r := HeaderOf(bits, last);
      EndsIn(bits, r.rest) && SameHeader(r, HeaderOf(cut, last), |bits| - |r.rest|, cut)
  {
    hide LengthsHeader, ValueOf;
    FieldValues(bits);
    var nlit, ndist, nclen := ValueOf(bits[..5]) + 257, ValueOf(bits[5..10]) + 1, ValueOf(bits[10..14]) + 4;
    if |cut| >= 14 {
      assert cut[..5] == bits[..5] && cut[5..10] == bits[5..10] && cut[10..14] == bits[10..14];
    }
    LengthsHeaderCut(nlit, ndist, nclen, bits[14..], last, if |cut| >= 14 then cut[14..] else []);
    EndsOn(bits, bits[14..], HeaderOf(bits, last).rest, cut);
  }

  // ---------------------------------------------------------------------------------------------
  // Blocks.
  // ---------------------------------------------------------------------------------------------

  /** The same end if all that was used is there; otherwise an end of input, after some of the bytes. */
  predicate SameFate(f: Fate, g: Fate, used: int, cut: seq<bool>) {
    f.Done? ==>
      if |cut| >= used >= 0 then g == Done(f.h, cut[used..], f.borrowed)
      else g.Failed? && g.h <= f.h && CutShort(g.e)
  }

  /** The same as long as the input lasts, and what is left is the end of the input. */
  predicate CutAlike(bits: seq<bool>, cut: seq<bool>, f: Fate, g: Fate) {
    f.Done? ==> EndsIn(bits, f.rest) && SameFate(f, g, |bits| - |f.rest|, cut)
  }

  predicate UsableTables(t: Tables) {
    UsableLast(t.lit) && UsableLast(t.off)
  }

  /** What lasts through a block: what is known of a part of it is known of the whole. */
  lemma AlikeOn(bits: seq<bool>, mid: seq<bool>, cut: seq<bool>, f: Fate, g: Fate)
    requires cut <= bits && EndsIn(bits, mid) && |cut| >= |bits| - |mid|
    requires CutAlike(mid, cut[|bits| - |mid|..], f, g)
    ensures CutAlike(bits, cut, f, g)
  {
    if f.Done? { EndsOn(bits, mid, f.rest, cut); }
  }

  /** The input ends early. */
  lemma AlikeCut(bits: seq<bool>, mid: seq<bool>, cut: seq<bool>, f: Fate, h: seq<byte>, e: Err)
    requires cut <= bits && EndsIn(bits, mid) && CutShort(e)
    requires f.Done? ==> EndsIn(mid, f.rest) && h <= f.h && |cut| < |bits| - |f.rest|
    ensures CutAlike(bits, cut, f, Failed(h, e))
  {
    if f.Done? { EndsOn(bits, mid, f.rest, cut); }
  }

  lemma {:induction false} BodyCut(c: Codes, bits: seq<bool>, h: seq<byte>, final: bool, borrowed: bool,
                                   cut: seq<bool>)
    requires UsableCodes(c) && UsableTables(c.was) && Asks(c, final) && Cut(cut, bits)
    ensures CutAlike(bits, cut, BodyOf(c, bits, h, final, borrowed), BodyOf(c, cut, h, final, borrowed))
    decreases |bits|, 2
  {
    hide TokenOf, Valid, Apply, Asks, AfterBlock, UsableCodes, UsableTables, CutAlike, EndsIn;
    var f := BodyOf(c, bits, h, final, borrowed);
    if f.Done? {
      TokenShorter(c, bits);
      TokenCut(c, bits, cut);
      BodyTakes(c, bits, h, final, borrowed);
      var r := TokenOf(c, bits);
      var used := |bits| - |r.rest|;
      var here := |cut| >= used && |cut| >= c.ask;
      var less := if here then cut[used..] else r.rest;
      TokenRest(bits, r.rest, cut, here);
      if r.Next? {
        BodyCut(c, r.rest, Apply(h, r.x), final, borrowed || Borrows(c, r.x), less);
        BodyTakes(c, r.rest, Apply(h, r.x), final, borrowed || Borrows(c, r.x));
      } else {
        TablesKept(c);
        AfterCut(r.rest, h, final, TablesAfter(c), borrowed, less);
        AfterTakes(r.rest, h, final, TablesAfter(c), borrowed);
      }
      if here {
        AlikeOn(bits, r.rest, cut, f, BodyOf(c, cut, h, final, borrowed));
      } else {
        AlikeEnds(r.rest, f, f);
        AlikeCut(bits, r.rest, cut, f, h, TokenOf(c, cut).e);
      }
    } else {
      NotDone(bits, cut, f, BodyOf(c, cut, h, final, borrowed));
    }
  }

  lemma NotDone(bits: seq<bool>, cut: seq<bool>, f: Fate, g: Fate)
    requires !f.Done?
    ensures CutAlike(bits, cut, f, g)
  {
  }

  lemma AlikeEnds(bits: seq<bool>, f: Fate, g: Fate)
    requires f.Done? && CutAlike(bits, bits, f, g)
    ensures EndsIn(bits, f.rest)
  {
  }

  lemma TokenRest(bits: seq<bool>, rest: seq<bool>, cut: seq<bool>, here: bool)
    requires |rest| <= |bits| && rest == bits[|bits| - |rest|..] && Cut(cut, bits)
    requires here ==> |cut| >= |bits| - |rest|
    ensures EndsIn(bits, rest) && Cut(if here then cut[|bits| - |rest|..] else rest, rest)
  {
  }

  /** What was accepted stays usable in the tables. */
  lemma TablesKept(c: Codes)
    requires UsableCodes(c) && UsableTables(c.was)
    ensures UsableTables(TablesAfter(c))
  {
    hide Empty, Complete, Single;
  }

  lemma {:induction false} AfterCut(bits: seq<bool>, h: seq<byte>, final: bool, t: Tables, borrowed: bool,
                                    cut: seq<bool>)
    requires UsableTables(t) && Cut(cut, bits)
    ensures CutAlike(bits, cut, AfterBlock(bits, h, final, t, borrowed), AfterBlock(cut, h, final, t, borrowed))
    decreases |bits|, 1
  {
    hide StreamOf, UsableTables;
    if !final { StreamCut(bits, h, t, borrowed, cut); }
  }

  /** The bytes of fewer bits are the first of the bytes. */
  lemma {:induction false} BytesStart(cut: seq<bool>, bits: seq<bool>)
    requires cut <= bits
    ensures BytesOf(cut) <= BytesOf(bits)
  {
    if |cut| >= 8 {
      assert cut[..8] == bits[..8] && cut[8..] <= bits[8..];
      BytesStart(cut[8..], bits[8..]);
    }
  }

  lemma {:induction false} StoredCut(n: nat, bits: seq<bool>, h: seq<byte>, final: bool, t: Tables, borrowed: bool,
                                     cut: seq<bool>)
    requires UsableTables(t) && Cut(cut, bits)
    ensures CutAlike(bits, cut, StoredOf(n, bits, h, final, t, borrowed), StoredOf(n, cut, h, final, t, borrowed))
    decreases |bits|, 2
  {
    hide AfterBlock, BytesOf, UsableTables, CutAlike, EndsIn;
    var f, g := StoredOf(n, bits, h, final, t, borrowed), StoredOf(n, cut, h, final, t, borrowed);
    if f.Done? {
      var here, mid, all := |cut| >= 8 * n, bits[8 * n..], h + BytesOf(bits[..8 * n]);
      TokenRest(bits, mid, cut, here);
      AfterCut(mid, all, final, t, borrowed, if here then cut[8 * n..] else mid);
      AfterTakes(mid, all, final, t, borrowed);
      if here {
        assert cut[..8 * n] == bits[..8 * n];
        AlikeOn(bits, mid, cut, f, g);
      } else {
        BytesStart(cut, bits[..8 * n]);
        AlikeEnds(mid, f, f);
        AlikeCut(bits, mid, cut, f, h + BytesOf(cut), UnexpectedEof);
      }
    } else {
      NotDone(bits, cut, f, g);
    }
  }

  lemma {:induction false} StoredBlockCut(bits: seq<bool>, h: seq<byte>, final: bool, t: Tables, borrowed: bool,
                                          cut: seq<bool>)
    requires UsableTables(t) && Cut(cut, bits)
    ensures CutAlike(bits, cut, StoredBlockOf(bits, h, final, t, borrowed), StoredBlockOf(cut, h, final, t, borrowed))
    decreases |bits|, 3
  {
    hide StoredOf, ValueOf, UsableTables, CutAlike, EndsIn;
    var f, g := StoredBlockOf(bits, h, final, t, borrowed), StoredBlockOf(cut, h, final, t, borrowed);
    if f.Done? {
      var p := |bits| % 8;
      assert |cut| % 8 == p;
      var n: nat, mid, here := ValueOf(bits[p..p + 16]), bits[p + 32..], |cut| >= p + 32;
      TokenRest(bits, mid, cut, here);
      StoredCut(n, mid, h, final, t, borrowed, if here then cut[p + 32..] else mid);
      StoredTakes(n, mid, h, final, t, borrowed);
      if here {
        assert cut[p..p + 16] == bits[p..p + 16] && cut[p + 16..p + 32] == bits[p + 16..p + 32];
        AlikeOn(bits, mid, cut, f, g);
      } else {
        AlikeEnds(mid, f, f);
        AlikeCut(bits, mid, cut, f, h, UnexpectedEof);
      }
    } else {
      NotDone(bits, cut, f, g);
    }
  }

  lemma DeclaredUsable(d: HeaderRead, t: Tables, final: bool)
    requires UsableTables(t) && d.Declares? && |d.lit| > END_OF_BLOCK
    requires Acceptable(d.lit) && Acceptable(d.off) && Acceptable(d.cl)
    ensures UsableCodes(DeclaredCodes(d, t, final)) && UsableTables(DeclaredCodes(d, t, final).was)
    ensures Asks(DeclaredCodes(d, t, final), final)
  {
    hide Empty, Complete, Single;
  }

  lemma {:induction false} DynamicCut(bits: seq<bool>, h: seq<byte>, final: bool, t: Tables, borrowed: bool,
                                      cut: seq<bool>)
    requires UsableTables(t) && Cut(cut, bits)
    ensures CutAlike(bits, cut, DynamicOf(bits, h, final, t, borrowed), DynamicOf(cut, h, final, t, borrowed))
    decreases |bits|, 3
  {
    hide BodyOf, HeaderOf, CutAlike, EndsIn, Asks, UsableCodes, Acceptable, AskFor, Empty;
    var f, g := DynamicOf(bits, h, final, t, borrowed), DynamicOf(cut, h, final, t, borrowed);
    if f.Done? {
      HeaderShorter(bits, t.lit);
      HeaderCut(bits, t.lit, cut);
      var d := HeaderOf(bits, t.lit);
      var used := |bits| - |d.rest|;
      var here, c := |cut| >= used, DeclaredCodes(d, t, final);
      DeclaredUsable(d, t, final);
      HeaderRest(bits, d.rest, cut, here);
      BodyCut(c, d.rest, h, final, borrowed || Empty(d.cl) || Empty(d.lit), if here then cut[used..] else d.rest);
      BodyTakes(c, d.rest, h, final, borrowed || Empty(d.cl) || Empty(d.lit));
      if here {
        AlikeOn(bits, d.rest, cut, f, g);
      } else {
        AlikeEnds(d.rest, f, f);
        AlikeCut(bits, d.rest, cut, f, h, UnexpectedEof);
      }
    } else {
      NotDone(bits, cut, f, g);
    }
  }

  lemma HeaderRest(bits: seq<bool>, rest: seq<bool>, cut: seq<bool>, here: bool)
    requires EndsIn(bits, rest) && Cut(cut, bits) && (here ==> |cut| >= |bits| - |rest|)
    ensures Cut(if here then cut[|bits| - |rest|..] else rest, rest)
  {
  }

  lemma FixedUsable(t: Tables, final: bool)
    ensures UsableCodes(FixedCodes(t)) && Asks(FixedCodes(t), final)
  {
  }

  lemma {:induction false} BlockCut(typ: nat, bits: seq<bool>, h: seq<byte>, final: bool, t: Tables, borrowed: bool,
                                    cut: seq<bool>)
    requires UsableTables(t) && Cut(cut, bits)
    ensures CutAlike(bits, cut, BlockOf(typ, bits, h, final, t, borrowed), BlockOf(typ, cut, h, final, t, borrowed))
    ensures h <= BlockOf(typ, bits, h, final, t, borrowed).h
    decreases |bits|, 4
  {
    hide BodyOf, StoredBlockOf, DynamicOf, FixedLit, FixedOff, UsableTables, Asks, UsableCodes;
    if typ == 0 {
      StoredBlockCut(bits, h, final, t, borrowed, cut);
      StoredBlockTakes(bits, h, final, t, borrowed);
    } else if typ == 1 {
      FixedUsable(t, final);
      BodyCut(FixedCodes(t), bits, h, final, borrowed, cut);
      BodyTakes(FixedCodes(t), bits, h, final, borrowed);
    } else if typ == 2 {
      DynamicCut(bits, h, final, t, borrowed, cut);
      DynamicTakes(bits, h, final, t, borrowed);
    }
  }

  /** With whole bytes missing at the end: if all of a stream is there, it comes out the same, and otherwise
      the beginning of it comes out, with the end of the input. */
  lemma {:induction false} StreamCut(bits: seq<bool>, h: seq<byte>, t: Tables, borrowed: bool, cut: seq<bool>)
    requires UsableTables(t) && Cut(cut, bits)
    ensures CutAlike(bits, cut, StreamOf(bits, h, t, borrowed), StreamOf(cut, h, t, borrowed))
    decreases |bits|, 0
  {
    hide BlockOf, ValueOf, CutAlike, EndsIn, UsableTables;
    var f, g := StreamOf(bits, h, t, borrowed), StreamOf(cut, h, t, borrowed);
    if |bits| >= 3 {
      var mid, final, here := bits[3..], ValueOf(bits[..1]) == 1, |cut| >= 3;
      TokenRest(bits, mid, cut, here);
      BlockCut(ValueOf(bits[1..][..2]), mid, h, final, t, borrowed, if here then cut[3..] else mid);
      if here {
        assert cut[..1] == bits[..1] && cut[1..][..2] == bits[1..][..2];
        AlikeOn(bits, mid, cut, f, g);
      } else if f.Done? {
        AlikeEnds(mid, f, f);
        StreamTakes(bits, h, t, borrowed);
        AlikeCut(bits, mid, cut, f, h, UnexpectedEof);
      } else {
        NotDone(bits, cut, f, g);
      }
    } else {
      NotDone(bits, cut, f, g);
    }
  }

  // ---------------------------------------------------------------------------------------------
  // Streams of bytes.
  // ---------------------------------------------------------------------------------------------

  lemma CutBytes(cut: seq<byte>, bytes: seq<byte>)
    requires cut <= bytes
    ensures Cut(BytesBits(cut), BytesBits(bytes))
  {
    hide BytesBits;
    var more := bytes[|cut|..];
    assert bytes == cut + more;
    BytesBitsConcat(cut, more);
  }

  /** The bytes of a stream are all there, as far as it goes. */
  predicate Whole(cut: seq<byte>, bytes: seq<byte>, preset: seq<byte>)
    requires ReadStream(BytesBits(bytes), preset).Some?
  {
    8 * |cut| + |ReadStream(BytesBits(bytes), preset).value.1| >= 8 * |bytes|
  }

  /** The first bytes of a stream: if all of it is there they give its data, and otherwise the beginning of its
      data and an end of the input, which is the plain one only in a token that is cut off. */
  lemma TruncatedStream(cut: seq<byte>, bytes: seq<byte>, preset: seq<byte>)
    requires cut <= bytes && ReadStream(BytesBits(bytes), preset).Some?
    ensures var h, f := ReadStream(BytesBits(bytes), preset).value.0, FateOf(cut, preset);
      if Whole(cut, bytes, preset) then f.Done? && f.h == h
      else f.Failed? && f.h <= h && CutShort(f.e)
    ensures EofByCut(FateOf(cut, preset), StreamStop(BytesBits(cut), preset, Tables([], [])))
  {
    hide BytesBits, ReadStream, StreamOf, StreamStop, EofByCut;
    var t := Tables([], []);
    CutBytes(cut, bytes);
    StreamAgrees(BytesBits(bytes), preset, t);
    StreamCut(BytesBits(bytes), preset, t, false, BytesBits(cut));
    StreamEof(BytesBits(cut), preset, t, false);
  }

  /** A stream of which only the first bytes are there, read in pieces of any sizes. */
  method ReadTruncated(bytes: seq<byte>, n: nat, dict: seq<byte>, sizes: seq<nat>, partialFlush: bool)
    returns (out: seq<byte>, e: Err)
    requires n <= |bytes| && ReadStream(BytesBits(bytes), Preset(dict)).Some?
    requires sizes != [] && forall k :: 0 <= k < |sizes| ==> sizes[k] > 0
    ensures var h := ReadStream(BytesBits(bytes), Preset(dict)).value.0;
      if Whole(bytes[..n], bytes, Preset(dict)) then Preset(dict) + out == h && e == Eof
      else Preset(dict) + out <= h && CutShort(e)
  {
    hide BytesBits, ReadStream, FateOf, StreamStop, EofByCut, Whole, Preset;
    TruncatedStream(bytes[..n], bytes, Preset(dict));
    out, e := DecodeAny(bytes[..n], dict, sizes, partialFlush);
  }
}
