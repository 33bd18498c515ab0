/** On streams, what the decoder gives is what the format says; and it is a stream whenever the end is
    reached without an empty code having been read. */
module ReadAgrees {
  import opened Words
  import opened Canon
  import opened HuffmanDecoder
  import opened Lz
  import opened LzCodes
  import opened Format
  import opened Codegen
  import opened Header
  import opened BitReader
  import opened Blocks
  import opened InflateSpec
  import opened ReadSpec

  /** The same end, of the decoder and of the format. */
  predicate Agree(f: Fate, o: Outcome) {
    && (o.Some? ==> f == Done(o.value.0, o.value.1, false))
    && (f.Done? && !f.borrowed ==> o == Some((f.h, f.rest)))
  }

  // ---------------------------------------------------------------------------------------------
  // Once an empty code has been read, that is not forgotten.
  // ---------------------------------------------------------------------------------------------

  /** The flag, once set, stays. */
  predicate Flagged(f: Fate) {
    f.Done? ==> f.borrowed
  }

  lemma {:induction false} BodyBorrows(c: Codes, bits: seq<bool>, h: seq<byte>, final: bool)
    ensures Flagged(BodyOf(c, bits, h, final, true))
    decreases |bits|, 2
  {
    hide TokenOf, Valid, Apply, AfterBlock;
    TokenShorter(c, bits);
    match TokenOf(c, bits)
    case NoToken(_) =>
    case BlockEnd(rest) => AfterBorrows(rest, h, final, TablesAfter(c));
    case Next(x, rest) => if Valid(h, x) { BodyBorrows(c, rest, Apply(h, x), final); }
  }

  lemma {:induction false} AfterBorrows(bits: seq<bool>, h: seq<byte>, final: bool, t: Tables)
    ensures Flagged(AfterBlock(bits, h, final, t, true))
    decreases |bits|, 1
  {
    hide StreamOf;
    if !final { StreamBorrows(bits, h, t); }
  }

  lemma {:induction false} StoredBorrows(bits: seq<bool>, h: seq<byte>, final: bool, t: Tables)
    ensures Flagged(StoredBlockOf(bits, h, final, t, true))
    decreases |bits|, 3
  {
    hide AfterBlock, ValueOf, BytesOf;
    var p := |bits| % 8;
    if |bits| >= p + 32 {
      var n: int, rest := ValueOf(bits[p..p + 16]), bits[p + 32..];
      if |rest| >= 8 * n { AfterBorrows(rest[8 * n..], h + BytesOf(rest[..8 * n]), final, t); }
    }
  }

  lemma {:induction false} DynamicBorrows(bits: seq<bool>, h: seq<byte>, final: bool, t: Tables)
    ensures Flagged(DynamicOf(bits, h, final, t, true))
    decreases |bits|, 3
  {
    hide BodyOf, HeaderOf, DeclaredCodes;
    HeaderShorter(bits, t.lit);
    var d := HeaderOf(bits, t.lit);
    if d.Declares? { BodyBorrows(DeclaredCodes(d, t, final), d.rest, h, final); }
  }

  lemma {:induction false} StreamBorrows(bits: seq<bool>, h: seq<byte>, t: Tables)
    ensures Flagged(StreamOf(bits, h, t, true))
    decreases |bits|, 0
  {
    hide BodyOf, StoredBlockOf, DynamicOf, ValueOf;
    if |bits| >= 3 {
      var rest, final := bits[3..], ValueOf(bits[..1]) == 1;
      StoredBorrows(rest, h, final, t);
      BodyBorrows(FixedCodes(t), rest, h, final);
      DynamicBorrows(rest, h, final, t);
    }
  }

  // ---------------------------------------------------------------------------------------------
  // Tokens.
  // ---------------------------------------------------------------------------------------------

  /** No symbol has an empty code. */
  lemma {:induction false} EmptyDecodes(lens: seq<nat>, bits: seq<bool>, k: nat)
    requires Empty(lens) && k <= |lens|
    ensures DecodeTo(lens, bits, k) == None
  {
    if k > 0 { EmptyDecodes(lens, bits, k - 1); }
  }

  /** What is read after a length. */
  lemma MatchAgrees(c: Codes, len: nat, bits: seq<bool>)
    requires c.fixed ==> c.off == FixedOff()
    ensures if !c.fixed && Empty(c.off) then ReadDist(c.off, len, bits) == Bad
      else match MatchOf(c, len, bits)
      case Next(x, rest) => x.Copy? && ReadDist(c.off, len, bits) == Got(x, rest)
      case BlockEnd(_) => false
      case NoToken(_) => ReadDist(c.off, len, bits) == Bad
  {
    hide DecodeTo, Single, FixedOff, Empty, NineBits;
    if Empty(c.off) { EmptyDecodes(c.off, bits, |c.off|); }
    FixedNotEmpty();
  }

  /** A token is what the format says, if it is not read with what an earlier code has left and as many bits
      are there as are asked for. */
  lemma TokenAgrees(c: Codes, bits: seq<bool>)
    requires !Empty(c.lit) && (c.fixed ==> c.off == FixedOff())
    ensures match TokenOf(c, bits)
      case Next(x, rest) => if Borrows(c, x) then ReadItem(c.lit, c.off, bits) == Bad
        else ReadItem(c.lit, c.off, bits) == Got(x, rest)
      case BlockEnd(rest) => ReadItem(c.lit, c.off, bits) == Stop(rest)
      case NoToken(_) => ReadItem(c.lit, c.off, bits) == Bad || |bits| < c.ask
  {
    hide DecodeTo, Single, FixedOff, Empty, NineBits, MatchOf, ReadDist;
    var r := DecodeSym(c.lit, bits);
    if |bits| >= c.ask && r.Some? && FIRST_LENGTH <= r.value < MAX_LIT {
      var n := LengthExtra(r.value - FIRST_LENGTH);
      var rest := bits[c.lit[r.value]..];
      if |rest| >= n {
        MatchAgrees(c, LengthBase(r.value - FIRST_LENGTH) + ValueOf(rest[..n]) + MIN_MATCH, rest[n..]);
      }
    }
  }

  // ---------------------------------------------------------------------------------------------
  // Headers.
  // ---------------------------------------------------------------------------------------------

  /** What the format gives after a step. */
  function LengthsFrom(cl: seq<nat>, r: LensRead, n: nat): Option<(seq<nat>, seq<bool>)>
    requires |cl| == CODEGEN_CODES
  {
    match r
    case BadLens(_) => None
    case AllLens(acc, rest) => ReadLengths(cl, rest, n, acc)
  }

  lemma LengthsUnfold(cl: seq<nat>, bits: seq<bool>, n: nat, acc: seq<nat>)
    requires |cl| == CODEGEN_CODES && !Empty(cl)
    ensures |acc| >= n ==> ReadLengths(cl, bits, n, acc) == Some((acc, bits))
    ensures |acc| < n ==> ReadLengths(cl, bits, n, acc) == LengthsFrom(cl, LengthStep(cl, [], bits, n, acc), n)
  {
    hide DecodeTo, Single, Empty, ValueOf;
    var r := DecodeSym(cl, bits);
    if r.Some? && r.value < 16 {
      var rest := bits[cl[r.value]..];
      assert rest[0..] == rest;
    }
  }

  lemma {:induction false} LengthsAgree(cl: seq<nat>, last: seq<nat>, bits: seq<bool>, n: nat, acc: seq<nat>)
    requires |cl| == CODEGEN_CODES && !Empty(cl)
    ensures ReadLengths(cl, bits, n, acc) ==
      match LengthsOf(cl, last, bits, n, acc)
      case BadLens(_) => None
      case AllLens(all, rest) => Some((all, rest))
    decreases n - |acc|
  {
    hide ReadLengths, InTables, Empty, RunOf;
    LengthsUnfold(cl, bits, n, acc);
    if |acc| < n {
      OwnCode(cl, last, bits);
      var r := LengthStep(cl, last, bits, n, acc);
      if r.AllLens? { LengthsAgree(cl, last, r.rest, n, r.acc); }
    }
  }

  lemma OwnCode(lens: seq<nat>, last: seq<nat>, bits: seq<bool>)
    requires !Empty(lens)
    ensures InTables(lens, last, bits) == InTables(lens, [], bits)
  {
  }

  lemma EmptyLengths(cl: seq<nat>, bits: seq<bool>, n: nat)
    requires Empty(cl) && |cl| == CODEGEN_CODES && n > 0
    ensures ReadLengths(cl, bits, n, []) == None
  {
    EmptyDecodes(cl, bits, |cl|);
  }

  /** A header declares what the format says, unless its code length code is empty. */
  lemma HeaderAgrees(bits: seq<bool>, last: seq<nat>)
    ensures match HeaderOf(bits, last)
      case NoHeader(_) => ReadHeader(bits) == None
      case Declares(lit, off, cl, rest) =>
        if Empty(cl) then ReadHeader(bits) == None else ReadHeader(bits) == Some((lit, off, rest))
  {
    hide LengthsOf, ReadLengths, Acceptable, SetLens, ValueOf, Empty;
    if |bits| >= 14 {
      FieldValues(bits);
      var nlit, ndist, nclen := ValueOf(bits[..5]) + 257, ValueOf(bits[5..10]) + 1, ValueOf(bits[10..14]) + 4;
      if |bits| >= 14 + 3 * nclen {
        var cl := SetLens(bits[14..], nclen);
        assert bits[14..][3 * nclen..] == bits[14 + 3 * nclen..];
        if Empty(cl) {
          EmptyLengths(cl, bits[14 + 3 * nclen..], nlit + ndist);
        } else {
          LengthsAgree(cl, last, bits[14 + 3 * nclen..], nlit + ndist, []);
        }
      }
    }
  }

  // ---------------------------------------------------------------------------------------------
  // Blocks.
  // ---------------------------------------------------------------------------------------------

  lemma {:induction false} BodyAgrees(c: Codes, bits: seq<bool>, h: seq<byte>, final: bool)
    requires Asks(c, final) && !Empty(c.lit)
    ensures Agree(BodyOf(c, bits, h, final, false), FromItems(c.lit, c.off, bits, h, final))
    decreases |bits|, 2
  {
    hide TokenOf, ReadItem, Valid, Apply, AfterBlock, After, Empty, FixedLit, FixedOff, ShortestTo;
    TokenShorter(c, bits);
    TokenAgrees(c, bits);
    match TokenOf(c, bits)
    case NoToken(_) =>
      if FromItems(c.lit, c.off, bits, h, final).Some? {
        ItemsRemain(c.lit, c.off, bits, h, final);
        if c.fixed { FixedEnd7(bits); } else { AskIs(c.lit, final); }
      }
    case BlockEnd(rest) =>
      AfterAgrees(rest, h, final, TablesAfter(c));
    case Next(x, rest) =>
      if Valid(h, x) {
        if Borrows(c, x) {
          BodyBorrows(c, rest, Apply(h, x), final);
        } else {
          BodyAgrees(c, rest, Apply(h, x), final);
        }
      }
  }

  lemma {:induction false} AfterAgrees(bits: seq<bool>, h: seq<byte>, final: bool, t: Tables)
    ensures Agree(AfterBlock(bits, h, final, t, false), After(bits, h, final))
    decreases |bits|, 1
  {
    hide StreamOf, ReadStream;
    if !final { StreamAgrees(bits, h, t); }
  }

  lemma {:induction false} StoredAgrees(bits: seq<bool>, h: seq<byte>, final: bool, t: Tables)
    ensures Agree(StoredBlockOf(bits, h, final, t, false), FromStoredBlock(bits, h, final))
    decreases |bits|, 3
  {
    hide AfterBlock, After, ValueOf, BytesOf, Agree;
    var p := |bits| % 8;
    if |bits| >= p + 32 {
      var n: int, rest := ValueOf(bits[p..p + 16]), bits[p + 32..];
      LengthFits(bits[p..p + 16]);
      if |rest| >= 8 * n { AfterAgrees(rest[8 * n..], h + BytesOf(rest[..8 * n]), final, t); }
    }
    NoneAgree();
  }

  lemma LengthFits(b: seq<bool>)
    requires |b| == 16
    ensures ValueOf(b) <= MAX_STORED
  {
    Pow2Values();
  }

  lemma NoneAgree()
    ensures forall g, e :: Agree(Failed(g, e), None)
  {
  }

  lemma {:induction false} DynamicAgrees(bits: seq<bool>, h: seq<byte>, final: bool, t: Tables)
    ensures Agree(DynamicOf(bits, h, final, t, false), FromBlock(2, bits, h, final))
    decreases |bits|, 3
  {
    hide BodyOf, HeaderOf, ReadHeader, FromItems, AskFor, Empty;
    HeaderShorter(bits, t.lit);
    HeaderAgrees(bits, t.lit);
    var d := HeaderOf(bits, t.lit);
    if d.Declares? {
      var c := DeclaredCodes(d, t, final);
      if Empty(d.cl) || Empty(d.lit) {
        BodyBorrows(c, d.rest, h, final);
        if Empty(d.lit) { EmptyItems(d.lit, d.off, d.rest, h, final); }
      } else {
        BodyAgrees(c, d.rest, h, final);
      }
    }
  }

  lemma EmptyItems(lit: seq<nat>, off: seq<nat>, bits: seq<bool>, h: seq<byte>, final: bool)
    requires Empty(lit)
    ensures FromItems(lit, off, bits, h, final) == None
  {
    EmptyDecodes(lit, bits, |lit|);
  }

  /** A stream comes out as the format says; and what comes out with the end reached, and no empty code read,
      was a stream. */
  lemma {:induction false} StreamAgrees(bits: seq<bool>, h: seq<byte>, t: Tables)
    ensures Agree(StreamOf(bits, h, t, false), ReadStream(bits, h))
    decreases |bits|, 0
  {
    hide BodyOf, StoredBlockOf, DynamicOf, ReadStream, FromStoredBlock, FromItems, ReadHeader, ValueOf, FixedLit,
         FixedOff;
    if |bits| < 3 {
      ShortStream(bits, h);
    } else {
      var rest, typ, final := bits[3..], ValueOf(bits[1..][..2]), ValueOf(bits[..1]) == 1;
      StreamUnfold(bits, h);
      FixedNotEmpty();
      if typ == 0 {
        StoredAgrees(rest, h, final, t);
      } else if typ == 1 {
        BodyAgrees(FixedCodes(t), rest, h, final);
      } else if typ == 2 {
        DynamicAgrees(rest, h, final, t);
      }
    }
  }

  lemma ShortStream(bits: seq<bool>, h: seq<byte>)
    requires |bits| < 3
    ensures ReadStream(bits, h) == None
  {
  }

  // ---------------------------------------------------------------------------------------------
  // Where a plain end of input is reported.
  // ---------------------------------------------------------------------------------------------

  /** The input ends inside a distance of the fixed code, or inside the extra bits of a distance. */
  predicate CutDistance(c: Codes, bits: seq<bool>) {
    if c.fixed && |bits| < 5 then true
    else
      match DistOf(c, bits)
      case Found(d, rest) => d < MAX_DIST_CODES && |rest| < OffsetExtra(d)
      case _ => false
  }

  /** The input ends inside the extra bits of a length, or inside such a distance: where the reader takes the end
      of the input for the end of the stream. */
  predicate CutOff(c: Codes, bits: seq<bool>) {
    match AskedSymbol(c.lit, c.was.lit, c.ask, bits)
    case Found(s, rest) =>
      FIRST_LENGTH <= s < MAX_LIT &&
      var n := LengthExtra(s - FIRST_LENGTH);
      (|rest| < n || CutDistance(c, rest[n..]))
    case _ => false
  }

  lemma {:induction false} FixedDistances(bits: seq<bool>)
    ensures DecodeSym(FixedOff(), bits).Some? <==> |bits| >= 5
  {
    hide FixedOff, Complete, CodeOf, CodeBits, DecodeTo;
    SymbolShorter(FixedOff(), bits);
    assert forall s :: 0 <= s < 32 ==> FixedOff()[s] == 5;
    if |bits| >= 5 {
      FixedOffComplete();
      var w := bits[..5] + seq(MAX_BITS - 5, _ => false);
      var s := FindSymbol(FixedOff(), w);
      assert SymBits(FixedOff(), s) == w[..5] == bits[..5];
      CompleteFits(FixedOff());
      DecodeEncode(FixedOff(), s, bits);
    }
  }

  /** A token is taken for the end of the stream exactly if the input is cut off there. */
  lemma CutIsEof(c: Codes, bits: seq<bool>)
    ensures TokenOf(c, bits) == NoToken(Eof) <==> CutOff(c, bits)
  {
    hide InTables, FixedOff, DecodeTo, ValueOf;
    var r := AskedSymbol(c.lit, c.was.lit, c.ask, bits);
    if r.Found? && FIRST_LENGTH <= r.v < MAX_LIT {
      var n := LengthExtra(r.v - FIRST_LENGTH);
      if |r.rest| >= n { FixedDistances(r.rest[n..]); }
    }
  }

  /** The token that decoding stops at: the codes of its block, and the bits from it on. None if it stops
      elsewhere. */
  function AfterStop(bits: seq<bool>, h: seq<byte>, final: bool, t: Tables): Option<(Codes, seq<bool>)>
    decreases |bits|, 1
  {
    if final then None else StreamStop(bits, h, t)
  }

  function BodyStop(c: Codes, bits: seq<bool>, h: seq<byte>, final: bool): Option<(Codes, seq<bool>)>
    decreases |bits|, 2
  {
    TokenShorter(c, bits);
    match TokenOf(c, bits)
    case NoToken(_) => Some((c, bits))
    case BlockEnd(rest) => AfterStop(rest, h, final, TablesAfter(c))
    case Next(x, rest) => if Valid(h, x) then BodyStop(c, rest, Apply(h, x), final) else None
  }

  function StoredStop(bits: seq<bool>, h: seq<byte>, final: bool, t: Tables): Option<(Codes, seq<bool>)>
    decreases |bits|, 2
  {
    match StoredLen(bits)
    case None => None
    case Some(n) =>
      var data := bits[|bits| % 8 + 32..];
      if |data| < 8 * n then None else AfterStop(data[8 * n..], h + BytesOf(data[..8 * n]), final, t)
  }

  function DynamicStop(bits: seq<bool>, h: seq<byte>, final: bool, t: Tables): Option<(Codes, seq<bool>)>
    decreases |bits|, 3
  {
    HeaderShorter(bits, t.lit);
    match HeaderOf(bits, t.lit)
    case NoHeader(_) => None
    case Declares(_, _, _, rest) => BodyStop(DeclaredCodes(HeaderOf(bits, t.lit), t, final), rest, h, final)
  }

  function StreamStop(bits: seq<bool>, h: seq<byte>, t: Tables): Option<(Codes, seq<bool>)>
    decreases |bits|, 0
  {
    if |bits| < 3 then None
    else
      var typ, rest, final := ValueOf(bits[1..][..2]), bits[3..], ValueOf(bits[..1]) == 1;
      if typ == 0 then StoredStop(rest, h, final, t)
      else if typ == 1 then BodyStop(FixedCodes(t), rest, h, final)
      else if typ == 2 then DynamicStop(rest, h, final, t)
      else None
  }

  /** The end of the input is taken for the end of the stream, in a token that is cut off. */
  predicate EofByCut(f: Fate, stop: Option<(Codes, seq<bool>)>) {
    (f.Failed? && f.e == Eof) <==> (stop.Some? && CutOff(stop.value.0, stop.value.1))
  }

  lemma {:induction false} BodyEof(c: Codes, bits: seq<bool>, h: seq<byte>, final: bool, borrowed: bool)
    ensures EofByCut(BodyOf(c, bits, h, final, borrowed), BodyStop(c, bits, h, final))
    decreases |bits|, 2
  {
    hide TokenOf, Valid, Apply, AfterBlock, CutOff, Borrows;
    TokenShorter(c, bits);
    match TokenOf(c, bits)
    case NoToken(_) => CutIsEof(c, bits);
    case BlockEnd(rest) => AfterEof(rest, h, final, TablesAfter(c), borrowed);
    case Next(x, rest) =>
      if Valid(h, x) { BodyEof(c, rest, Apply(h, x), final, borrowed || Borrows(c, x)); }
  }

  lemma {:induction false} AfterEof(bits: seq<bool>, h: seq<byte>, final: bool, t: Tables, borrowed: bool)
    ensures EofByCut(AfterBlock(bits, h, final, t, borrowed), AfterStop(bits, h, final, t))
    decreases |bits|, 1
  {
    hide StreamOf, StreamStop, CutOff;
    if !final { StreamEof(bits, h, t, borrowed); }
  }

  lemma {:induction false} StoredEof(bits: seq<bool>, h: seq<byte>, final: bool, t: Tables, borrowed: bool)
    ensures EofByCut(StoredBlockOf(bits, h, final, t, borrowed), StoredStop(bits, h, final, t))
    decreases |bits|, 3
  {
    hide AfterBlock, AfterStop, ValueOf, BytesOf, CutOff;
    var p := |bits| % 8;
    if |bits| >= p + 32 {
      var n: int, rest := ValueOf(bits[p..p + 16]), bits[p + 32..];
      LengthFits(bits[p..p + 16]);
      if |rest| >= 8 * n { AfterEof(rest[8 * n..], h + BytesOf(rest[..8 * n]), final, t, borrowed); }
    }
  }

  lemma {:induction false} DynamicEof(bits: seq<bool>, h: seq<byte>, final: bool, t: Tables, borrowed: bool)
    ensures EofByCut(DynamicOf(bits, h, final, t, borrowed), DynamicStop(bits, h, final, t))
    decreases |bits|, 3
  {
    hide BodyOf, BodyStop, HeaderOf, DeclaredCodes, CutOff;
    HeaderShorter(bits, t.lit);
    var d := HeaderOf(bits, t.lit);
    if d.Declares? {
      BodyEof(DeclaredCodes(d, t, final), d.rest, h, final, borrowed || Empty(d.cl) || Empty(d.lit));
    }
  }

  /** On any input, the end of the input is taken for the end of the stream exactly if decoding stops at a token
      that is cut off in this way. */
  lemma {:induction false} StreamEof(bits: seq<bool>, h: seq<byte>, t: Tables, borrowed: bool)
    ensures EofByCut(StreamOf(bits, h, t, borrowed), StreamStop(bits, h, t))
    decreases |bits|, 0
  {
    hide BodyOf, BodyStop, StoredBlockOf, StoredStop, DynamicOf, DynamicStop, ValueOf, FixedLit, FixedOff, CutOff;
    if |bits| >= 3 {
      var rest, final := bits[3..], ValueOf(bits[..1]) == 1;
      StoredEof(rest, h, final, t, borrowed);
      BodyEof(FixedCodes(t), rest, h, final, borrowed);
      DynamicEof(rest, h, final, t, borrowed);
    }
  }
}
