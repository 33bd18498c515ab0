/** What the decoder makes of any input: the bytes it gives and the error it ends with, whether the input
    is a stream or not. */
module ReadSpec {
  import opened Words
  import opened Canon
  import opened HuffmanDecoder
  import opened Lz
  import opened LzCodes
  import opened Format
  import opened Codegen
  import opened Header
  import opened BitReader
  import opened Blocks
  import opened InflateSpec

  datatype Err = NoError | Eof | UnexpectedEof | CorruptInput | InternalError

  /** The code that lookups go to: an empty one leaves the last one in the tables. */
  function InUse(lens: seq<nat>, last: seq<nat>): seq<nat> {
    if Empty(lens) then last else lens
  }

  /** The last codes that the two tables were made for; empty before the first. */
  datatype Tables = Tables(lit: seq<nat>, off: seq<nat>)

  /** The codes of a block, what was in the tables before them, and how many bits are asked for at once
      for a literal or length. */
  datatype Codes = Codes(fixed: bool, lit: seq<nat>, off: seq<nat>, was: Tables, ask: nat)

  /** What is in the tables after a block. */
  function TablesAfter(c: Codes): Tables {
    if c.fixed then c.was else Tables(InUse(c.lit, c.was.lit), InUse(c.off, c.was.off))
  }

  function FixedCodes(t: Tables): Codes {
    Codes(true, FixedLit(), FixedOff(), t, 7)
  }

  // ---------------------------------------------------------------------------------------------
  // Tokens.
  // ---------------------------------------------------------------------------------------------

  /** A literal or a match; the end of the block; or an error. */
  datatype TokenRead = Next(x: Item, rest: seq<bool>) | BlockEnd(rest: seq<bool>) | NoToken(e: Err)

  /** The symbol of a distance. Five bits that are not there count as the end of the stream. */
  function DistOf(c: Codes, bits: seq<bool>): SymRead {
    if c.fixed then
      (match DecodeSym(FixedOff(), bits)
       case None => NoMore
       case Some(d) => Found(d, bits[FixedOff()[d]..]))
    else InTables(c.off, c.was.off, bits)
  }

  /** A distance, after its length. Extra bits that are not there count as the end of the stream. */
  function MatchOf(c: Codes, len: nat, bits: seq<bool>): (r: TokenRead)
    ensures !r.BlockEnd? && (r.Next? ==> r.x.Copy? && r.x.len == len && r.x.dist >= 1)
  {
    match DistOf(c, bits)
    case NoMore => NoToken(if c.fixed then Eof else UnexpectedEof)
    case NoCode => NoToken(CorruptInput)
    case Found(d, rest) =>
      if d >= MAX_DIST_CODES then NoToken(CorruptInput)
      else if |rest| < OffsetExtra(d) then NoToken(Eof)
      else Next(Copy(len, OffsetBase(d) + ValueOf(rest[..OffsetExtra(d)]) + 1), rest[OffsetExtra(d)..])
  }

  /** A match, after its length code. Extra bits that are not there count as the end of the stream. */
  function LengthOf(c: Codes, l: nat, bits: seq<bool>): (r: TokenRead)
    requires l < MAX_LIT - FIRST_LENGTH
    ensures !r.BlockEnd? && (r.Next? ==> r.x.Copy? && r.x.dist >= 1)
  {
    var n := LengthExtra(l);
    if |bits| < n then NoToken(Eof) else MatchOf(c, LengthBase(l) + ValueOf(bits[..n]) + MIN_MATCH, bits[n..])
  }

  function TokenOf(c: Codes, bits: seq<bool>): TokenRead {
    match AskedSymbol(c.lit, c.was.lit, c.ask, bits)
    case NoMore => NoToken(UnexpectedEof)
    case NoCode => NoToken(CorruptInput)
    case Found(s, rest) =>
      if s < END_OF_BLOCK then Next(Lit(s), rest)
      else if s == END_OF_BLOCK then BlockEnd(rest)
      else if s >= MAX_LIT then NoToken(CorruptInput)
      else LengthOf(c, s - FIRST_LENGTH, rest)
  }

  // ---------------------------------------------------------------------------------------------
  // Headers.
  // ---------------------------------------------------------------------------------------------

  datatype LensRead = AllLens(acc: seq<nat>, rest: seq<bool>) | BadLens(e: Err)

  /** n lengths, the first of them being acc. */
  function LengthsOf(cl: seq<nat>, last: seq<nat>, bits: seq<bool>, n: nat, acc: seq<nat>): (r: LensRead)
    ensures if r.AllLens? then |acc| <= n ==> |r.acc| == n else r.e != Eof
    decreases n - |acc|
  {
    if |acc| >= n then AllLens(acc, bits)
    else
      match LengthStep(cl, last, bits, n, acc)
      case BadLens(e) => BadLens(e)
      case AllLens(more, rest) => LengthsOf(cl, last, rest, n, more)
  }

  /** The next length, or the next run of them. */
  function LengthStep(cl: seq<nat>, last: seq<nat>, bits: seq<bool>, n: nat, acc: seq<nat>): (r: LensRead)
    requires |acc| < n
    ensures if r.AllLens? then |acc| < |r.acc| <= n else r.e != Eof
  {
    match InTables(cl, last, bits)
    case NoMore => BadLens(UnexpectedEof)
    case NoCode => BadLens(CorruptInput)
    case Found(s, rest) => if s < 16 then AllLens(acc + [s], rest) else RunOf(s, acc, n, rest)
  }

  function RunOf(s: nat, acc: seq<nat>, n: nat, bits: seq<bool>): (r: LensRead)
    requires s >= 16
    ensures if r.AllLens? then |acc| < |r.acc| <= n else r.e != Eof
  {
    if s > 18 then BadLens(InternalError)
    else if s == 16 && acc == [] then BadLens(CorruptInput)
    else if |bits| < ExtraBits(s) then BadLens(UnexpectedEof)
    else
      var run := RunLengths(s, acc, ValueOf(bits[..ExtraBits(s)]));
      if |acc| + |run| > n then BadLens(CorruptInput) else AllLens(acc + run, bits[ExtraBits(s)..])
  }

  /** The codes that a header declares, the code length code among them. */
  datatype HeaderRead =
    | Declares(lit: seq<nat>, off: seq<nat>, cl: seq<nat>, rest: seq<bool>)
    | NoHeader(e: Err)

  /** The header after its first fields. */
  function LengthsHeader(nlit: nat, ndist: nat, nclen: nat, bits: seq<bool>, last: seq<nat>): (r: HeaderRead)
    requires nclen <= CODEGEN_CODES
    ensures if r.Declares? then |r.lit| == nlit && |r.off| == ndist else r.e != Eof
    ensures r.Declares? ==> Acceptable(r.lit) && Acceptable(r.off) && Acceptable(r.cl)
  {
    if nlit > MAX_LIT || ndist > MAX_DIST_CODES then NoHeader(CorruptInput)
    else if |bits| < 3 * nclen then NoHeader(UnexpectedEof)
    else
      var cl := SetLens(bits, nclen);
      if !Acceptable(cl) then NoHeader(CorruptInput)
      else
        match LengthsOf(cl, last, bits[3 * nclen..], nlit + ndist, [])
        case BadLens(e) => NoHeader(e)
        case AllLens(acc, rest) =>
          if Acceptable(acc[..nlit]) && Acceptable(acc[nlit..]) then Declares(acc[..nlit], acc[nlit..], cl, rest)
          else NoHeader(CorruptInput)
  }

  function HeaderOf(bits: seq<bool>, last: seq<nat>): (r: HeaderRead)
    ensures if r.Declares? then |r.lit| > END_OF_BLOCK && Acceptable(r.lit) && Acceptable(r.off) && Acceptable(r.cl)
      else r.e != Eof
  {
    if |bits| < 14 then NoHeader(UnexpectedEof)
    else
      FieldValues(bits);
      LengthsHeader(ValueOf(bits[..5]) + 257, ValueOf(bits[5..10]) + 1, ValueOf(bits[10..14]) + 4, bits[14..], last)
  }

  /** The shortest length among the first k, 0 if there is none. */
  function ShortestTo(lens: seq<nat>, k: nat): nat
    requires k <= |lens|
  {
    if k == 0 then 0
    else
      var m := ShortestTo(lens, k - 1);
      if lens[k - 1] == 0 || 0 < m <= lens[k - 1] then m else lens[k - 1]
  }

  /** How many bits are asked for at once for a literal or length: as many as the end of the block has,
      and ten more when another block must follow. */
  function AskFor(lit: seq<nat>, final: bool): nat
    requires |lit| > END_OF_BLOCK
  {
    var m := ShortestTo(lit, |lit|);
    (if m < lit[END_OF_BLOCK] then lit[END_OF_BLOCK] else m) + if final then 0 else 10
  }

  function DeclaredCodes(d: HeaderRead, t: Tables, final: bool): Codes
    requires d.Declares? && |d.lit| > END_OF_BLOCK
  {
    Codes(false, d.lit, d.off, Tables(InUse(d.cl, t.lit), t.off), AskFor(d.lit, final))
  }

  // ---------------------------------------------------------------------------------------------
  // Blocks.
  // ---------------------------------------------------------------------------------------------

  /** All bytes there are in the end, those before the stream included; and what follows the stream, and
      whether an empty code was read with the tables of an earlier one, or the error. */
  datatype Fate = Done(h: seq<byte>, rest: seq<bool>, borrowed: bool) | Failed(h: seq<byte>, e: Err)

  /** The error that reading ends with. */
  function EndOf(f: Fate): Err {
    if f.Done? then Eof else f.e
  }

  lemma TokenShorter(c: Codes, bits: seq<bool>)
    ensures var r := TokenOf(c, bits); !r.NoToken? ==> |r.rest| < |bits|
  {
    hide DecodeTo, Single, Empty;
    var r := AskedSymbol(c.lit, c.was.lit, c.ask, bits);
    SymbolTakes(c.lit, c.was.lit, bits);
    if r.Found? && FIRST_LENGTH <= r.v < MAX_LIT {
      var n := LengthExtra(r.v - FIRST_LENGTH);
      if |r.rest| >= n { SymbolTakes(c.off, c.was.off, r.rest[n..]); }
    }
  }

  lemma SymbolTakes(lens: seq<nat>, last: seq<nat>, bits: seq<bool>)
    ensures var r := InTables(lens, last, bits); r.Found? ==> |r.rest| < |bits|
  {
    hide DecodeTo, Single, Empty, SymBits;
    SymbolShorter(lens, bits);
  }

  lemma {:induction false} LengthsShorter(cl: seq<nat>, last: seq<nat>, bits: seq<bool>, n: nat, acc: seq<nat>)
    ensures var r := LengthsOf(cl, last, bits, n, acc); r.AllLens? ==> |r.rest| <= |bits|
    decreases n - |acc|
  {
    hide InTables, RunLengths;
    if |acc| < n {
      SymbolTakes(cl, last, bits);
      var r := LengthStep(cl, last, bits, n, acc);
      if r.AllLens? { LengthsShorter(cl, last, r.rest, n, r.acc); }
    }
  }

  lemma HeaderShorter(bits: seq<bool>, last: seq<nat>)
    ensures var r := HeaderOf(bits, last); r.Declares? ==> |r.rest| + 14 <= |bits|
  {
    hide LengthsOf, Acceptable, SetLens, ValueOf;
    if |bits| >= 14 {
      FieldValues(bits);
      var nlit, ndist, nclen := ValueOf(bits[..5]) + 257, ValueOf(bits[5..10]) + 1, ValueOf(bits[10..14]) + 4;
      if |bits[14..]| >= 3 * nclen {
        LengthsShorter(SetLens(bits[14..], nclen), last, bits[14..][3 * nclen..], nlit + ndist, []);
      }
    }
  }

  /** After the end of a block. */
  function AfterBlock(bits: seq<bool>, h: seq<byte>, final: bool, t: Tables, borrowed: bool): Fate
    decreases |bits|, 1
  {
    if final then Done(h, bits, borrowed) else StreamOf(bits, h, t, borrowed)
  }

  /** From inside a block with these codes. */
  function BodyOf(c: Codes, bits: seq<bool>, h: seq<byte>, final: bool, borrowed: bool): Fate
    decreases |bits|, 2
  {
    TokenShorter(c, bits);
    match TokenOf(c, bits)
    case NoToken(e) => Failed(h, e)
    case BlockEnd(rest) => AfterBlock(rest, h, final, TablesAfter(c), borrowed)
    case Next(x, rest) =>
      if Valid(h, x) then BodyOf(c, rest, Apply(h, x), final, borrowed || Borrows(c, x)) else Failed(h, CorruptInput)
  }

  /** The distance of an item was read with what an earlier code had left. */
  predicate Borrows(c: Codes, x: Item) {
    x.Copy? && !c.fixed && Empty(c.off)
  }

  /** From inside a stored block with n bytes to go. */
  function StoredOf(n: nat, bits: seq<bool>, h: seq<byte>, final: bool, t: Tables, borrowed: bool): Fate
    decreases |bits|, 2
  {
    if |bits| < 8 * n then Failed(h + BytesOf(bits), UnexpectedEof)
    else AfterBlock(bits[8 * n..], h + BytesOf(bits[..8 * n]), final, t, borrowed)
  }

  /** A stored block, from its length on. */
  function StoredBlockOf(bits: seq<bool>, h: seq<byte>, final: bool, t: Tables, borrowed: bool): Fate
    decreases |bits|, 3
  {
    var p := |bits| % 8;
    if |bits| < p + 32 then Failed(h, UnexpectedEof)
    else
      var n, m := ValueOf(bits[p..p + 16]), ValueOf(bits[p + 16..p + 32]);
      if m != MAX_STORED - n then Failed(h, CorruptInput)
      else StoredOf(n, bits[p + 32..], h, final, t, borrowed)
  }

  /** A block with codes of its own, from its header on. */
  function DynamicOf(bits: seq<bool>, h: seq<byte>, final: bool, t: Tables, borrowed: bool): Fate
    decreases |bits|, 3
  {
    HeaderShorter(bits, t.lit);
    match HeaderOf(bits, t.lit)
    case NoHeader(e) => Failed(h, e)
    case Declares(lit, off, cl, rest) =>
      BodyOf(DeclaredCodes(HeaderOf(bits, t.lit), t, final), rest, h, final, borrowed || Empty(cl) || Empty(lit))
  }

  /** A block after its opening bits. */
  function BlockOf(typ: nat, bits: seq<bool>, h: seq<byte>, final: bool, t: Tables, borrowed: bool): Fate
    decreases |bits|, 4
  {
    if typ == 0 then StoredBlockOf(bits, h, final, t, borrowed)
    else if typ == 1 then BodyOf(FixedCodes(t), bits, h, final, borrowed)
    else if typ == 2 then DynamicOf(bits, h, final, t, borrowed)
    else Failed(h, CorruptInput)
  }

  /** All that the decoder gives for these bits, after the history h. */
  function StreamOf(bits: seq<bool>, h: seq<byte>, t: Tables, borrowed: bool): Fate
    decreases |bits|, 0
  {
    if |bits| < 3 then Failed(h, UnexpectedEof)
    else BlockOf(ValueOf(bits[1..][..2]), bits[3..], h, ValueOf(bits[..1]) == 1, t, borrowed)
  }

  // ---------------------------------------------------------------------------------------------
  // How much at least remains.
  // ---------------------------------------------------------------------------------------------

  lemma {:induction false} ShortestIs(lens: seq<nat>, k: nat, s: nat)
    requires s < k <= |lens| && lens[s] > 0
    ensures 0 < ShortestTo(lens, k) <= lens[s]
  {
    if s < k - 1 { ShortestIs(lens, k - 1, s); }
  }

  lemma {:induction false} ShortestAmong(lens: seq<nat>, k: nat)
    requires k <= |lens|
    ensures ShortestTo(lens, k) == 0 || exists s :: 0 <= s < k && lens[s] == ShortestTo(lens, k)
  {
    if k > 0 { ShortestAmong(lens, k - 1); }
  }

  /** The bits asked for are those of the codes. */
  predicate Asks(c: Codes, final: bool) {
    if c.fixed then c == FixedCodes(c.was) else |c.lit| > END_OF_BLOCK && c.ask == AskFor(c.lit, final)
  }

  lemma AskIs(lit: seq<nat>, final: bool)
    requires |lit| > END_OF_BLOCK
    ensures Used(lit, END_OF_BLOCK) ==> AskFor(lit, final) == lit[END_OF_BLOCK] + if final then 0 else 10
    ensures Empty(lit) ==> AskFor(lit, final) == if final then 0 else 10
  {
    ShortestAmong(lit, |lit|);
    if Used(lit, END_OF_BLOCK) { ShortestIs(lit, |lit|, END_OF_BLOCK); }
  }

  /** The end of a block takes as many bits as were asked for in its own cause. */
  lemma EndTakes(c: Codes, bits: seq<bool>, final: bool)
    requires Asks(c, final)
    ensures var r := TokenOf(c, bits); r.BlockEnd? ==> |r.rest| + c.ask <= |bits| + if final || c.fixed then 0 else 10
  {
    hide DecodeTo, Single, Empty, ShortestTo, FixedLit, FixedOff, NineBits, LengthOf;
    FixedEnd7(bits);
    FixedNotEmpty();
    SymbolShorter(c.lit, bits);
    if !c.fixed { AskIs(c.lit, final); }
  }

  lemma FixedNotEmpty()
    ensures !Empty(FixedLit()) && !Empty(FixedOff())
  {
    assert FixedLit()[0] == 8 && FixedOff()[0] == 5;
  }

  /** Decoding only adds to the history; inside a block, what was asked for is there before the stream's end. */
  lemma {:induction false} BodyTakes(c: Codes, bits: seq<bool>, h: seq<byte>, final: bool, borrowed: bool)
    ensures var f := BodyOf(c, bits, h, final, borrowed);
      && h <= f.h
      && (f.Done? ==> |f.rest| < |bits|)
      && (f.Done? && Asks(c, final) ==> |f.rest| + c.ask <= |bits|)
    decreases |bits|, 2
  {
    hide TokenOf, Valid, Apply, Asks, AfterBlock;
    TokenShorter(c, bits);
    match TokenOf(c, bits)
    case NoToken(_) =>
    case BlockEnd(rest) =>
      AfterTakes(rest, h, final, TablesAfter(c), borrowed);
      if Asks(c, final) { EndTakes(c, bits, final); }
    case Next(x, rest) =>
      if Valid(h, x) { BodyTakes(c, rest, Apply(h, x), final, borrowed || Borrows(c, x)); }
  }

  lemma {:induction false} AfterTakes(bits: seq<bool>, h: seq<byte>, final: bool, t: Tables, borrowed: bool)
    ensures var f := AfterBlock(bits, h, final, t, borrowed);
      h <= f.h && (f.Done? ==> |f.rest| + (if final then 0 else 10) <= |bits|)
    decreases |bits|, 1
  {
    hide StreamOf;
    if !final { StreamTakes(bits, h, t, borrowed); }
  }

  lemma {:induction false} StoredTakes(n: nat, bits: seq<bool>, h: seq<byte>, final: bool, t: Tables, borrowed: bool)
    ensures var f := StoredOf(n, bits, h, final, t, borrowed);
      h <= f.h && (f.Done? ==> |f.rest| + 8 * n <= |bits|)
    decreases |bits|, 2
  {
    hide AfterBlock, BytesOf;
    if |bits| >= 8 * n { AfterTakes(bits[8 * n..], h + BytesOf(bits[..8 * n]), final, t, borrowed); }
  }

  lemma {:induction false} StoredBlockTakes(bits: seq<bool>, h: seq<byte>, final: bool, t: Tables, borrowed: bool)
    ensures var f := StoredBlockOf(bits, h, final, t, borrowed);
      h <= f.h && (f.Done? ==> |f.rest| + 32 <= |bits|)
    decreases |bits|, 3
  {
    hide StoredOf, ValueOf;
    var p := |bits| % 8;
    if |bits| >= p + 32 {
      var n: int, m: int := ValueOf(bits[p..p + 16]), ValueOf(bits[p + 16..p + 32]);
      if m == MAX_STORED - n { StoredTakes(n, bits[p + 32..], h, final, t, borrowed); }
    }
  }

  lemma {:induction false} DynamicTakes(bits: seq<bool>, h: seq<byte>, final: bool, t: Tables, borrowed: bool)
    ensures var f := DynamicOf(bits, h, final, t, borrowed);
      h <= f.h && (f.Done? ==> |f.rest| + 14 <= |bits|)
    decreases |bits|, 3
  {
    hide BodyOf, HeaderOf, DeclaredCodes;
    HeaderShorter(bits, t.lit);
    var d := HeaderOf(bits, t.lit);
    if d.Declares? {
      BodyTakes(DeclaredCodes(d, t, final), d.rest, h, final, borrowed || Empty(d.cl) || Empty(d.lit));
    }
  }

  /** A stream is at least ten bits: its shortest block is an empty one with the fixed code. */
  lemma {:induction false} StreamTakes(bits: seq<bool>, h: seq<byte>, t: Tables, borrowed: bool)
    ensures var f := StreamOf(bits, h, t, borrowed);
      h <= f.h && (f.Done? ==> |f.rest| + 10 <= |bits|)
    decreases |bits|, 0
  {
    hide BodyOf, StoredBlockOf, DynamicOf, ValueOf;
    if |bits| >= 3 {
      var rest, final := bits[3..], ValueOf(bits[..1]) == 1;
      StoredBlockTakes(rest, h, final, t, borrowed);
      BodyTakes(FixedCodes(t), rest, h, final, borrowed);
      DynamicTakes(rest, h, final, t, borrowed);
    }
  }
}
