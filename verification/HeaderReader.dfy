/** Reading a dynamic header from the accumulator, with the tables for its run-length codes and then
    for its two codes. */
module HeaderReader {
  import opened Words
  import opened Canon
  import opened DecoderTable
  import opened HuffmanDecoder
  import opened Lz
  import opened LzCodes
  import opened Format
  import opened Codegen
  import opened Header
  import opened BitReader
  import opened Blocks
  import opened ReadSpec

  /** What reading a symbol reports. */
  function SymbolError(r: Symbol): Err {
    match r
    case Sym(_) => NoError
    case EndOfInput => UnexpectedEof
    case Corrupt => CorruptInput
  }

  /** A symbol whose bits, and maxRead of them at least, come before the last k keeps those unread. */
  lemma SymTight(len: nat, maxRead: nat, l: nat, nb: nat, input: nat, before: nat, k: nat)
    requires l <= len && len - l == nb + 8 * input && k <= len - l && maxRead + k <= len
    requires (input == before && 8 * before + 8 > k) || nb + l < maxRead + 8 || nb < 8
    ensures 8 * input + 8 > k
  {
  }

  lemma {:induction false} SetLensGet(bits: seq<bool>, n: nat, j: nat)
    requires n <= CODEGEN_CODES && |bits| >= 3 * n && j < CODEGEN_CODES
    ensures SetLens(bits, n)[CodeOrder()[j]] == if j < n then ValueOf(bits[3 * j..3 * j + 3]) else 0
  {
    hide SetLens, CodeOrder;
    if n == 0 {
      NoLens(bits);
    } else {
      SetLensStep(bits, n);
      SetLensGet(bits, n - 1, j);
      if CodeOrder()[j] == CodeOrder()[n - 1] { OrderOnce(j, n - 1); }
    }
  }

  /** The first n lengths are in place. */
  predicate LensIn(codebits: seq<nat>, bits: seq<bool>, n: nat) {
    && |codebits| == CODEGEN_CODES && n <= CODEGEN_CODES && |bits| >= 3 * n
    && forall j :: 0 <= j < n ==> codebits[CodeOrder()[j]] == ValueOf(bits[3 * j..3 * j + 3])
  }

  lemma LensInStep(codebits: seq<nat>, bits: seq<bool>, n: nat, v: nat)
    requires LensIn(codebits, bits, n) && n < CODEGEN_CODES && |bits| >= 3 * n + 3
    requires v == ValueOf(bits[3 * n..][..3])
    ensures LensIn(codebits[CodeOrder()[n] := v], bits, n + 1)
  {
    hide CodeOrder;
    Slices(bits, 3 * n, 3);
    var r := codebits[CodeOrder()[n] := v];
    forall j | 0 <= j < n + 1 ensures r[CodeOrder()[j]] == ValueOf(bits[3 * j..3 * j + 3]) {
      if j < n && CodeOrder()[j] == CodeOrder()[n] { OrderOnce(j, n); }
    }
  }

  /** The lengths read and zeros for the rest. */
  lemma LensAll(codebits: seq<nat>, bits: seq<bool>, n: nat)
    requires LensIn(codebits, bits, n) && forall j :: n <= j < CODEGEN_CODES ==> codebits[CodeOrder()[j]] == 0
    ensures codebits == SetLens(bits, n)
  {
    hide SetLens, CodeOrder;
    forall s | 0 <= s < CODEGEN_CODES ensures codebits[s] == SetLens(bits, n)[s] {
      SetLensGet(bits, n, OrderOf(s));
      assert CodeOrder()[OrderOf(s)] == s;
    }
  }

  /** Reads the lengths of the code length code. */
  method ReadCodeLens(f: Reader, codebits: array<nat>, nclen: nat, ghost k: nat) returns (ok: bool)
    requires f.Valid() && codebits.Length == CODEGEN_CODES && nclen <= CODEGEN_CODES
    modifies f, codebits
    ensures f.Valid() && |f.input| <= |old(f.input)| && |f.Bits()| <= |old(f.Bits())|
    ensures ok <==> |old(f.Bits())| >= 3 * nclen
    ensures ok ==> codebits[..] == SetLens(old(f.Bits()), nclen) && f.Bits() == old(f.Bits())[3 * nclen..]
    ensures ok && old(f.Tight(k)) && k <= |f.Bits()| ==> f.Tight(k)
  {
    hide BytesBits, BitsOf, Pow2, CodeOrder, SetLens, LensIn, ValueOf;
    ghost var bits, tight := f.Bits(), f.Tight(k);
    NoneIn(codebits[..], bits);
    for i := 0 to nclen
      invariant f.Valid() && |f.input| <= |old(f.input)| && |bits| >= 3 * i && f.Bits() == bits[3 * i..]
      invariant LensIn(codebits[..], bits, i)
      invariant tight && k <= |f.Bits()| ==> f.Tight(k)
    {
      ghost var q := codebits[..];
      ghost var rest := f.Bits();
      var more, v := f.Take(3, k);
      if !more {
        return false;
      }
      LensInStep(q, bits, i, v);
      Slices(bits, 3 * i, 3);
      codebits[CodeOrder()[i]] := v;
      assert codebits[..] == q[CodeOrder()[i] := v];
    }
    for i := nclen to CODEGEN_CODES
      invariant f.Valid() && |f.input| <= |old(f.input)| && |bits| >= 3 * nclen && f.Bits() == bits[3 * nclen..]
      invariant LensIn(codebits[..], bits, nclen)
      invariant forall j :: nclen <= j < i ==> codebits[CodeOrder()[j]] == 0
      invariant tight && k <= |f.Bits()| ==> f.Tight(k)
    {
      ghost var q := codebits[..];
      LensInKeep(q, bits, nclen, i);
      codebits[CodeOrder()[i]] := 0;
      assert codebits[..] == q[CodeOrder()[i] := 0];
    }
    LensAll(codebits[..], bits, nclen);
    ok := true;
  }

  lemma NoneIn(codebits: seq<nat>, bits: seq<bool>)
    requires |codebits| == CODEGEN_CODES
    ensures LensIn(codebits, bits, 0)
  {
  }

  lemma LensInKeep(codebits: seq<nat>, bits: seq<bool>, n: nat, i: nat)
    requires LensIn(codebits, bits, n) && n <= i < CODEGEN_CODES
    ensures LensIn(codebits[CodeOrder()[i] := 0], bits, n)
  {
    hide CodeOrder;
    forall j | 0 <= j < n ensures CodeOrder()[j] != CodeOrder()[i] {
      if CodeOrder()[j] == CodeOrder()[i] { OrderOnce(j, i); }
    }
  }

  // ---------------------------------------------------------------------------------------------
  // The lengths of the two codes.
  // ---------------------------------------------------------------------------------------------

  /** Writes n copies of a length. */
  method FillLengths(bits: array<nat>, i: nat, rep: nat, v: nat)
    requires i + rep <= bits.Length
    modifies bits
    ensures bits[..i + rep] == old(bits[..i]) + Repeat(v, rep)
  {
    for j := 0 to rep
      invariant bits[..i] == old(bits[..i]) && forall m :: i <= m < i + j ==> bits[m] == v
    {
      bits[i + j] := v;
    }
    assert bits[..i + rep] == bits[..i] + bits[i..i + rep];
  }

  /** How the run for a symbol is read: its least length, its extra bits and the length repeated. */
  lemma RunIs(s: nat, acc: seq<nat>, v: nat)
    requires s <= 18 && (s == 16 ==> acc != [])
    ensures s < 16 ==> RunLengths(s, acc, v) == [s] && ExtraBits(s) == 0
    ensures s == 16 ==> RunLengths(s, acc, v) == Repeat(acc[|acc| - 1], 3 + v) && ExtraBits(s) == 2
    ensures s == 17 ==> RunLengths(s, acc, v) == Repeat(0, 3 + v) && ExtraBits(s) == 3
    ensures s == 18 ==> RunLengths(s, acc, v) == Repeat(0, 11 + v) && ExtraBits(s) == 7
  {
  }

  /** A repeat code: checks that it fits and writes its run. */
  method ReadRun(f: Reader, bits: array<nat>, i: nat, n: nat, x: nat, ghost k: nat) returns (err: Err, i': nat)
    requires f.Valid() && 16 <= x && i < n <= bits.Length
    requires forall m :: 0 <= m < i ==> bits[m] <= MAX_BITS
    modifies f, bits
    ensures f.Valid() && |f.input| <= |old(f.input)| && |f.Bits()| <= |old(f.Bits())|
    ensures err == NoError ==> i < i' <= n && forall m :: 0 <= m < i' ==> bits[m] <= MAX_BITS
    ensures match RunOf(x, old(bits[..i]), n, old(f.Bits()))
      case BadLens(e) => err == e && err != NoError
      case AllLens(acc, rest) => err == NoError && bits[..i'] == acc && f.Bits() == rest
    ensures err == NoError && old(f.Tight(k)) && k <= |f.Bits()| ==> f.Tight(k)
  {
    hide BytesBits, BitsOf, Pow2, ValueOf;
    i' := i;
    var rep, nb, v;
    if x == 16 {
      rep, nb := 3, 2;
      if i == 0 {
        return CorruptInput, i;
      }
      v := bits[i - 1];
    } else if x == 17 {
      rep, nb, v := 3, 3, 0;
    } else if x == 18 {
      rep, nb, v := 11, 7, 0;
    } else {
      return InternalError, i;
    }
    var ok, extra := f.Take(nb, k);
    if !ok {
      return UnexpectedEof, i;
    }
    RunIs(x, bits[..i], extra);
    rep := rep + extra;
    if i + rep > n {
      return CorruptInput, i;
    }
    FillLengths(bits, i, rep, v);
    i' := i + rep;
    assert forall m :: 0 <= m < i' ==> bits[m] == bits[..i'][m];
    err := NoError;
  }

  /** The tables are ready for this code, and maxRead asks for no more than its shortest length. */
  ghost predicate InPlace(h: Decoder, lens: seq<nat>, last: seq<nat>)
    reads h, h.chunks
  {
    h.Ready(lens, last) && if Empty(lens) then h.maxRead == 0 else NoneShorter(lens, h.maxRead) && h.maxRead <= MAX_BITS
  }

  /** A symbol read from tables in place. */
  lemma InPlaceReads(h: Decoder, lens: seq<nat>, last: seq<nat>, bits: seq<bool>)
    requires InPlace(h, lens, last)
    ensures AskedSymbol(lens, last, h.maxRead, bits) == InTables(lens, last, bits)
    ensures var r := InTables(lens, last, bits); r.Found? ==> |r.rest| + h.maxRead <= |bits|
  {
    hide Complete, Single, InTables, AskedSymbol;
    AskShortest(lens, last, h.maxRead, bits);
    AskTaken(lens, last, h.maxRead, bits);
  }

  /** One symbol of the code length code, with its run. */
  method LensStep(f: Reader, h: Decoder, bits: array<nat>, i: nat, n: nat, ghost cl: seq<nat>, ghost last: seq<nat>,
          ghost k: nat)
    returns (err: Err, i': nat)
    requires f.Valid() && h.chunks.Length == NUM_CHUNKS && h.maxRead <= 25 && i < n <= bits.Length && bits != h.chunks
    requires InPlace(h, cl, last) && forall m :: 0 <= m < i ==> bits[m] <= MAX_BITS
    modifies f, bits
    ensures f.Valid() && |f.input| <= |old(f.input)| && |f.Bits()| <= |old(f.Bits())|
    ensures err == NoError ==> i < i' <= n && forall m :: 0 <= m < i' ==> bits[m] <= MAX_BITS
    ensures match LengthStep(cl, last, old(f.Bits()), n, old(bits[..i]))
      case BadLens(e) => err == e && err != NoError
      case AllLens(acc, rest) => err == NoError && bits[..i'] == acc && f.Bits() == rest
    ensures err == NoError && old(f.Tight(k)) && k <= |f.Bits()| ==> f.Tight(k)
  {
    hide BytesBits, BitsOf, Pow2, InTables, AskedSymbol, RunOf, InPlace, Decoder.Ready;
    ghost var b, acc, tight, was := f.Bits(), bits[..i], f.Tight(k), |f.input|;
    i' := i;
    InPlaceReads(h, cl, last, b);
    ReadyIn(h, cl, last);
    var x := f.HuffSym(h, cl, last);
    if !x.Sym? {
      return SymbolError(x), i;
    }
    f.BitCount();
    ghost var mid := f.Bits();
    if tight && k <= |mid| { SymTight(|b|, h.maxRead, |b| - |mid|, f.nb, |f.input|, was, k); }
    if x.value < 16 {
      bits[i] := x.value;
      i' := i + 1;
      assert bits[..i + 1] == acc + [x.value];
      assert forall m :: 0 <= m < i' ==> bits[m] <= MAX_BITS;
      return NoError, i';
    }
    assert bits[..i] == acc;
    err, i' := ReadRun(f, bits, i, n, x.value, k);
  }

  lemma ReadyIn(h: Decoder, lens: seq<nat>, last: seq<nat>)
    requires InPlace(h, lens, last)
    ensures h.Ready(lens, last)
  {
  }

  /** Reads n lengths with the code length code. */
  method ReadLens(f: Reader, h: Decoder, bits: array<nat>, n: nat, ghost cl: seq<nat>, ghost last: seq<nat>,
          ghost k: nat)
    returns (err: Err)
    requires f.Valid() && h.chunks.Length == NUM_CHUNKS && h.maxRead <= 25 && n <= bits.Length && bits != h.chunks
    requires InPlace(h, cl, last)
    modifies f, bits
    ensures f.Valid() && |f.input| <= |old(f.input)| && |f.Bits()| <= |old(f.Bits())|
    ensures err == NoError ==> forall m :: 0 <= m < n ==> bits[m] <= MAX_BITS
    ensures match LengthsOf(cl, last, old(f.Bits()), n, [])
      case BadLens(e) => err == e && err != NoError
      case AllLens(acc, rest) => err == NoError && bits[..n] == acc && f.Bits() == rest
    ensures err == NoError && old(f.Tight(k)) && k <= |f.Bits()| ==> f.Tight(k)
  {
    hide BytesBits, BitsOf, Pow2, LengthsOf, LengthStep, InPlace;
    ghost var r, tight := LengthsOf(cl, last, f.Bits(), n, []), f.Tight(k);
    var i := 0;
    assert bits[..0] == [];
    while i < n
      invariant i <= n && f.Valid() && |f.input| <= |old(f.input)| && |f.Bits()| <= |old(f.Bits())|
      invariant forall m :: 0 <= m < i ==> bits[m] <= MAX_BITS
      invariant InPlace(h, cl, last) && LengthsOf(cl, last, f.Bits(), n, bits[..i]) == r
      invariant tight && k <= |f.Bits()| ==> f.Tight(k)
    {
      LengthsUnfold(cl, last, f.Bits(), n, bits[..i]);
      ghost var was := f.Bits();
      err, i := LensStep(f, h, bits, i, n, cl, last, k);
      if err != NoError {
        return;
      }
    }
    LengthsUnfold(cl, last, f.Bits(), n, bits[..i]);
    err := NoError;
  }

  /** What a step leaves to read. */
  function LengthsNext(cl: seq<nat>, last: seq<nat>, r: LensRead, n: nat): LensRead {
    match r
    case BadLens(e) => r
    case AllLens(acc, rest) => LengthsOf(cl, last, rest, n, acc)
  }

  lemma LengthsUnfold(cl: seq<nat>, last: seq<nat>, bits: seq<bool>, n: nat, acc: seq<nat>)
    ensures LengthsOf(cl, last, bits, n, acc) ==
      if |acc| >= n then AllLens(acc, bits) else LengthsNext(cl, last, LengthStep(cl, last, bits, n, acc), n)
  {
    hide LengthStep;
  }
  // ---------------------------------------------------------------------------------------------
  // The whole header.
  // ---------------------------------------------------------------------------------------------

  /** The tables are ready for the codes of a block; the literal decoder asks for as many bits as it should. */
  ghost predicate HeaderIn(h1: Decoder, h2: Decoder, c: Codes)
    reads h1, h1.chunks, h2, h2.chunks
  {
    && h1.Ready(c.lit, c.was.lit) && h1.maxRead == c.ask && InPlace(h2, c.off, c.was.off)
    && TablesAfter(c) == Tables(h1.last, h2.last)
  }

  lemma AcceptableIs(lens: seq<nat>)
    ensures Acceptable(lens) <==> Empty(lens) || Complete(lens) || Single(lens)
  {
  }

  /** After init the tables are in place. */
  lemma InitInPlace(h: Decoder, lens: seq<nat>, was: seq<nat>)
    requires h.Kept() && ValidLens(lens) && h.last == InUse(lens, was)
    requires if Empty(lens) then h.maxRead == 0
      else h.Holds(lens) && Shortest(lens, h.maxRead) && NoneShorter(lens, h.maxRead)
    ensures InPlace(h, lens, was) && h.maxRead <= MAX_BITS
  {
    hide Empty, Decoder.Kept, Decoder.Holds, Decoder.Left;
    if Empty(lens) { h.KeptLeft(); } else { ShortestSmall(lens, h.maxRead); }
  }

  lemma ShortestSmall(lens: seq<nat>, min: nat)
    requires Shortest(lens, min) && ValidLens(lens)
    ensures min <= MAX_BITS
  {
  }

  /** Puts a code in the tables. */
  method Place(h: Decoder, lens: seq<nat>) returns (err: Err)
    requires h.Kept() && ValidLens(lens) && |lens| <= 4095
    modifies h, h.chunks
    ensures h.Kept() && h.maxRead <= MAX_BITS
    ensures if Acceptable(lens) then err == NoError else err == CorruptInput && h.last == old(h.last)
    ensures err == NoError ==> InPlace(h, lens, old(h.last)) && h.last == InUse(lens, old(h.last))
    ensures err == NoError && !Empty(lens) ==> Shortest(lens, h.maxRead)
  {
    hide Complete, Single, Empty, Decoder.Holds, Decoder.Left;
    AcceptableIs(lens);
    var ok := h.Init(lens);
    if !ok {
      return CorruptInput;
    }
    InitInPlace(h, lens, old(h.last));
    err := NoError;
  }

  /** Every block ends with its end-of-block code, and another block has ten bits at least. */
  method Ask(h: Decoder, end: nat, final: bool)
    requires h.Kept()
    modifies h`maxRead
    ensures h.Kept() && h.maxRead == (if old(h.maxRead) < end then end else old(h.maxRead)) + if final then 0 else 10
  {
    hide MadeLast;
    if h.maxRead < end {
      h.maxRead := end;
    }
    if !final {
      h.maxRead := h.maxRead + 10;
    }
    assert h.chunks[..] == old(h.chunks[..]);
  }

  /** Puts both codes in place and sets how many bits to ask for at once. */
  method PlaceCodes(h1: Decoder, h2: Decoder, bits: array<nat>, nlit: nat, ndist: nat, final: bool) returns (err: Err)
    requires h1 != h2 && h1.Kept() && h2.Kept() && h1.chunks != h2.chunks
    requires bits != h1.chunks && bits != h2.chunks && 257 <= nlit && nlit + ndist <= bits.Length <= 4095
    requires forall m :: 0 <= m < nlit + ndist ==> bits[m] <= MAX_BITS
    modifies h1, h1.chunks, h2, h2.chunks
    ensures h1.Kept() && h2.Kept() && (old(h2.maxRead) <= 25 ==> h1.maxRead <= 25 && h2.maxRead <= 25)
    ensures var lit, off := bits[..nlit], bits[nlit..nlit + ndist];
      && err == (if Acceptable(lit) && Acceptable(off) then NoError else CorruptInput)
      && (err == NoError ==>
            HeaderIn(h1, h2, Codes(false, lit, off, Tables(old(h1.last), old(h2.last)), AskFor(lit, final))))
  {
    hide Complete, Single, Empty, Decoder.Kept, Decoder.Ready, Acceptable, InPlace, ShortestTo;
    ghost var lit, off := bits[..nlit], bits[nlit..nlit + ndist];
    KeptLength(h1);
    KeptLength(h2);
    err := Place(h1, bits[..nlit]);
    if err != NoError {
      return;
    }
    err := Place(h2, bits[nlit..nlit + ndist]);
    if err != NoError {
      return;
    }
    ReadyIn(h1, lit, old(h1.last));
    MinIs(h1, lit, old(h1.last));
    Ask(h1, bits[END_OF_BLOCK], final);
  }

  lemma KeptLength(h: Decoder)
    requires h.Kept()
    ensures h.chunks.Length == NUM_CHUNKS
  {
  }

  lemma MinIs(h: Decoder, lens: seq<nat>, last: seq<nat>)
    requires InPlace(h, lens, last) && (!Empty(lens) ==> Shortest(lens, h.maxRead))
    ensures h.maxRead == ShortestTo(lens, |lens|)
  {
    hide Decoder.Ready;
    ShortestAmong(lens, |lens|);
    if s :| 0 <= s < |lens| && lens[s] == h.maxRead && lens[s] > 0 { ShortestIs(lens, |lens|, s); }
  }

  /** Reads the code length code and with it both codes. */
  method ReadCodes(f: Reader, h1: Decoder, h2: Decoder, bits: array<nat>, codebits: array<nat>, nlit: nat, ndist: nat,
                   nclen: nat, final: bool, ghost k: nat) returns (err: Err)
    requires f.Valid() && 257 <= nlit <= MAX_LIT && 1 <= ndist <= MAX_DIST_CODES && nclen <= CODEGEN_CODES
    requires Places(h1, h2, bits, codebits) && h1.Kept() && h2.Kept()
    modifies f, h1, h1.chunks, h2, h2.chunks, bits, codebits
    ensures f.Valid() && |f.input| <= |old(f.input)| && |f.Bits()| <= |old(f.Bits())| && h1.Kept() && h2.Kept()
    ensures old(h1.maxRead) <= 25 && old(h2.maxRead) <= 25 ==> h1.maxRead <= 25 && h2.maxRead <= 25
    ensures var d := LengthsHeader(nlit, ndist, nclen, old(f.Bits()), old(h1.last));
      match d
      case NoHeader(e) => err == e && err != NoError
      case Declares(_, _, _, rest) =>
        && err == NoError && f.Bits() == rest
        && HeaderIn(h1, h2, DeclaredCodes(d, Tables(old(h1.last), old(h2.last)), final))
    ensures err == NoError && old(f.Tight(k)) && k <= |f.Bits()| ==> f.Tight(k)
  {
    hide BytesBits, BitsOf, Pow2, LengthsOf, SetLens, Empty, Acceptable, Decoder.Kept, InPlace, HeaderIn, AskFor;
    ghost var was1, was2 := h1.last, h2.last;
    var ok := ReadCodeLens(f, codebits, nclen, k);
    if !ok {
      return UnexpectedEof;
    }
    ghost var cl := codebits[..];
    err := Place(h1, codebits[..]);
    if err != NoError {
      return;
    }
    err := ReadLens(f, h1, bits, nlit + ndist, cl, was1, k);
    if err != NoError {
      return;
    }
    assert bits[..nlit] == bits[..nlit + ndist][..nlit] && bits[nlit..nlit + ndist] == bits[..nlit + ndist][nlit..];
    err := PlaceCodes(h1, h2, bits, nlit, ndist, final);
  }

  /** Arrays of the right sizes, none of them shared. */
  predicate Places(h1: Decoder, h2: Decoder, bits: array<nat>, codebits: array<nat>) {
    && h1 != h2 && h1.chunks.Length == h2.chunks.Length == NUM_CHUNKS
    && bits.Length == MAX_LIT + MAX_DIST_CODES && codebits.Length == CODEGEN_CODES
    && bits != codebits && h1.chunks != h2.chunks
    && bits != h1.chunks && bits != h2.chunks && codebits != h1.chunks && codebits != h2.chunks
  }

  /** Fourteen bits asked for at once are not too many before the last k. */
  lemma FieldsTight(len: nat, nb: nat, input: nat, was: nat, k: nat)
    requires len == nb + 8 * input && k + 14 <= len && 8 * was + 8 > k
    requires input == was || nb < 22
    ensures 8 * input + 8 > k
  {
  }

  /** Reads a dynamic header: either the tables are then ready for the codes it declares, or the error says what
      is wrong with it. */
  method ReadHuffman(f: Reader, h1: Decoder, h2: Decoder, bits: array<nat>, codebits: array<nat>, final: bool,
          ghost k: nat)
    returns (err: Err)
    requires f.Valid() && Places(h1, h2, bits, codebits) && h1.Kept() && h2.Kept()
    modifies f, h1, h1.chunks, h2, h2.chunks, bits, codebits
    ensures f.Valid() && |f.input| <= |old(f.input)| && |f.Bits()| <= |old(f.Bits())| && h1.Kept() && h2.Kept()
    ensures old(h1.maxRead) <= 25 && old(h2.maxRead) <= 25 ==> h1.maxRead <= 25 && h2.maxRead <= 25
    ensures var d := HeaderOf(old(f.Bits()), old(h1.last));
      match d
      case NoHeader(e) => err == e && err != NoError
      case Declares(_, _, _, rest) =>
        && err == NoError && f.Bits() == rest
        && HeaderIn(h1, h2, DeclaredCodes(d, Tables(old(h1.last), old(h2.last)), final))
    ensures err == NoError && old(f.Tight(k)) && k <= |f.Bits()| ==> f.Tight(k)
  {
    hide BytesBits, BitsOf, Pow2, LengthsOf, SetLens, Acceptable, ValueOf, HeaderIn, Places, AskFor, Decoder.Kept;
    ghost var start, tight, was := f.Bits(), f.Tight(k), |f.input|;
    var ok := f.Need(14);
    f.BitCount();
    if !ok {
      return UnexpectedEof;
    }
    FieldValues(start);
    Slices(start, 5, 5);
    Slices(start, 10, 4);
    if tight && k + 14 <= |start| { FieldsTight(|start|, f.nb, |f.input|, was, k); }
    var v, nlit, ndist, nclen;
    ok, v := f.Take(5, k);
    nlit := v + 257;
    if nlit > MAX_LIT {
      return CorruptInput;
    }
    ok, v := f.Take(5, k);
    ndist := v + 1;
    if ndist > MAX_DIST_CODES {
      return CorruptInput;
    }
    ok, v := f.Take(4, k);
    nclen := v + 4;
    err := ReadCodes(f, h1, h2, bits, codebits, nlit, ndist, nclen, final, k);
  }
}
