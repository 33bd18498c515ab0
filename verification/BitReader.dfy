/** The decoder's bit accumulator: bytes come in above the bits that are waiting, symbols and
    fields go out at the bottom, and no byte is read before it is needed. */
module BitReader {
  import opened Words
  import opened Canon
  import opened DecoderTable
  import opened HuffmanDecoder

  /** The bits of a byte string, first byte first, least significant bit first. */
  function BytesBits(bytes: seq<byte>): (s: seq<bool>)
    ensures |s| == 8 * |bytes|
  {
    if bytes == [] then [] else BitsOf(bytes[0], 8) + BytesBits(bytes[1..])
  }

  lemma {:induction false} BytesBitsConcat(a: seq<byte>, b: seq<byte>)
    ensures BytesBits(a + b) == BytesBits(a) + BytesBits(b)
  {
    hide BitsOf;
    if a == [] {
      assert a + b == b;
    } else {
      var x := a[0];
      BytesBitsConcat(a[1..], b);
      assert (a + b)[1..] == a[1..] + b;
      assert BytesBits(a + b) == BitsOf(x, 8) + (BytesBits(a[1..]) + BytesBits(b));
    }
  }

  /** A 32-bit left shift drops what leaves the word. */
  function Shl32(x: nat, n: nat): nat {
    Low(x * Pow2(n), 32)
  }

  /** One more byte above nb waiting bits. */
  lemma AddByte(b: nat, nb: nat, c: byte)
    requires b < Pow2(nb) && nb <= 24
    ensures Or(b, Shl32(c, nb)) < Pow2(nb + 8)
    ensures BitsOf(Or(b, Shl32(c, nb)), nb + 8) == BitsOf(b, nb) + BitsOf(c, 8)
  {
    hide Pow2, BitsOf, Low, Or;
    Pow2Values();
    ShiftInside(c, nb, 8, 32);
    OrDisjoint(b, c, nb);
    BitsOfJoin(b, nb, c, 8);
    MulBound(c, Pow2(8), Pow2(nb));
    Pow2Add(8, nb);
  }

  /** Taking n bits off the bottom. */
  lemma TakeBits(b: nat, nb: nat, n: nat)
    requires b < Pow2(nb) && n <= nb
    ensures Shr(b, n) < Pow2(nb - n)
    ensures BitsOf(b, nb) == BitsOf(b, n) + BitsOf(Shr(b, n), nb - n)
  {
    ShrBound(b, n, nb - n);
    BitsOfSplit(b, n, nb - n);
  }

  datatype Symbol = Sym(value: nat) | EndOfInput | Corrupt

  // ---------------------------------------------------------------------------------------------
  // What reading a symbol gives, on any bits.
  // ---------------------------------------------------------------------------------------------

  /** A symbol and what follows it; or the bits end before it does; or they start with no code. */
  datatype SymRead = Found(v: nat, rest: seq<bool>) | NoMore | NoCode

  /** What a symbol reported, and the bits after it, say about the bits read. */
  function Reads(r: Symbol, rest: seq<bool>): SymRead {
    match r
    case Sym(v) => Found(v, rest)
    case EndOfInput => NoMore
    case Corrupt => NoCode
  }

  /** The symbol of a code. */
  function ByCode(lens: seq<nat>, bits: seq<bool>): SymRead {
    match DecodeSym(lens, bits)
    case Some(v) => Found(v, bits[lens[v]..])
    case None => if Single(lens) && bits != [] then NoCode else NoMore
  }

  /** The first nine bits, with zeros after them. */
  function NineBits(bits: seq<bool>): (r: seq<bool>)
    ensures |r| == MAX_BITS
  {
    var k := if |bits| < CHUNK_BITS then |bits| else CHUNK_BITS;
    bits[..k] + seq(MAX_BITS - k, _ => false)
  }

  /** The symbol that is found in what is left of a code's tables: nine bits select it. */
  function ByLeftover(last: seq<nat>, bits: seq<bool>): SymRead {
    match DecodeSym(last, NineBits(bits))
    case Some(v) => if last[v] <= |bits| then Found(v, bits[last[v]..]) else NoMore
    case None => NoCode
  }

  /** The symbol of a code, or, if the code is empty, of what is left of the last one. */
  function InTables(lens: seq<nat>, last: seq<nat>, bits: seq<bool>): SymRead {
    if !Empty(lens) then ByCode(lens, bits) else if last == [] then NoCode else ByLeftover(last, bits)
  }

  /** The same, with so many bits asked for at once. */
  function AskedSymbol(lens: seq<nat>, last: seq<nat>, ask: nat, bits: seq<bool>): SymRead {
    if |bits| < ask then NoMore else InTables(lens, last, bits)
  }

  /** Asking for as many bits as the shortest code has makes no difference. */
  lemma AskShortest(lens: seq<nat>, last: seq<nat>, ask: nat, bits: seq<bool>)
    requires if Empty(lens) then ask == 0 else NoneShorter(lens, ask) && ask <= MAX_BITS
    requires Empty(lens) || Complete(lens) || Single(lens)
    ensures AskedSymbol(lens, last, ask, bits) == InTables(lens, last, bits)
  {
    hide SymBits, Complete, Single;
    if !Empty(lens) && |bits| < ask {
      SymbolShorter(lens, bits);
      if Single(lens) { SingleShort(lens, ask); }
    }
  }

  /** As many bits are there as were asked for in the symbol's own cause. */
  lemma AskTaken(lens: seq<nat>, last: seq<nat>, ask: nat, bits: seq<bool>)
    requires if Empty(lens) then ask == 0 else NoneShorter(lens, ask)
    ensures var r := InTables(lens, last, bits); r.Found? ==> |r.rest| + ask <= |bits|
  {
    hide SymBits, Single, NineBits;
    SymbolShorter(lens, bits);
  }

  lemma SymbolShorter(lens: seq<nat>, bits: seq<bool>)
    ensures DecodeSym(lens, bits).Some? ==> lens[DecodeSym(lens, bits).value] <= |bits|
  {
    hide SymBits;
    var r := DecodeSym(lens, bits);
    if r.Some? { assert |SymBits(lens, r.value)| == lens[r.value]; }
  }

  lemma SingleShort(lens: seq<nat>, ask: nat)
    requires Single(lens) && NoneShorter(lens, ask)
    ensures ask <= 1
  {
    var t := SoleSymbol(lens);
  }

  // ---------------------------------------------------------------------------------------------
  // Looking up with bits that have not been read yet.
  // ---------------------------------------------------------------------------------------------

  /** A symbol found within the bits at hand is the symbol that starts them. */
  lemma FoundIsRight(lens: seq<nat>, s: nat, b: nat, nb: nat, bits: seq<bool>)
    requires Fits(lens) && Matches(lens, s, b) && lens[s] <= nb && BitsOf(b, nb) <= bits
    ensures DecodeSym(lens, bits) == Some(s) && SymBits(lens, s) == bits[..lens[s]]
  {
    BitsPrefix(b, lens[s], nb);
    DecodeEncode(lens, s, bits);
  }

  lemma {:induction false} MsbOfZeros(n: nat)
    ensures MsbValue(seq(n, _ => false)) == 0
  {
    var z: seq<bool> := seq(n, _ => false);
    if n > 0 {
      MsbOfZeros(n - 1);
      assert z[..n - 1] == seq(n - 1, _ => false);
    }
  }

  /** Zeros in place of the unread bits cannot raise the value. */
  lemma ZerosAreLeast(known: seq<bool>, w: seq<bool>)
    requires |known| <= |w| && known <= w
    ensures MsbValue(known + seq(|w| - |known|, _ => false)) <= MsbValue(w)
  {
    hide Pow2, MsbValue;
    var n := |w| - |known|;
    assert |w[|known|..]| == n;
    MsbValueSplit(known, seq(n, _ => false));
    MsbOfZeros(n);
    assert w == known + w[|known|..];
    MsbValueSplit(known, w[|known|..]);
  }

  lemma {:induction false} UnreadAreZeros(b: nat, nb: nat, n: nat)
    requires b < Pow2(nb)
    ensures BitsOf(b, nb + n) == BitsOf(b, nb) + seq(n, _ => false)
  {
    BitsOfSplit(b, nb, n);
    LowSmall(b, nb);
    ZeroBits(n);
  }

  lemma {:induction false} ZeroBits(n: nat)
    ensures BitsOf(0, n) == seq(n, _ => false)
  {
    if n > 0 { ZeroBits(n - 1); }
  }

  /** The length found with unread bits taken as zeros is never longer than the true code. */
  lemma EstimateIsLow(lens: seq<nat>, found: nat, b: nat, nb: nat, bits: seq<bool>, s: nat)
    requires Fits(lens) && b < Pow2(nb) && BitsOf(b, nb) <= bits
    requires Matches(lens, found, b) && nb < lens[found]
    requires Used(lens, s) && SymBits(lens, s) <= bits
    ensures lens[found] <= lens[s] && nb < lens[s]
  {
    hide Fits, SymBits, BitsOf, MsbValue, Start, Share, Matches, Pow2;
    MatchUsed(lens, found, b);
    LensAtMost(lens, found);
    LensAtMost(lens, s);
    var known := BitsOf(b, nb);
    if lens[s] <= nb {
      assert SymBits(lens, s) <= known;
      assert Matches(lens, s, b) by { MatchFromBits(lens, s, b, nb); }
      MatchOne(lens, s, found, b);
      assert false;
    }
    var zeros: seq<bool> := seq(MAX_BITS - nb, _ => false);
    var w0, w1 := BitsOf(b, MAX_BITS), Pad(SymBits(lens, s));
    UnreadAreZeros(b, nb, MAX_BITS - nb);
    assert known <= SymBits(lens, s) <= w1;
    ZerosAreLeast(known, w1);
    assert SymBits(lens, found) <= w0 by { MatchToBits(lens, found, b, MAX_BITS); }
    SymBitsIff(lens, found, w0);
    SymBitsIff(lens, s, w1);
    if lens[found] > lens[s] {
      SharesOrdered(lens, s, found);
    }
  }

  lemma LensAtMost(lens: seq<nat>, s: nat)
    requires Fits(lens) && s < |lens|
    ensures lens[s] <= MAX_BITS && ValidLens(lens)
  {
  }

  lemma MatchFromBits(lens: seq<nat>, s: nat, b: nat, nb: nat)
    requires Used(lens, s) && lens[s] <= nb && SymBits(lens, s) <= BitsOf(b, nb)
    ensures Matches(lens, s, b)
  {
    BitsPrefix(b, lens[s], nb);
  }

  lemma MatchToBits(lens: seq<nat>, s: nat, b: nat, n: nat)
    requires Matches(lens, s, b) && lens[s] <= n
    ensures SymBits(lens, s) <= BitsOf(b, n)
  {
    BitsPrefix(b, lens[s], n);
  }

  class Reader {
    var b: nat
    var nb: nat
    var input: seq<byte>

    constructor (data: seq<byte>)
      ensures Valid() && Bits() == BytesBits(data) && nb == 0 && input == data
    {
      b, nb, input := 0, 0, data;
    }

    predicate Valid()
      reads this
    {
      b < Pow2(nb) && nb <= 32
    }

    /** All bits not taken yet: those waiting and those of the bytes not read. */
    function Bits(): seq<bool>
      reads this
    {
      BitsOf(b, nb) + BytesBits(input)
    }

    /** Reads one byte. */
    method MoreBits() returns (ok: bool)
      requires Valid() && nb <= 24
      modifies this
      ensures Valid() && Bits() == old(Bits())
      ensures ok <==> old(input) != []
      ensures !ok ==> input == [] && nb == old(nb)
      ensures ok ==> nb == old(nb) + 8 && input == old(input)[1..]
    {
      hide BytesBits, BitsOf, Pow2;
      if input == [] {
        return false;
      }
      var c := input[0];
      AddByte(b, nb, c);
      BytesBitsHead(input);
      b := Or(b, Shl32(c, nb));
      nb := nb + 8;
      input := input[1..];
      ok := true;
    }

    /** Reads bytes until n bits are waiting, and no further. */
    method Need(n: nat) returns (ok: bool)
      requires Valid() && n <= 25
      modifies this
      ensures Valid() && Bits() == old(Bits())
      ensures ok <==> nb >= n
      ensures ok <==> |old(Bits())| >= n
      ensures !ok ==> input == []
      ensures (nb == old(nb) && input == old(input)) || (|input| < |old(input)| && nb < n + 8)
      ensures nb >= old(nb)
      ensures old(nb) >= n ==> nb == old(nb) && input == old(input)
    {
      hide BytesBits, BitsOf, Pow2;
      ok := true;
      while nb < n
        invariant Valid() && Bits() == old(Bits()) && nb >= old(nb) &&
          (old(nb) >= n ==> nb == old(nb) && input == old(input))
        invariant (nb == old(nb) && input == old(input)) || (|input| < |old(input)| && nb < n + 8)
        decreases |input|
      {
        ok := MoreBits();
        if !ok {
          return false;
        }
      }
    }

    /** Drops n waiting bits. */
    method Drop(n: nat)
      requires Valid() && n <= nb
      modifies this`b, this`nb
      ensures Valid() && nb == old(nb) - n && old(Bits()) == old(BitsOf(b, n)) + Bits()
    {
      TakeBits(b, nb, n);
      b := Shr(b, n);
      nb := nb - n;
    }

    /** No more has been read than whole bytes of which the last k bits of the input are no part:
        what comes after the end of a stream stays where it is, but for the rest of its last byte. */
    predicate Tight(k: nat)
      reads this
    {
      8 * |input| + 8 > k
    }

    lemma BitsAligned()
      requires nb == 0
      ensures Bits() == BytesBits(input)
    {
    }

    lemma BitCount()
      ensures |Bits()| == nb + 8 * |input|
    {
    }

    /** Takes n bits, as a number. */
    method Take(n: nat, ghost k: nat) returns (ok: bool, v: nat)
      requires Valid() && n <= 16
      modifies this
      ensures Valid() && |input| <= |old(input)|
      ensures ok <==> |old(Bits())| >= n
      ensures !ok ==> Bits() == old(Bits()) && input == []
      ensures ok ==> v == ValueOf(old(Bits())[..n]) && Bits() == old(Bits())[n..]
      ensures ok && old(Tight(k)) && k <= |Bits()| ==> Tight(k)
      ensures ok && old(nb) <= 31 ==> nb <= 31
      ensures old(nb) >= n ==> nb == old(nb) - n
    {
      hide BytesBits, BitsOf, Pow2;
      ghost var bits := Bits();
      BitCount();
      v := 0;
      ok := Need(n);
      if !ok {
        return;
      }
      BitCount();
      v := Low(b, n);
      LowIsValue(b, nb, n, bits);
      Drop(n);
      BitCount();
    }

    /** The next symbol of a code, read from the tables. Bits not read yet are taken as zeros:
        the length found is then at most the true one, so no byte is read too early. */
    method HuffSym(h: Decoder, ghost lens: seq<nat>, ghost last: seq<nat>) returns (r: Symbol)
      requires Valid() && h.chunks.Length == NUM_CHUNKS && h.maxRead <= 25
      modifies this
      ensures Valid() && |input| <= |old(input)|
      ensures if r.Sym? then |Bits()| < |old(Bits())| && nb <= 31 else Bits() == old(Bits())
      ensures h.Ready(lens, last) ==> AskedSymbol(lens, last, h.maxRead, old(Bits())) == Reads(r, Bits())
      ensures h.Ready(lens, last) && r.Sym? ==> h.maxRead <= |old(Bits())|
      ensures h.Ready(lens, last) && r.Sym? ==>
        input == old(input) || nb + (|old(Bits())| - |Bits()|) < h.maxRead + 8 || nb < 8
    {
      hide BytesBits, BitsOf, Pow2, InTables, Decoder.Ready;
      ghost var bits, held, x := Bits(), h.Ready(lens, last), InTables(lens, last, Bits());
      ghost var m: nat := h.maxRead;
      var n: nat := h.maxRead;
      while true
        invariant Valid() && Bits() == bits && |input| <= |old(input)|
        invariant n <= 25 && (n == h.maxRead || (held ==> Wanted(x, bits, n) && |bits| >= h.maxRead))
        invariant m == h.maxRead || (held ==> Wanted(x, bits, m))
        invariant input == old(input) || nb < m + 8
        decreases |input|, if nb < n then 0 else 1
      {
        ghost var before := input;
        var ok := Need(n);
        if !ok {
          return EndOfInput;
        }
        if input != before { m := n; }
        var chunk := h.Find(b);
        n := chunk % COUNT_SPAN;
        if held { Classify(h, lens, last, b, nb, bits); }
        if n <= nb {
          if n == 0 {
            return Corrupt;
          }
          BitCount();
          ghost var taken := BitsOf(b, n);
          Drop(n);
          Cut2(taken, Bits());
          BitCount();
          return Sym(chunk / COUNT_SPAN);
        }
      }
    }
  }

  lemma Cut2(a: seq<bool>, b: seq<bool>)
    ensures (a + b)[|a|..] == b
  {
  }

  /** The low bits of the accumulator are the first bits. */
  lemma LowIsValue(b: nat, nb: nat, n: nat, bits: seq<bool>)
    requires n <= nb && BitsOf(b, nb) <= bits
    ensures Low(b, n) == ValueOf(bits[..n])
    ensures BitsOf(b, n) == bits[..n]
  {
    BitsOfSplit(b, n, nb - n);
    ValueOfBitsOf(b, n);
    assert bits[..n] == BitsOf(b, nb)[..n];
  }

  /** At least n bits are needed to tell which symbol it is. */
  predicate Wanted(r: SymRead, bits: seq<bool>, n: nat) {
    n <= MAX_BITS &&
    match r
    case Found(v, rest) => |rest| + n <= |bits|
    case NoMore => true
    case NoCode => n <= |bits|
  }

  /** What one lookup tells about the bits. */
  predicate Tells(chunk: nat, nb: nat, r: SymRead, bits: seq<bool>) {
    var n, v := chunk % COUNT_SPAN, chunk / COUNT_SPAN;
    && n <= MAX_BITS
    && (0 < n <= nb ==> n <= |bits| && r == Found(v, bits[n..]))
    && (n == 0 ==> r == NoCode)
    && (n > nb ==> Wanted(r, bits, n))
  }

  lemma Classify(h: Decoder, lens: seq<nat>, last: seq<nat>, b: nat, nb: nat, bits: seq<bool>)
    requires h.Ready(lens, last) && h.chunks.Length == NUM_CHUNKS && b < Pow2(nb) && BitsOf(b, nb) <= bits
    ensures Tells(h.Find(b), nb, InTables(lens, last, bits), bits)
  {
    hide Pow2, BitsOf, SymBits, Matches, DecodeSym, Complete, Single, Empty, Lookup;
    if !Empty(lens) {
      ClassifyCode(h, lens, b, nb, bits);
    } else if last == [] {
      NothingFinds(h.chunks[..], h.links, h.linkMask, b);
    } else {
      ClassifyLeft(h, last, b, nb, bits);
    }
  }

  lemma ClassifyCode(h: Decoder, lens: seq<nat>, b: nat, nb: nat, bits: seq<bool>)
    requires h.Holds(lens) && h.chunks.Length == NUM_CHUNKS && b < Pow2(nb) && BitsOf(b, nb) <= bits
    ensures Tells(h.Find(b), nb, ByCode(lens, bits), bits)
  {
    hide Pow2, BitsOf, SymBits, Matches, DecodeSym, Complete, Single, Decoder.Find;
    AcceptedFits(lens);
    if s: nat :| Matches(lens, s, b) {
      MatchUsed(lens, s, b);
      h.FindsSymbol(lens, s, b);
      if lens[s] <= nb {
        FoundIsRight(lens, s, b, nb, bits);
      } else {
        var r := DecodeSym(lens, bits);
        if r.Some? { EstimateIsLow(lens, s, b, nb, bits, r.value); }
        if Single(lens) { SingleOne(lens, s); }
      }
    } else {
      if Complete(lens) {
        var s := MatchSome(lens, b);
        assert false;
      }
      h.FindsNothing(lens, b);
      Undecodable(lens, b, nb, bits);
    }
  }

  lemma SingleOne(lens: seq<nat>, s: nat)
    requires Single(lens) && s < |lens|
    ensures lens[s] <= 1
  {
  }

  /** What the nine bits known of a leftover code are. */
  lemma NineKnown(b: nat, nb: nat, bits: seq<bool>)
    requires b < Pow2(nb) && BitsOf(b, nb) <= bits
    ensures nb >= CHUNK_BITS ==> BitsOf(Low(b, CHUNK_BITS), MAX_BITS) == NineBits(bits)
    ensures nb < CHUNK_BITS ==> Low(b, CHUNK_BITS) == b && BitsOf(b, nb) <= NineBits(bits)
  {
    hide Pow2, Low;
    if nb >= CHUNK_BITS {
      NineAndSix(b);
      BitsPrefix(b, CHUNK_BITS, nb);
      ZeroBits(6);
      assert BitsOf(b, CHUNK_BITS) == bits[..CHUNK_BITS];
    } else {
      PowMono(nb, CHUNK_BITS);
      LowSmall(b, CHUNK_BITS);
    }
  }

  lemma {:induction false} PowMono(a: nat, b: nat)
    requires a <= b
    ensures Pow2(a) <= Pow2(b)
  {
    if a < b { PowMono(a, b - 1); }
  }

  lemma ClassifyLeft(h: Decoder, last: seq<nat>, b: nat, nb: nat, bits: seq<bool>)
    requires h.Left(last) && last != [] && b < Pow2(nb) && BitsOf(b, nb) <= bits
    ensures Tells(h.Find(b), nb, ByLeftover(last, bits), bits)
  {
    hide Pow2, BitsOf, SymBits, Matches, DecodeSym, Complete, Single, Decoder.Find, NineBits, Low, Decoder.Left;
    LeftAccepted(h, last);
    AcceptedFits(last);
    NineKnown(b, nb, bits);
    var x := Low(b, CHUNK_BITS);
    if s: nat :| Matches(last, s, x) {
      MatchUsed(last, s, x);
      h.LeftSymbol(last, s, b);
      if nb >= CHUNK_BITS {
        LeftDecides(last, s, x, NineBits(bits));
      } else if last[s] <= nb {
        FoundIsRight(last, s, b, nb, NineBits(bits));
      } else {
        LeftWanted(last, s, b, nb, bits);
      }
    } else {
      h.LeftNothing(last, b);
      LeftOdd(last, b, nb, bits);
    }
  }

  lemma LeftAccepted(h: Decoder, last: seq<nat>)
    requires h.Left(last) && last != []
    ensures (Complete(last) || Single(last)) && h.chunks.Length == NUM_CHUNKS
  {
  }

  lemma LeftDecides(last: seq<nat>, s: nat, x: nat, w: seq<bool>)
    requires Fits(last) && Matches(last, s, x) && BitsOf(x, MAX_BITS) == w && last[s] <= MAX_BITS
    ensures DecodeSym(last, w) == Some(s)
  {
    hide Pow2, BitsOf, SymBits, DecodeSym;
    BitsPrefix(x, last[s], MAX_BITS);
    DecodeEncode(last, s, w);
  }

  lemma LeftWanted(last: seq<nat>, s: nat, b: nat, nb: nat, bits: seq<bool>)
    requires Fits(last) && (Complete(last) || Single(last)) && Matches(last, s, b)
    requires b < Pow2(nb) && nb < last[s] <= MAX_BITS && BitsOf(b, nb) <= NineBits(bits) && BitsOf(b, nb) <= bits
    ensures Wanted(ByLeftover(last, bits), bits, last[s])
  {
    hide Pow2, BitsOf, SymBits, DecodeSym, Matches, Complete, Single, NineBits;
    var w := NineBits(bits);
    var r := DecodeSym(last, w);
    if r.Some? {
      EstimateIsLow(last, s, b, nb, w, r.value);
    } else {
      if Complete(last) {
        var t := FindSymbol(last, w);
        DecodeEncode(last, t, w);
        assert false;
      }
      MatchUsed(last, s, b);
      SingleOne(last, s);
      if bits == [] { NineOfNone(last, w); }
    }
  }

  /** No bits at all: the nine taken for them start with 0, which is the code of the single symbol. */
  lemma NineOfNone(last: seq<nat>, w: seq<bool>)
    requires Single(last) && Fits(last) && w == NineBits([])
    ensures DecodeSym(last, w).Some?
  {
    hide Single, Fits, DecodeSym;
    var t := SoleSymbol(last);
    assert CodeBits(0, 1) == CodeBits(0, 0) + [false];
    assert SymBits(last, t) == [false] <= w;
    DecodeEncode(last, t, w);
  }

  lemma LeftOdd(last: seq<nat>, b: nat, nb: nat, bits: seq<bool>)
    requires Single(last) && Fits(last) && b % 2 == 1 && b < Pow2(nb) && BitsOf(b, nb) <= bits
    ensures DecodeSym(last, NineBits(bits)) == None
  {
    hide Single, Fits, DecodeSym;
    assert nb > 0 && BitsOf(b, nb)[0] && bits[0];
    var w := NineBits(bits);
    assert w[0];
    if DecodeSym(last, w).Some? { SingleWord(last, DecodeSym(last, w).value); }
  }

  lemma SingleWord(lens: seq<nat>, s: nat)
    requires Single(lens) && Used(lens, s)
    ensures SymBits(lens, s) == [false]
  {
    hide Single;
    var t := SoleSymbol(lens);
    assert CodeBits(0, 1) == CodeBits(0, 0) + [false];
  }

  /** With the single code, bits that start with 1 decode to nothing. */
  lemma Undecodable(lens: seq<nat>, b: nat, nb: nat, bits: seq<bool>)
    requires Single(lens) && Fits(lens) && b < Pow2(nb) && BitsOf(b, nb) <= bits
    requires forall s: nat :: !Matches(lens, s, b)
    ensures DecodeSym(lens, bits) == None && bits != []
  {
    hide Fits, Single;
    var r := DecodeSym(lens, bits);
    if r.Some? { SingleMatch(lens, r.value, b, nb, bits); }
    var t := SoleSymbol(lens);
    SoleMatches(lens, t, b);
    assert !Matches(lens, t, b);
  }

  lemma SingleMatch(lens: seq<nat>, s: nat, b: nat, nb: nat, bits: seq<bool>)
    requires Single(lens) && Fits(lens) && b < Pow2(nb) && BitsOf(b, nb) <= bits
    requires Used(lens, s) && SymBits(lens, s) <= bits
    ensures Matches(lens, s, b)
  {
    var k := CountTo(lens, 1, s);
    CountToMono(lens, 1, s, |lens|);
    assert CodeOf(lens, s) == 0 && SymBits(lens, s) == CodeBits(0, 1) == [false];
    assert bits[0] == false;
    assert b % 2 == 0 by {
      if nb > 0 { assert BitsOf(b, nb)[0] == bits[0]; }
    }
    assert BitsOf(b, 1) == [b % 2 == 1] + BitsOf(b / 2, 0);
  }

  lemma BytesBitsHead(a: seq<byte>)
    requires a != []
    ensures BytesBits(a) == BitsOf(a[0], 8) + BytesBits(a[1..])
  {
  }
}
