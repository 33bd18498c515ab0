/** The two-level lookup table of the decoder: which entry each group of input bits must find, and
    why filling it symbol by symbol never writes over an entry of another symbol. */
module DecoderTable {
  import opened Words
  import opened Canon

  const CHUNK_BITS: nat := 9
  const NUM_CHUNKS: nat := 512
  const COUNT_SPAN: nat := 16

  /** The chunk for symbol s with a code of length n: value above a 4-bit count. */
  function Chunk(value: nat, n: nat): (c: nat)
    requires n < COUNT_SPAN
    ensures c % COUNT_SPAN == n && c / COUNT_SPAN == value
  {
    value * COUNT_SPAN + n
  }

  /** The low bits of b are the code of symbol s, first bit lowest. */
  predicate Matches(lens: seq<nat>, s: nat, b: nat) {
    Used(lens, s) && BitsOf(b, lens[s]) == SymBits(lens, s)
  }

  function Code(lens: seq<nat>, s: nat): (r: nat)
    requires Used(lens, s)
    ensures r < Pow2(lens[s])
  {
    Reverse(CodeOf(lens, s), lens[s])
  }

  lemma MatchesIsLow(lens: seq<nat>, s: nat, b: nat)
    requires Used(lens, s)
    ensures Matches(lens, s, b) <==> Low(b, lens[s]) == Code(lens, s)
  {
    var l := lens[s];
    BitsOfValueOf(SymBits(lens, s));
    ValueOfBitsOf(b, l);
    BitsOfLow(b, l);
  }

  /** At most one symbol matches. */
  lemma MatchOne(lens: seq<nat>, s: nat, t: nat, b: nat)
    requires Fits(lens) && Matches(lens, s, b) && Matches(lens, t, b)
    ensures s == t
  {
    hide SymBits;
    var l, m := lens[s], lens[t];
    var n := if l <= m then m else l;
    BitsPrefix(b, l, n);
    BitsPrefix(b, m, n);
    SameStart(lens, s, t, BitsOf(b, n));
  }

  lemma BitsPrefix(b: nat, l: nat, n: nat)
    requires l <= n
    ensures BitsOf(b, l) <= BitsOf(b, n)
  {
    BitsOfSplit(b, l, n - l);
  }

  /** With a complete code some symbol matches. */
  lemma MatchSome(lens: seq<nat>, b: nat) returns (s: nat)
    requires Complete(lens)
    ensures Matches(lens, s, b)
  {
    hide SymBits;
    s := FindSymbol(lens, BitsOf(b, MAX_BITS));
    BitsPrefix(b, lens[s], MAX_BITS);
  }

  // ---------------------------------------------------------------------------------------------
  // The boundary between direct entries and links.
  // ---------------------------------------------------------------------------------------------

  /** The first 9-bit prefix that leads to longer codes. */
  function FirstLink(lens: seq<nat>): nat {
    FirstCode(lens, CHUNK_BITS + 1) / 2
  }

  lemma FirstLinkScaled(lens: seq<nat>)
    ensures KraftBelow(lens, CHUNK_BITS + 1) == FirstLink(lens) * 64
  {
    hide FirstCode;
    FirstCodeScaled(lens, 10);
    assert Pow2(5) == 32 && Share(10) == Pow2(5);
    assert FirstCode(lens, 10) == 2 * (FirstCode(lens, 9) + Count(lens, 9)) by { FirstCodeTen(lens); }
  }

  lemma FirstCodeTen(lens: seq<nat>)
    ensures FirstCode(lens, 10) == 2 * (FirstCode(lens, 9) + Count(lens, 9))
  {
  }

  lemma {:induction false} ReverseIsMsb(x: nat, n: nat)
    ensures Reverse(x, n) < Pow2(n)
    ensures Reverse(x, n) == MsbValue(BitsOf(x, n))
  {
    if n > 0 {
      var v, w := CodeBits(x, n), BitsOf(x, n);
      CodeBitsFlip(x, n);
      FlipValue(w);
    } else {
      assert CodeBits(x, 0) == [] && BitsOf(x, 0) == [];
    }
  }

  function Flip(s: seq<bool>): (r: seq<bool>)
    ensures |r| == |s|
  {
    if s == [] then [] else Flip(s[1..]) + [s[0]]
  }

  lemma {:induction false} CodeBitsFlip(x: nat, n: nat)
    ensures CodeBits(x, n) == Flip(BitsOf(x, n))
  {
    if n > 0 {
      CodeBitsFlip(x / 2, n - 1);
      assert BitsOf(x, n)[1..] == BitsOf(x / 2, n - 1);
    }
  }

  lemma {:induction false} FlipLast(s: seq<bool>, b: bool)
    ensures Flip(s + [b]) == [b] + Flip(s)
  {
    if s == [] {
      assert s + [b] == [b];
      assert Flip([b]) == Flip([b][1..]) + [b];
    } else {
      FlipLast(s[1..], b);
      assert (s + [b])[1..] == s[1..] + [b];
    }
  }

  lemma {:induction false} FlipValue(s: seq<bool>)
    ensures ValueOf(Flip(s)) == MsbValue(s)
  {
    if s != [] {
      var i, b := s[..|s| - 1], s[|s| - 1];
      assert s == i + [b];
      FlipLast(i, b);
      FlipValue(i);
      assert Flip(s)[1..] == Flip(i);
    }
  }

  /** Short codes lie below the boundary. */
  lemma ShortBelow(lens: seq<nat>, s: nat, b: nat)
    requires Fits(lens) && Matches(lens, s, b) && lens[s] <= CHUNK_BITS
    ensures Reverse(b, CHUNK_BITS) < FirstLink(lens)
  {
    hide SymBits, Start, Fits, KraftBelow, BitsOf, Reverse;
    var v, w := Low(b, CHUNK_BITS), BitsOf(b, CHUNK_BITS);
    var p := BitsOf(v, MAX_BITS);
    assert p == w + BitsOf(0, 6) by { NineAndSix(b); }
    BitsPrefix(b, lens[s], CHUNK_BITS);
    assert SymBits(lens, s) <= p;
    SymBitsIff(lens, s, p);
    FitsValid(lens);
    ShareInside(lens, s);
    KraftBelowMono(lens, lens[s] + 1, CHUNK_BITS + 1);
    MsbTail(w, BitsOf(0, 6));
    ReverseIsMsb(b, CHUNK_BITS);
    FirstLinkScaled(lens);
  }

  lemma FitsValid(lens: seq<nat>)
    requires Fits(lens)
    ensures ValidLens(lens)
  {
  }

  lemma NineAndSix(b: nat)
    ensures BitsOf(Low(b, 9), 15) == BitsOf(b, 9) + BitsOf(0, 6)
  {
    BitsOfSplit(Low(b, 9), 9, 6);
    BitsOfLow(b, 9);
    LowSmall(Low(b, 9), 9);
  }

  lemma MsbTail(w: seq<bool>, t: seq<bool>)
    requires |t| == 6
    ensures MsbValue(w) * 64 <= MsbValue(w + t) < MsbValue(w) * 64 + 64
  {
    MsbValueSplit(w, t);
    assert Pow2(6) == 64;
  }

  /** Long codes lie at or above the boundary. */
  lemma LongAbove(lens: seq<nat>, s: nat, b: nat)
    requires Fits(lens) && Matches(lens, s, b) && lens[s] > CHUNK_BITS
    ensures Reverse(b, CHUNK_BITS) >= FirstLink(lens)
    ensures lens[s] <= MAX_BITS
  {
    hide SymBits, Start, Fits, KraftBelow, BitsOf, Reverse;
    FitsValid(lens);
    var p := BitsOf(b, MAX_BITS);
    assert p == BitsOf(b, 9) + BitsOf(Shr(b, 9), 6) by { BitsOfSplit(b, 9, 6); }
    BitsPrefix(b, lens[s], MAX_BITS);
    SymBitsIff(lens, s, p);
    ShareInside(lens, s);
    KraftBelowMono(lens, CHUNK_BITS + 1, lens[s]);
    MsbTail(BitsOf(b, 9), BitsOf(Shr(b, 9), 6));
    ReverseIsMsb(b, CHUNK_BITS);
    FirstLinkScaled(lens);
  }

  // ---------------------------------------------------------------------------------------------
  // The table.
  // ---------------------------------------------------------------------------------------------

  /** The secondary table that a 9-bit prefix leads to. */
  function LinkIndex(lens: seq<nat>, b: nat): int {
    Reverse(b, CHUNK_BITS) - FirstLink(lens)
  }

  function SecondIndex(b: nat, max: nat): nat
    requires max >= CHUNK_BITS
  {
    Low(Shr(b, CHUNK_BITS), max - CHUNK_BITS)
  }

  predicate Shaped(lens: seq<nat>, chunks: seq<nat>, links: seq<seq<nat>>, max: nat) {
    && |chunks| == NUM_CHUNKS
    && max <= MAX_BITS && (forall s :: 0 <= s < |lens| ==> lens[s] <= max)
    && (max > CHUNK_BITS ==>
      && |links| >= NUM_CHUNKS - FirstLink(lens)
      && forall k :: 0 <= k < NUM_CHUNKS - FirstLink(lens) ==> |links[k]| >= Pow2(max - CHUNK_BITS))
  }

  /** Every prefix at or above the boundary leads to its link table. */
  predicate Linked(lens: seq<nat>, chunks: seq<nat>, max: nat) {
    |chunks| == NUM_CHUNKS &&
    (max > CHUNK_BITS ==> forall x :: 0 <= x < NUM_CHUNKS && LinkIndex(lens, x) >= 0 ==>
      chunks[x] == Chunk(LinkIndex(lens, x), CHUNK_BITS + 1))
  }

  /** The entries of symbol s are in place. */
  ghost predicate Stored(lens: seq<nat>, chunks: seq<nat>, links: seq<seq<nat>>, max: nat, s: nat)
    requires Shaped(lens, chunks, links, max)
  {
    forall b: nat :: Matches(lens, s, b) ==>
      if lens[s] <= CHUNK_BITS then chunks[Low(b, CHUNK_BITS)] == Chunk(s, lens[s])
      else
        && 0 <= LinkIndex(lens, b) < |links|
        && SecondIndex(b, max) < |links[LinkIndex(lens, b)]|
        && links[LinkIndex(lens, b)][SecondIndex(b, max)] == Chunk(s, lens[s])
  }

  /** Codes of at most 9 bits only: chunks no code reaches stay empty. */
  predicate Blank(lens: seq<nat>, chunks: seq<nat>, max: nat, k: nat) {
    |chunks| == NUM_CHUNKS &&
    (max <= CHUNK_BITS ==> forall x :: 0 <= x < NUM_CHUNKS ==>
      chunks[x] == 0 || exists s :: 0 <= s < k && Matches(lens, s, x))
  }

  /** The first k symbols are in place. */
  ghost predicate Filled(lens: seq<nat>, chunks: seq<nat>, links: seq<seq<nat>>, max: nat, k: nat) {
    && Shaped(lens, chunks, links, max)
    && Linked(lens, chunks, max)
    && (forall s :: 0 <= s < k && s < |lens| ==> Stored(lens, chunks, links, max, s))
    && Blank(lens, chunks, max, k)
  }

  /** Reading the table: a direct chunk, or the entry of the link table it leads to. */
  function Lookup(chunks: seq<nat>, links: seq<seq<nat>>, linkMask: nat, b: nat): nat
    requires |chunks| == NUM_CHUNKS
  {
    var c := chunks[Low(b, CHUNK_BITS)];
    if c % COUNT_SPAN <= CHUNK_BITS then c
    else if c / COUNT_SPAN < |links| then
      var t := links[c / COUNT_SPAN];
      var i := And(Shr(b, CHUNK_BITS), linkMask);
      if i < |t| then t[i] else 0
    else 0
  }

  lemma LowIndex(b: nat)
    ensures Low(b, CHUNK_BITS) < NUM_CHUNKS
    ensures Reverse(Low(b, CHUNK_BITS), CHUNK_BITS) == Reverse(b, CHUNK_BITS)
    ensures BitsOf(Low(b, CHUNK_BITS), CHUNK_BITS) == BitsOf(b, CHUNK_BITS)
  {
    BitsOfLow(b, CHUNK_BITS);
    ReverseIsMsb(b, CHUNK_BITS);
    ReverseIsMsb(Low(b, CHUNK_BITS), CHUNK_BITS);
    assert Pow2(9) == 512;
  }

  /** A filled table finds the symbol that the bits start with, whatever follows its code. */
  lemma LookupFinds(lens: seq<nat>, chunks: seq<nat>, links: seq<seq<nat>>, max: nat, linkMask: nat, s: nat, b: nat)
    requires Fits(lens) && Filled(lens, chunks, links, max, |lens|) && Matches(lens, s, b)
    requires max > CHUNK_BITS ==> linkMask == Pow2(max - CHUNK_BITS) - 1
    ensures lens[s] <= MAX_BITS && Lookup(chunks, links, linkMask, b) == Chunk(s, lens[s])
  {
    hide Reverse, FirstLink, Pow2, Fits, Low, Shr, BitsOf, SymBits;
    LowIndex(b);
    assert Stored(lens, chunks, links, max, s);
    if lens[s] > CHUNK_BITS {
      LongAbove(lens, s, b);
      LinkIndexBound(lens, b);
      var x := Low(b, CHUNK_BITS);
      assert LinkIndex(lens, x) == LinkIndex(lens, b) >= 0;
      AndMask(Shr(b, CHUNK_BITS), max - CHUNK_BITS);
    }
  }

  /** The tables of an accepted code whose longest length is max. */
  ghost predicate TableFor(lens: seq<nat>, chunks: seq<nat>, links: seq<seq<nat>>, linkMask: nat, max: nat) {
    && Fits(lens) && Filled(lens, chunks, links, max, |lens|)
    && (max > CHUNK_BITS ==> linkMask == Pow2(max - CHUNK_BITS) - 1)
  }

  /** A direct code matches a chunk index exactly when it matches the bits it was cut from. */
  lemma ShortMatch(lens: seq<nat>, s: nat, b: nat)
    requires Used(lens, s) && lens[s] <= CHUNK_BITS
    ensures Matches(lens, s, b) <==> Matches(lens, s, Low(b, CHUNK_BITS))
  {
    LowLow(b, CHUNK_BITS, lens[s]);
    MatchesIsLow(lens, s, b);
    MatchesIsLow(lens, s, Low(b, CHUNK_BITS));
  }

  /** A long code matches exactly when its first nine bits and its remaining bits do. */
  lemma LongMatch(lens: seq<nat>, s: nat, b: nat, max: nat)
    requires Used(lens, s) && CHUNK_BITS < lens[s] <= max
    ensures Matches(lens, s, b) <==>
      && Low(b, CHUNK_BITS) == Low(Code(lens, s), CHUNK_BITS)
      && Low(SecondIndex(b, max), lens[s] - CHUNK_BITS) == Shr(Code(lens, s), CHUNK_BITS)
  {
    var l, c := lens[s], Code(lens, s);
    hide Code, Low, Shr, Matches, Pow2, Used;
    assert SecondIndex(b, max) == Low(Shr(b, CHUNK_BITS), max - CHUNK_BITS);
    MatchesIsLow(lens, s, b);
    LowLow(b, l, CHUNK_BITS);
    ShrLow(b, l, CHUNK_BITS);
    LowLow(Shr(b, CHUNK_BITS), max - CHUNK_BITS, l - CHUNK_BITS);
    WordParts(Low(b, l), c, CHUNK_BITS);
  }

  /** Equal link indices come from equal prefixes. */
  lemma SameLink(lens: seq<nat>, a: nat, b: nat)
    requires LinkIndex(lens, a) == LinkIndex(lens, b)
    ensures Low(a, CHUNK_BITS) == Low(b, CHUNK_BITS)
  {
    ReverseIsMsb(a, CHUNK_BITS);
    ReverseIsMsb(b, CHUNK_BITS);
    var v, w := BitsOf(a, CHUNK_BITS), BitsOf(b, CHUNK_BITS);
    CodeBitsOfMsbValue(v);
    CodeBitsOfMsbValue(w);
    BitsOfEqual(a, b, CHUNK_BITS);
  }

  // ---------------------------------------------------------------------------------------------
  // Storing one symbol.
  // ---------------------------------------------------------------------------------------------

  /** r is q with value v at every index of the first n that has the low bits m of width l. */
  predicate Spread(q: seq<nat>, r: seq<nat>, n: nat, l: nat, m: nat, v: nat) {
    && |r| == |q| && n <= |q|
    && forall x :: 0 <= x < |q| ==> r[x] == if x < n && Low(x, l) == m then v else q[x]
  }

  /** A direct symbol: all chunks with its code in their low bits. */
  lemma StoreShort(lens: seq<nat>, chunks: seq<nat>, r: seq<nat>, links: seq<seq<nat>>, max: nat, i: nat)
    requires Fits(lens) && Used(lens, i) && lens[i] <= CHUNK_BITS && Filled(lens, chunks, links, max, i)
    requires Spread(chunks, r, NUM_CHUNKS, lens[i], Code(lens, i), Chunk(i, lens[i]))
    ensures Filled(lens, r, links, max, i + 1)
  {
    hide Fits, Code, Low, Reverse, FirstLink, BitsOf, SymBits, Shr;
    forall x | 0 <= x < NUM_CHUNKS && max > CHUNK_BITS && LinkIndex(lens, x) >= 0
      ensures r[x] == chunks[x]
    {
      MatchesIsLow(lens, i, x);
      if Matches(lens, i, x) {
        ShortBelow(lens, i, x);
        assert false;
      }
    }
    forall s | 0 <= s < i + 1
      ensures Stored(lens, r, links, max, s)
    {
      forall b: nat | Matches(lens, s, b) && lens[s] <= CHUNK_BITS
        ensures Low(b, CHUNK_BITS) < NUM_CHUNKS && r[Low(b, CHUNK_BITS)] == Chunk(s, lens[s])
      {
        LowIndex(b);
        ShortMatch(lens, s, b);
        MatchesIsLow(lens, i, Low(b, CHUNK_BITS));
        if s < i {
          assert Stored(lens, chunks, links, max, s);
          if Matches(lens, i, Low(b, CHUNK_BITS)) {
            MatchOne(lens, s, i, Low(b, CHUNK_BITS));
          }
        }
      }
      if s < i { assert Stored(lens, chunks, links, max, s); }
    }
    forall x | 0 <= x < NUM_CHUNKS && max <= CHUNK_BITS
      ensures r[x] == 0 || exists s :: 0 <= s < i + 1 && Matches(lens, s, x)
    {
      MatchesIsLow(lens, i, x);
      if !Matches(lens, i, x) {
        assert r[x] == chunks[x];
        if chunks[x] != 0 {
          var s :| 0 <= s < i && Matches(lens, s, x);
        }
      }
    }
  }

  /** A long symbol: the entries of one link table with the rest of its code in their low bits. */
  lemma StoreLong(lens: seq<nat>, chunks: seq<nat>, links: seq<seq<nat>>, t: seq<nat>, max: nat, i: nat, k: nat)
    requires Fits(lens) && Used(lens, i) && CHUNK_BITS < lens[i] <= max && Filled(lens, chunks, links, max, i)
    requires k < |links| && k == LinkIndex(lens, Code(lens, i))
    requires Spread(links[k], t, Pow2(max - CHUNK_BITS), lens[i] - CHUNK_BITS, Shr(Code(lens, i), CHUNK_BITS),
      Chunk(i, lens[i]))
    ensures Filled(lens, chunks, links[k := t], max, i + 1)
  {
    hide Fits, Code, Low, Reverse, FirstLink, BitsOf, SymBits, Shr, Pow2;
    var r := links[k := t];
    forall s | 0 <= s < i + 1
      ensures Stored(lens, chunks, r, max, s)
    {
      if s < i { assert Stored(lens, chunks, links, max, s); }
      forall b: nat | Matches(lens, s, b) && lens[s] > CHUNK_BITS
        ensures 0 <= LinkIndex(lens, b) < |r| && SecondIndex(b, max) < |r[LinkIndex(lens, b)]|
        ensures r[LinkIndex(lens, b)][SecondIndex(b, max)] == Chunk(s, lens[s])
      {
        LongAbove(lens, s, b);
        LinkIndexBound(lens, b);
        LongMatch(lens, i, b, max);
        if s == i {
          SameBits(lens, b, Code(lens, i));
        } else if LinkIndex(lens, b) == k {
          SameLink(lens, b, Code(lens, i));
          if Matches(lens, i, b) { MatchOne(lens, s, i, b); }
        }
      }
    }
  }

  lemma SameBits(lens: seq<nat>, a: nat, b: nat)
    requires Low(a, CHUNK_BITS) == Low(b, CHUNK_BITS)
    ensures LinkIndex(lens, a) == LinkIndex(lens, b)
  {
    LowIndex(a);
    LowIndex(b);
  }

  lemma LinkIndexBound(lens: seq<nat>, b: nat)
    ensures LinkIndex(lens, b) < NUM_CHUNKS - FirstLink(lens)
  {
    ReverseIsMsb(b, CHUNK_BITS);
    assert Pow2(9) == 512;
  }

  /** Skipping a symbol without a code. */
  lemma StoreNone(lens: seq<nat>, chunks: seq<nat>, links: seq<seq<nat>>, max: nat, i: nat)
    requires Filled(lens, chunks, links, max, i) && i < |lens| && lens[i] == 0
    ensures Filled(lens, chunks, links, max, i + 1)
  {
    hide Shaped, LinkIndex, SecondIndex;
    forall x | 0 <= x < NUM_CHUNKS && max <= CHUNK_BITS
      ensures chunks[x] == 0 || exists s :: 0 <= s < i + 1 && Matches(lens, s, x)
    {
      if chunks[x] != 0 {
        var s :| 0 <= s < i && Matches(lens, s, x);
      }
    }
  }

  // ---------------------------------------------------------------------------------------------
  // Tables left over when an empty code follows: they are not cleared.
  // ---------------------------------------------------------------------------------------------

  /** A lookup in leftover tables sees nine bits: it finds the symbol that these start with if zeros follow. */
  lemma LeftoverIs(lens: seq<nat>, chunks: seq<nat>, links: seq<seq<nat>>, linkMask: nat, max: nat, s: nat, b: nat)
    requires TableFor(lens, chunks, links, linkMask, max) && Matches(lens, s, Low(b, CHUNK_BITS))
    ensures lens[s] <= MAX_BITS && Lookup(chunks, links, 0, b) == Chunk(s, lens[s])
  {
    hide Reverse, FirstLink, Pow2, Fits, Low, Shr, BitsOf, SymBits;
    LowIndex(b);
    var x := Low(b, CHUNK_BITS);
    assert Stored(lens, chunks, links, max, s);
    LowLow(b, CHUNK_BITS, CHUNK_BITS);
    if lens[s] > CHUNK_BITS {
      LongAbove(lens, s, x);
      LinkIndexBound(lens, x);
      ShrNine(b);
      LowSmallZero(max - CHUNK_BITS);
    }
  }

  /** So lookups in the leftover tables of a complete code never fail, although the code is now empty. */
  lemma LeftoverFinds(lens: seq<nat>, chunks: seq<nat>, links: seq<seq<nat>>, linkMask: nat, max: nat, b: nat)
    requires Complete(lens) && TableFor(lens, chunks, links, linkMask, max)
    ensures Lookup(chunks, links, 0, b) % COUNT_SPAN != 0
  {
    hide Low, BitsOf, SymBits, Complete, Fits;
    var s := MatchSome(lens, Low(b, CHUNK_BITS));
    LeftoverIs(lens, chunks, links, linkMask, max, s, b);
  }

  lemma ShrNine(b: nat)
    ensures Shr(Low(b, CHUNK_BITS), CHUNK_BITS) == 0
  {
    LowSmall(Low(b, CHUNK_BITS), CHUNK_BITS);
  }

  lemma LowSmallZero(n: nat)
    ensures Low(0, n) == 0
  {
    LowSmall(0, n);
  }

  /** Lookups in tables that never held a code always fail. */
  lemma NothingFinds(chunks: seq<nat>, links: seq<seq<nat>>, linkMask: nat, b: nat)
    requires |chunks| == NUM_CHUNKS && forall x :: 0 <= x < NUM_CHUNKS ==> chunks[x] == 0
    ensures Lookup(chunks, links, linkMask, b) == 0
  {
    hide Low, Shr, Pow2, And, Reverse, BitsOf;
    LowIndex(b);
    assert chunks[Low(b, CHUNK_BITS)] == 0;
  }
}
