/** The decoder's tables, built in place from code lengths, and what a lookup in them finds. */
module HuffmanDecoder {
  import opened Words
  import opened Canon
  import opened DecoderTable

  /** Storing into a 16-bit chunk: the value must fit. */
  function Chunk16(c: nat): nat
    requires c < 0x1_0000
  {
    c
  }

  // ---------------------------------------------------------------------------------------------
  // Lengths in use.
  // ---------------------------------------------------------------------------------------------

  /** min and max are the shortest and the longest length among the first k, or both 0. */
  predicate Extremes(lens: seq<nat>, k: nat, min: nat, max: nat) {
    && k <= |lens| && (min == 0 <==> max == 0) && min <= max
    && (forall s :: 0 <= s < k ==> lens[s] <= max && (lens[s] > 0 ==> min <= lens[s]))
    && (max > 0 ==> (exists s :: 0 <= s < k && lens[s] == max) && exists s :: 0 <= s < k && lens[s] == min)
  }

  lemma {:induction false} NoneOf(lens: seq<nat>, l: nat, k: nat)
    requires k <= |lens| && forall s :: 0 <= s < k ==> lens[s] != l
    ensures CountTo(lens, l, k) == 0
  {
    if k > 0 { NoneOf(lens, l, k - 1); }
  }

  /** Below the shortest length the first code is 0. */
  lemma {:induction false} FirstCodeLow(lens: seq<nat>, min: nat, max: nat, l: nat)
    requires Extremes(lens, |lens|, min, max) && 1 <= l <= min
    ensures FirstCode(lens, l) == 0
  {
    if l > 1 {
      FirstCodeLow(lens, min, max, l - 1);
      NoneOf(lens, l - 1, |lens|);
    }
  }

  lemma FirstCodeUp(lens: seq<nat>, l: nat)
    requires l >= 1
    ensures FirstCode(lens, l) == if l == 1 then 0 else 2 * (FirstCode(lens, l - 1) + Count(lens, l - 1))
  {
  }

  /** The counts of all lengths. */
  predicate Tallied(lens: seq<nat>, count: seq<nat>) {
    |count| == MAX_BITS + 1 && forall l :: 1 <= l <= MAX_BITS ==> count[l] == Count(lens, l)
  }

  /** First codes of the lengths below k. */
  predicate FirstTo(lens: seq<nat>, next: seq<nat>, k: nat) {
    1 <= k <= MAX_BITS + 1 == |next| && forall l :: 1 <= l < k ==> next[l] == FirstCode(lens, l)
  }

  lemma LowCodes(lens: seq<nat>, min: nat, max: nat, next: seq<nat>)
    requires Extremes(lens, |lens|, min, max) && 1 <= max <= MAX_BITS
    requires |next| == MAX_BITS + 1 && forall l :: 0 <= l < |next| ==> next[l] == 0
    ensures 1 <= min <= max && FirstTo(lens, next, min) && FirstCode(lens, min) == 0
  {
    forall l | 1 <= l <= min ensures FirstCode(lens, l) == 0 { FirstCodeLow(lens, min, max, l); }
  }

  lemma FirstStep(lens: seq<nat>, next: seq<nat>, count: seq<nat>, i: nat)
    requires FirstTo(lens, next, i) && Tallied(lens, count) && i <= MAX_BITS
    ensures |count| == |next| == MAX_BITS + 1
    ensures FirstTo(lens, next[i := FirstCode(lens, i)], i + 1)
    ensures FirstCode(lens, i + 1) == 2 * (FirstCode(lens, i) + count[i])
  {
  }

  lemma {:induction false} KraftAbove(lens: seq<nat>, min: nat, max: nat, l: nat)
    requires Extremes(lens, |lens|, min, max) && max < l <= MAX_BITS + 1
    ensures KraftBelow(lens, l) == KraftBelow(lens, max + 1)
  {
    if l > max + 1 {
      KraftAbove(lens, min, max, l - 1);
      NoneOf(lens, l - 1, |lens|);
    }
  }

  /** The completeness test on the code after the last one is the Kraft equality. */
  lemma FullIffComplete(lens: seq<nat>, min: nat, max: nat)
    requires ValidLens(lens) && Extremes(lens, |lens|, min, max) && 1 <= max <= MAX_BITS
    ensures FirstCode(lens, max) + Count(lens, max) == Pow2(max) <==> Complete(lens)
  {
    hide Pow2, FirstCode, Count;
    var e, u := FirstCode(lens, max) + Count(lens, max), Share(max);
    KraftAbove(lens, min, max, MAX_BITS + 1);
    FirstCodeScaled(lens, max);
    MulAdd(FirstCode(lens, max), Count(lens, max), u);
    Pow2Add(max, MAX_BITS - max);
    MulLess(e, Pow2(max), u);
    MulLess(Pow2(max), e, u);
  }

  lemma OneIffSingle(lens: seq<nat>, min: nat, max: nat)
    requires Extremes(lens, |lens|, min, max) && 1 <= max
    ensures (FirstCode(lens, max) + Count(lens, max) == 1 && max == 1) <==> Single(lens)
  {
    if max == 1 {
      assert FirstCode(lens, 1) == 0;
    }
  }

  /** A complete or a single code fits in the code space. */
  lemma AcceptedFits(lens: seq<nat>)
    requires Complete(lens) || Single(lens)
    ensures Fits(lens)
  {
    if Single(lens) {
      var s := FindNth(lens, 1, 0, |lens|);
      assert Extremes(lens, |lens|, 1, 1);
      KraftAbove(lens, 1, 1, MAX_BITS + 1);
      FirstCodeScaled(lens, 1);
      assert Share(1) <= Pow2(MAX_BITS) by { Pow2Mono(MAX_BITS - 1, MAX_BITS); }
    }
  }

  lemma LinkRoom(lens: seq<nat>)
    requires Fits(lens)
    ensures FirstLink(lens) <= NUM_CHUNKS
  {
    FirstLinkScaled(lens);
    KraftBelowMono(lens, 10, 16);
    assert Pow2(15) == 512 * 64;
  }

  // ---------------------------------------------------------------------------------------------
  // Spreading one entry over a table.
  // ---------------------------------------------------------------------------------------------

  /** Entries below off are written, the others are as they were. */
  predicate SpreadTo(q: seq<nat>, r: seq<nat>, off: nat, l: nat, m: nat, v: nat) {
    && |r| == |q|
    && forall x :: 0 <= x < |q| ==> r[x] == if x < off && Low(x, l) == m then v else q[x]
  }

  lemma SpreadStep(q: seq<nat>, r: seq<nat>, off: nat, l: nat, m: nat, v: nat)
    requires SpreadTo(q, r, off, l, m, v) && off < |q| && Low(off, l) == m
    ensures SpreadTo(q, r[off := v], off + Pow2(l), l, m, v) && Low(off + Pow2(l), l) == m
  {
    hide Pow2;
    LowAdd(off, l);
    forall x | off < x < |q| && x < off + Pow2(l)
      ensures Low(x, l) != m
    {
      if Low(x, l) == m { LowGap(off, x, l); }
    }
  }

  lemma SpreadStart(q: seq<nat>, l: nat, m: nat, v: nat)
    requires m < Pow2(l)
    ensures SpreadTo(q, q, m, l, m, v) && Low(m, l) == m
  {
    hide Pow2;
    LowSmall(m, l);
    forall x | 0 <= x < |q| && x < m
      ensures Low(x, l) != m
    {
      LowSmall(x, l);
    }
  }

  lemma SpreadEnd(q: seq<nat>, r: seq<nat>, off: nat, n: nat, l: nat, m: nat, v: nat)
    requires SpreadTo(q, r, off, l, m, v) && n <= |q| && off >= n
    requires forall x :: n <= x < |q| ==> r[x] == q[x]
    ensures Spread(q, r, n, l, m, v)
  {
  }

  /** Writes v at start, start + 2^l, ... below n. */
  method SpreadArray(a: array<nat>, start: nat, n: nat, l: nat, v: nat)
    requires n == a.Length && start < Pow2(l)
    modifies a
    ensures Spread(old(a[..]), a[..], n, l, start, v)
  {
    hide SpreadTo, Spread;
    ghost var q := a[..];
    SpreadStart(q, l, start, v);
    var off := start;
    while off < a.Length
      invariant SpreadTo(q, a[..], off, l, start, v) && Low(off, l) == start
      decreases a.Length + Pow2(l) - off
    {
      ghost var r := a[..];
      SpreadStep(q, r, off, l, start, v);
      a[off] := v;
      assert a[..] == r[off := v];
      off := off + Pow2(l);
    }
    SpreadEnd(q, a[..], off, n, l, start, v);
  }

  method SpreadSeq(t: seq<nat>, start: nat, n: nat, l: nat, v: nat) returns (r: seq<nat>)
    requires n <= |t| && start < Pow2(l)
    ensures Spread(t, r, n, l, start, v)
  {
    hide SpreadTo;
    var head := t[..n];
    var tail := t[n..];
    var h: seq<nat> := head;
    SpreadStart(head, l, start, v);
    var off := start;
    while off < n
      invariant SpreadTo(head, h, off, l, start, v) && Low(off, l) == start && |h| == n
      decreases n + Pow2(l) - off
    {
      SpreadStep(head, h, off, l, start, v);
      h := h[off := v];
      off := off + Pow2(l);
    }
    r := h + tail;
    SpreadJoin(t, head, h, tail, off, l, start, v);
  }

  lemma SpreadJoin(t: seq<nat>, head: seq<nat>, h: seq<nat>, tail: seq<nat>, off: nat, l: nat, m: nat, v: nat)
    requires t == head + tail && SpreadTo(head, h, off, l, m, v) && off >= |head|
    ensures Spread(t, h + tail, |head|, l, m, v)
  {
  }

  // ---------------------------------------------------------------------------------------------
  // huffmanDecoder
  // ---------------------------------------------------------------------------------------------

  lemma {:induction false} ReverseTwice(x: nat, n: nat)
    requires x < Pow2(n)
    ensures Reverse(Reverse(x, n), n) == x
  {
    hide Pow2;
    var r := Reverse(x, n);
    BitsOfValueOf(CodeBits(x, n));
    assert BitsOf(r, n) == CodeBits(x, n);
    ReverseIsMsb(r, n);
    MsbValueOfCodeBits(x, n);
  }

  /** Link chunks made so far: those of prefixes from the boundary to j. */
  predicate LinkedTo(lens: seq<nat>, chunks: seq<nat>, j: nat) {
    |chunks| == NUM_CHUNKS && forall x :: 0 <= x < NUM_CHUNKS && 0 <= LinkIndex(lens, x) < j - FirstLink(lens) ==>
      chunks[x] == Chunk(LinkIndex(lens, x), CHUNK_BITS + 1)
  }

  lemma LinkStep(lens: seq<nat>, chunks: seq<nat>, j: nat)
    requires LinkedTo(lens, chunks, j) && FirstLink(lens) <= j < NUM_CHUNKS
    ensures var r := Shr(Reverse(j, 16), 16 - CHUNK_BITS);
      && r < NUM_CHUNKS
      && LinkedTo(lens, chunks[r := Chunk(j - FirstLink(lens), CHUNK_BITS + 1)], j + 1)
  {
    hide Reverse, FirstLink, Shr;
    assert Pow2(9) == 512;
    ReverseShift(j, CHUNK_BITS, 16);
    ReverseTwice(j, CHUNK_BITS);
    var r := Reverse(j, CHUNK_BITS);
    forall x | 0 <= x < NUM_CHUNKS && LinkIndex(lens, x) == j - FirstLink(lens)
      ensures x == r
    {
      ReverseTwice(x, CHUNK_BITS);
    }
  }

  lemma LinkAll(lens: seq<nat>, chunks: seq<nat>, max: nat)
    requires LinkedTo(lens, chunks, NUM_CHUNKS)
    ensures Linked(lens, chunks, max)
  {
    forall x | 0 <= x < NUM_CHUNKS
      ensures LinkIndex(lens, x) < NUM_CHUNKS - FirstLink(lens)
    {
      LinkIndexBound(lens, x);
    }
  }

  lemma BlankStart(lens: seq<nat>, chunks: seq<nat>, links: seq<seq<nat>>, max: nat)
    requires Shaped(lens, chunks, links, max) && Linked(lens, chunks, max)
    requires max <= CHUNK_BITS ==> forall x :: 0 <= x < NUM_CHUNKS ==> chunks[x] == 0
    ensures Filled(lens, chunks, links, max, 0)
  {
  }

  /** The code of symbol i as the fill loop computes it. */
  lemma FillCode(lens: seq<nat>, next: seq<nat>, max: nat, i: nat)
    requires Fits(lens) && Used(lens, i) && NextAt(lens, next, max, i) && lens[i] <= max
    ensures Shr(Reverse(next[lens[i]], 16), 16 - lens[i]) == Code(lens, i)
  {
    hide Reverse, Shr, FirstCode, CountTo, Fits, Pow2;
    CodeFits(lens, i);
    FitsValid(lens);
    ReverseShift(CodeOf(lens, i), lens[i], 16);
  }

  /** The chunk that a long code finds leads to its link table. */
  lemma FillLink(lens: seq<nat>, chunks: seq<nat>, links: seq<seq<nat>>, max: nat, i: nat)
    requires Fits(lens) && Used(lens, i) && CHUNK_BITS < lens[i] && Filled(lens, chunks, links, max, i)
    ensures var j := And(Code(lens, i), NUM_CHUNKS - 1);
      && j < NUM_CHUNKS && chunks[j] / COUNT_SPAN == LinkIndex(lens, Code(lens, i)) < |links|
      && CHUNK_BITS < max && |links[chunks[j] / COUNT_SPAN]| >= Pow2(max - CHUNK_BITS)
  {
    hide Reverse, FirstLink, Low, Shr, BitsOf, SymBits, CodeOf, Fits, Pow2;
    var c := Code(lens, i);
    assert Pow2(9) == 512 by { ChunkPower(); }
    AndMask(c, CHUNK_BITS);
    LowIndex(c);
    LowSmall(c, lens[i]);
    MatchesIsLow(lens, i, c);
    LongAbove(lens, i, c);
    LinkIndexBound(lens, c);
  }

  lemma ChunkPower()
    ensures Pow2(9) == 512
  {
  }

  lemma ShrCode(lens: seq<nat>, i: nat)
    requires Used(lens, i) && lens[i] > CHUNK_BITS
    ensures Shr(Code(lens, i), CHUNK_BITS) < Pow2(lens[i] - CHUNK_BITS)
  {
    ShrBound(Code(lens, i), CHUNK_BITS, lens[i] - CHUNK_BITS);
  }

  class Decoder {
    var maxRead: nat
    const chunks: array<nat>
    var links: seq<seq<nat>>
    var linkMask: nat
    /** The last code accepted that was not empty. */
    ghost var last: seq<nat>

    constructor ()
      ensures fresh(chunks) && chunks.Length == NUM_CHUNKS && maxRead == 0 && last == [] && Kept()
    {
      chunks := new nat[NUM_CHUNKS](_ => 0);
      maxRead, links, linkMask, last := 0, [], 0, [];
    }

    /** The chunks and links are those made for the last code accepted that was not empty; before the first
        they are blank. With nothing to read, the mask that selects in a link table is gone. */
    ghost predicate Kept()
      reads this, chunks
    {
      && chunks.Length == NUM_CHUNKS && (maxRead == 0 ==> linkMask == 0)
      && MadeLast(last, chunks[..], links)
    }

    /** What is left of that code, or nothing, with the mask gone. */
    ghost predicate Left(last: seq<nat>)
      reads this`links, this`linkMask, chunks
    {
      && chunks.Length == NUM_CHUNKS && linkMask == 0
      && MadeLast(last, chunks[..], links)
    }

    /** The tables in use with this code: its own or, if it is empty, what is left of the last one. */
    ghost predicate Ready(lens: seq<nat>, last: seq<nat>)
      reads this`links, this`linkMask, chunks
    {
      if Empty(lens) then Left(last) else Holds(lens)
    }

    lemma KeptLeft()
      requires Kept() && maxRead == 0
      ensures Left(last)
    {
    }

    /** What is left of a code is found by the first nine bits alone. */
    lemma LeftSymbol(last: seq<nat>, s: nat, b: nat)
      requires Left(last) && last != [] && Matches(last, s, Low(b, CHUNK_BITS))
      ensures 1 <= last[s] <= MAX_BITS && Find(b) == Chunk(s, last[s])
    {
      hide Complete, Single, Fits, Filled, Low, Matches;
      var max, mask :| MadeFor(last, chunks[..], links, mask, max);
      LeftoverIs(last, chunks[..], links, mask, max, s, b);
      MatchUsed(last, s, Low(b, CHUNK_BITS));
    }

    lemma LeftNothing(last: seq<nat>, b: nat)
      requires Left(last) && last != [] && forall s: nat :: !Matches(last, s, Low(b, CHUNK_BITS))
      ensures Single(last) && Find(b) % COUNT_SPAN == 0 && b % 2 == 1
    {
      hide Complete, Single, Fits, Filled, Low, Matches;
      var max, mask :| MadeFor(last, chunks[..], links, mask, max);
      if Complete(last) {
        var s := MatchSome(last, Low(b, CHUNK_BITS));
        assert false;
      }
      SingleFinds(last, chunks[..], links, mask, max, b);
      LowParity(b);
      var t := SoleSymbol(last);
      SoleMatches(last, t, Low(b, CHUNK_BITS));
      assert !Matches(last, t, Low(b, CHUNK_BITS));
    }

    /** After an empty code, lookups go to what is left of the last code that was not empty: all fail if
        there was none, none fails if that code was complete, and with the code of a single symbol those
        fail whose first bit is set. */
    lemma Leftover(b: nat)
      requires Kept() && maxRead == 0
      ensures last == [] ==> Find(b) == 0
      ensures last != [] && Complete(last) ==> Find(b) % COUNT_SPAN != 0
      ensures last != [] && Single(last) ==> (Find(b) % COUNT_SPAN != 0 <==> b % 2 == 0)
    {
      hide Complete, Fits, Filled, Low, Single;
      if last == [] {
        NothingFinds(chunks[..], links, linkMask, b);
      } else {
        var max, mask :| MadeFor(last, chunks[..], links, mask, max);
        if Complete(last) { LeftoverFinds(last, chunks[..], links, mask, max, b); }
        if Single(last) { SingleFinds(last, chunks[..], links, mask, max, b); }
      }
    }

    /** So every lookup fails exactly if no code but empty ones was accepted before. */
    lemma AllFail()
      requires Kept() && maxRead == 0
      ensures (forall b: nat :: Find(b) % COUNT_SPAN == 0) <==> last == []
    {
      hide Complete, Single;
      forall b: nat ensures last == [] ==> Find(b) == 0 { Leftover(b); }
      if last != [] {
        Leftover(0);
        assert Find(0) % COUNT_SPAN != 0;
      }
    }

    /** The leftover of a code whose longest length is at most nine bits is read as that code. */
    lemma LeftoverHolds()
      requires Kept() && last != [] && forall s :: 0 <= s < |last| ==> last[s] <= CHUNK_BITS
      ensures Holds(last)
    {
      hide Complete, Single, Fits, Filled;
      var max, mask :| MadeFor(last, chunks[..], links, mask, max);
      assert TableFor(last, chunks[..], links, linkMask, max);
    }

    /** The tables hold the code with these lengths. */
    ghost predicate Holds(lens: seq<nat>)
      reads this`links, this`linkMask, chunks
    {
      && (Complete(lens) || Single(lens)) && chunks.Length == NUM_CHUNKS
      && exists max: nat :: Extent(lens, max) && TableFor(lens, chunks[..], links, linkMask, max)
    }

    function Find(b: nat): nat
      requires chunks.Length == NUM_CHUNKS
      reads this, chunks
    {
      Lookup(chunks[..], links, linkMask, b)
    }

    /** A lookup finds the symbol whose code the bits start with, unread bits being anything. */
    lemma FindsSymbol(lens: seq<nat>, s: nat, b: nat)
      requires Holds(lens) && Matches(lens, s, b)
      ensures 1 <= lens[s] <= MAX_BITS && Find(b) == Chunk(s, lens[s])
    {
      hide Matches, Filled, Fits, Complete;
      var max: nat :| Extent(lens, max) && TableFor(lens, chunks[..], links, linkMask, max);
      LookupFinds(lens, chunks[..], links, max, linkMask, s, b);
      MatchUsed(lens, s, b);
    }

    /** Bits that start with no code find nothing. */
    lemma FindsNothing(lens: seq<nat>, b: nat)
      requires Holds(lens) && Single(lens) && forall s: nat :: !Matches(lens, s, b)
      ensures Find(b) == 0
    {
      hide Matches, Fits, Complete, Low;
      var max: nat :| Extent(lens, max) && TableFor(lens, chunks[..], links, linkMask, max);
      LowIndex(b);
      var x := Low(b, CHUNK_BITS);
      if chunks[x] != 0 {
        assert chunks[..][x] == chunks[x];
        var s: nat :| 0 <= s < |lens| && Matches(lens, s, x);
        MatchUsed(lens, s, x);
        ShortMatch(lens, s, b);
        assert false;
      }
    }

    /** Counts of the lengths, and the shortest and longest of them. */
    method Tally(lengths: seq<nat>) returns (count: array<nat>, min: nat, max: nat)
      requires ValidLens(lengths)
      ensures fresh(count) && Tallied(lengths, count[..])
      ensures Extremes(lengths, |lengths|, min, max) && max <= MAX_BITS
    {
      count := new nat[MAX_BITS + 1](_ => 0);
      min, max := 0, 0;
      for i := 0 to |lengths|
        invariant forall l :: 1 <= l <= MAX_BITS ==> count[l] == CountTo(lengths, l, i)
        invariant Extremes(lengths, i, min, max) && max <= MAX_BITS
      {
        var n := lengths[i];
        if n != 0 {
          if min == 0 || n < min { min := n; }
          if n > max { max := n; }
          count[n] := count[n] + 1;
        }
      }
    }

    /** First codes of each length, and the code after the last one. */
    method FirstCodes(lengths: seq<nat>, count: array<nat>, min: nat, max: nat)
      returns (nextcode: array<nat>, code: nat)
      requires ValidLens(lengths) && Tallied(lengths, count[..])
      requires Extremes(lengths, |lengths|, min, max) && 1 <= max <= MAX_BITS
      ensures fresh(nextcode) && FirstTo(lengths, nextcode[..], max + 1)
      ensures code == FirstCode(lengths, max) + Count(lengths, max)
    {
      hide *;
      code := 0;
      nextcode := new nat[MAX_BITS + 1](_ => 0);
      LowCodes(lengths, min, max, nextcode[..]);
      for i := min to max + 1
        invariant FirstTo(lengths, nextcode[..], i) && nextcode.Length == MAX_BITS + 1
        invariant 2 * code == FirstCode(lengths, i)
      {
        ghost var q := nextcode[..];
        FirstStep(lengths, q, count[..], i);
        code := code * 2;
        nextcode[i] := code;
        assert nextcode[..] == q[i := code];
        code := code + count[i];
      }
      FirstCodeUp(lengths, max + 1);
    }

    /** Link chunks and room for their tables. Tables kept from an earlier code are not cleared. */
    method PrepareLinks(lengths: seq<nat>, max: nat, link: nat)
      requires chunks.Length == NUM_CHUNKS && Fits(lengths) && CHUNK_BITS < max <= MAX_BITS
      requires link == FirstLink(lengths) && forall s :: 0 <= s < |lengths| ==> lengths[s] <= max
      modifies this`links, this`linkMask, chunks
      ensures linkMask == Pow2(max - CHUNK_BITS) - 1
      ensures Shaped(lengths, chunks[..], links, max) && Linked(lengths, chunks[..], max)
    {
      hide Reverse, FirstLink, Fits, LinkIndex, Pow2;
      var numLinks := Pow2(max - CHUNK_BITS);
      linkMask := numLinks - 1;
      LinkRoom(lengths);
      if |links| < NUM_CHUNKS - link {
        links := seq(NUM_CHUNKS - link, _ => []);
      }
      LinkNone(lengths, chunks[..], link);
      for j := link to NUM_CHUNKS
        invariant LinkedTo(lengths, chunks[..], j) && |links| >= NUM_CHUNKS - link
        invariant forall k :: 0 <= k < j - link ==> |links[k]| >= numLinks
        invariant linkMask == numLinks - 1
      {
        hide LinkedTo;
        LinkStep(lengths, chunks[..], j);
        ghost var q := chunks[..];
        var reverse := Shr(Reverse(j, 16), 16 - CHUNK_BITS);
        var off := j - link;
        chunks[reverse] := Chunk16(off * COUNT_SPAN + CHUNK_BITS + 1);
        assert chunks[..] == q[reverse := Chunk(off, CHUNK_BITS + 1)];
        if |links[off]| < numLinks {
          links := links[off := seq(numLinks, _ => 0)];
        }
      }
      LinkAll(lengths, chunks[..], max);
    }

    /** Writes the entries of every symbol. */
    method Fill(lengths: seq<nat>, nextcode: array<nat>, max: nat)
      requires chunks.Length == NUM_CHUNKS && Fits(lengths) && |lengths| <= 4095
      requires nextcode != chunks && nextcode.Length == MAX_BITS + 1 && 1 <= max <= MAX_BITS
      requires NextAt(lengths, nextcode[..], max, 0) && Filled(lengths, chunks[..], links, max, 0)
      modifies this`links, chunks, nextcode
      ensures Filled(lengths, chunks[..], links, max, |lengths|)
    {
      for i := 0 to |lengths|
        invariant NextAt(lengths, nextcode[..], max, i) && Filled(lengths, chunks[..], links, max, i)
      {
        FillOne(lengths, nextcode, max, i);
      }
    }

    method FillOne(lengths: seq<nat>, nextcode: array<nat>, max: nat, i: nat)
      requires chunks.Length == NUM_CHUNKS && Fits(lengths) && |lengths| <= 4095 && i < |lengths|
      requires nextcode != chunks && nextcode.Length == MAX_BITS + 1 && 1 <= max <= MAX_BITS
      requires NextAt(lengths, nextcode[..], max, i) && Filled(lengths, chunks[..], links, max, i)
      modifies this`links, chunks, nextcode
      ensures NextAt(lengths, nextcode[..], max, i + 1) && Filled(lengths, chunks[..], links, max, i + 1)
    {
      hide Filled, Reverse, Fits, NextAt, Code, Matches, Spread;
      LengthsWithin(lengths, chunks[..], links, max, i);
      ghost var nx, q := nextcode[..], chunks[..];
      NextStep(lengths, nx, max, i);
      var n := lengths[i];
      if n == 0 {
        StoreNone(lengths, chunks[..], links, max, i);
      } else {
        FillCode(lengths, nx, max, i);
        var code := nextcode[n];
        nextcode[n] := nextcode[n] + 1;
        assert nextcode[..] == nx[n := nx[n] + 1];
        var chunk := Chunk16(i * COUNT_SPAN + n);
        var reverse := Shr(Reverse(code, 16), 16 - n);
        if n <= CHUNK_BITS {
          SpreadArray(chunks, reverse, NUM_CHUNKS, n, chunk);
          StoreShort(lengths, q, chunks[..], links, max, i);
        } else {
          FillLong(lengths, max, i, reverse, chunk);
        }
      }
    }

    /** A code longer than nine bits goes to the link table that its first nine bits lead to. */
    method FillLong(lengths: seq<nat>, max: nat, i: nat, reverse: nat, chunk: nat)
      requires chunks.Length == NUM_CHUNKS && Fits(lengths) && i < |lengths| &&
        CHUNK_BITS < lengths[i] <= max <= MAX_BITS
      requires Filled(lengths, chunks[..], links, max, i)
      requires reverse == Code(lengths, i) && chunk == Chunk(i, lengths[i])
      modifies this`links
      ensures Filled(lengths, chunks[..], links, max, i + 1)
    {
      hide Filled, Reverse, Fits, Code, Matches, Spread;
      FillLink(lengths, chunks[..], links, max, i);
      ShrCode(lengths, i);
      var j := And(reverse, NUM_CHUNKS - 1);
      assert chunks[j] == chunks[..][j];
      var value := chunks[j] / COUNT_SPAN;
      var linktab := SpreadSeq(links[value], Shr(reverse, CHUNK_BITS), Pow2(max - CHUNK_BITS),
        lengths[i] - CHUNK_BITS, chunk);
      StoreLong(lengths, chunks[..], links, linktab, max, i, value);
      links := links[value := linktab];
    }

    /** Builds the tables for these lengths; false if they are not a code to accept. */
    method Init(lengths: seq<nat>) returns (ok: bool)
      requires chunks.Length == NUM_CHUNKS && ValidLens(lengths) && |lengths| <= 4095
      modifies this, chunks
      ensures ok <==> Empty(lengths) || Complete(lengths) || Single(lengths)
      ensures ok && !Empty(lengths) ==> Holds(lengths) && Shortest(lengths, maxRead) && NoneShorter(lengths, maxRead)
      ensures last == (if ok && !Empty(lengths) then lengths else old(last)) && (old(Kept()) ==> Kept())
      ensures !ok || Empty(lengths) ==> maxRead == 0 && chunks[..] == old(chunks[..]) && links == old(links)
      ensures Empty(lengths) ==> linkMask == (if old(maxRead) != 0 then 0 else old(linkMask))
    {
      hide Complete, Single, Fits, NextAt, FirstCode, Count, Kraft, TableFor, MadeFor;
      if maxRead != 0 {
        maxRead, linkMask := 0, 0;
      }
      var count, min, max := Tally(lengths);
      if max == 0 {
        EmptyIsNot(lengths);
        return true;
      }
      var nextcode, code := FirstCodes(lengths, count, min, max);
      FullIffComplete(lengths, min, max);
      OneIffSingle(lengths, min, max);
      NotEmpty(lengths, min, max);
      if code != Pow2(max) && !(code == 1 && max == 1) {
        assert chunks[..] == old(chunks[..]);
        return false;
      }
      AcceptedFits(lengths);
      maxRead := min;
      Build(lengths, nextcode, max);
      last := lengths;
      MadeOf(last, chunks[..], links, linkMask, max);
      ok := true;
    }

    method Build(lengths: seq<nat>, nextcode: array<nat>, max: nat)
      requires chunks.Length == NUM_CHUNKS && Fits(lengths) && |lengths| <= 4095 && Extent(lengths, max)
      requires nextcode != chunks && 1 <= max <= MAX_BITS && FirstTo(lengths, nextcode[..], max + 1)
      modifies this`links, this`linkMask, chunks, nextcode
      ensures TableFor(lengths, chunks[..], links, linkMask, max)
    {
      hide Fits, Filled, NextAt, FirstCode;
      for i := 0 to NUM_CHUNKS
        invariant forall k :: 0 <= k < i ==> chunks[k] == 0
        invariant nextcode[..] == old(nextcode[..])
      {
        chunks[i] := 0;
      }
      if max > CHUNK_BITS {
        assert nextcode[CHUNK_BITS + 1] == nextcode[..][CHUNK_BITS + 1] == FirstCode(lengths, CHUNK_BITS + 1);
        PrepareLinks(lengths, max, nextcode[CHUNK_BITS + 1] / 2);
      }
      assert nextcode[..] == old(nextcode[..]);
      NextStart(lengths, nextcode[..], max);
      BlankStart(lengths, chunks[..], links, max);
      Fill(lengths, nextcode, max);
    }
  }

  lemma MatchUsed(lens: seq<nat>, s: nat, b: nat)
    requires Matches(lens, s, b)
    ensures Used(lens, s)
  {
  }

  lemma LinkNone(lens: seq<nat>, chunks: seq<nat>, link: nat)
    requires link == FirstLink(lens) && |chunks| == NUM_CHUNKS
    ensures LinkedTo(lens, chunks, link)
  {
  }

  /** The tables made for the last code that was not empty; blank before the first. */
  ghost predicate MadeLast(last: seq<nat>, chunks: seq<nat>, links: seq<seq<nat>>) {
    if last == [] then |chunks| == NUM_CHUNKS && forall x :: 0 <= x < NUM_CHUNKS ==> chunks[x] == 0
    else (Complete(last) || Single(last)) && exists max, mask :: MadeFor(last, chunks, links, mask, max)
  }

  ghost predicate MadeFor(lens: seq<nat>, chunks: seq<nat>, links: seq<seq<nat>>, mask: nat, max: nat) {
    Extent(lens, max) && TableFor(lens, chunks, links, mask, max)
  }

  lemma MadeOf(lens: seq<nat>, chunks: seq<nat>, links: seq<seq<nat>>, mask: nat, max: nat)
    requires Extent(lens, max) && TableFor(lens, chunks, links, mask, max)
    ensures MadeFor(lens, chunks, links, mask, max)
  {
  }

  /** The leftover of a single code: the even chunks. */
  lemma SingleFinds(lens: seq<nat>, chunks: seq<nat>, links: seq<seq<nat>>, mask: nat, max: nat, b: nat)
    requires Single(lens) && MadeFor(lens, chunks, links, mask, max)
    ensures |chunks| == NUM_CHUNKS && (Lookup(chunks, links, 0, b) % COUNT_SPAN != 0 <==> b % 2 == 0)
  {
    hide Low, Fits, Complete, Filled, Matches, Single;
    var t := SoleSymbol(lens);
    SingleBlank(lens, chunks, links, mask, max);
    SoleMatches(lens, t, b);
    if b % 2 == 0 {
      LookupFinds(lens, chunks, links, max, 0, t, b);
    } else {
      LowIndex(b);
      var x := Low(b, CHUNK_BITS);
      if chunks[x] != 0 {
        var s: nat :| 0 <= s < |lens| && Matches(lens, s, x);
        MatchUsed(lens, s, x);
        ShortMatch(lens, s, b);
      }
    }
  }

  lemma LowParity(b: nat)
    ensures Low(b, CHUNK_BITS) % 2 == b % 2
  {
    LowLow(b, CHUNK_BITS, 1);
    assert Low(b, 1) == b % 2 && Low(Low(b, CHUNK_BITS), 1) == Low(b, CHUNK_BITS) % 2;
  }

  lemma SingleBlank(lens: seq<nat>, chunks: seq<nat>, links: seq<seq<nat>>, mask: nat, max: nat)
    requires Single(lens) && MadeFor(lens, chunks, links, mask, max)
    ensures max == 1 && |chunks| == NUM_CHUNKS
    ensures forall x :: 0 <= x < NUM_CHUNKS && chunks[x] != 0 ==> exists s :: 0 <= s < |lens| && Matches(lens, s, x)
  {
    hide Fits, Linked, Stored, Matches;
  }

  lemma SoleSymbol(lens: seq<nat>) returns (t: nat)
    requires Single(lens)
    ensures t < |lens| && lens[t] == 1 && CodeOf(lens, t) == 0
    ensures forall s :: 0 <= s < |lens| && s != t ==> lens[s] == 0
  {
    t := FindNth(lens, 1, 0, |lens|);
    forall s | 0 <= s < |lens| && s != t ensures lens[s] == 0 {
      var i, j := if s < t then s else t, if s < t then t else s;
      CountToMono(lens, 1, i + 1, j);
      CountToMono(lens, 1, j + 1, |lens|);
    }
  }

  lemma SoleMatches(lens: seq<nat>, t: nat, b: nat)
    requires t < |lens| && lens[t] == 1 && CodeOf(lens, t) == 0
    requires forall s :: 0 <= s < |lens| && s != t ==> lens[s] == 0
    ensures forall s: nat :: Matches(lens, s, b) <==> s == t && b % 2 == 0
  {
    assert BitsOf(b, 1) == [b % 2 == 1] + BitsOf(b / 2, 0);
    assert CodeBits(0, 1) == CodeBits(0, 0) + [false];
    assert SymBits(lens, t) == [false];
    assert BitsOf(b, 1)[0] == (b % 2 == 1) && |BitsOf(b, 1)| == 1;
    forall s: nat ensures Matches(lens, s, b) <==> s == t && b % 2 == 0 {
      if s < |lens| && s != t { assert lens[s] == 0; }
    }
  }

  predicate Extent(lens: seq<nat>, max: nat) {
    && 1 <= max <= MAX_BITS && (forall s :: 0 <= s < |lens| ==> lens[s] <= max)
    && exists s :: 0 <= s < |lens| && lens[s] == max
  }

  /** min is the shortest code length. */
  predicate Shortest(lens: seq<nat>, min: nat) {
    && min >= 1 && (forall s :: 0 <= s < |lens| && lens[s] > 0 ==> min <= lens[s])
    && exists s :: 0 <= s < |lens| && lens[s] == min
  }

  /** No code is shorter than min. */
  predicate NoneShorter(lens: seq<nat>, min: nat) {
    forall s :: 0 <= s < |lens| && lens[s] > 0 ==> min <= lens[s]
  }

  lemma LengthsWithin(lens: seq<nat>, chunks: seq<nat>, links: seq<seq<nat>>, max: nat, i: nat)
    requires Filled(lens, chunks, links, max, i) && i < |lens|
    ensures lens[i] <= max
  {
  }

  lemma EmptyIsNot(lens: seq<nat>)
    requires Extremes(lens, |lens|, 0, 0)
    ensures Empty(lens)
  {
  }

  lemma NotEmpty(lens: seq<nat>, min: nat, max: nat)
    requires Extremes(lens, |lens|, min, max) && 1 <= max <= MAX_BITS
    ensures !Empty(lens) && Extent(lens, max) && Shortest(lens, min)
  {
  }
}
