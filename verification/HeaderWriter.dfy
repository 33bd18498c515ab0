/** Writing a dynamic header: run-length codes, the code for those codes, and the bits of both. */
module HeaderWriter {
  import opened Words
  import opened Canon
  import opened HuffmanTree
  import opened HuffmanSort
  import opened HuffmanCode
  import opened HuffmanEncoder
  import opened Lz
  import opened LzCodes
  import opened Format
  import opened Codegen
  import opened Header
  import opened Tokens
  import opened BitReader
  import opened BitWriter
  import opened HuffmanDecoder
  import opened HuffmanCodes
  import opened Blocks
  import opened Trim

  // ---------------------------------------------------------------------------------------------
  // The number of code lengths written, and the size of the header.
  // ---------------------------------------------------------------------------------------------

  /** The codes that follow the first nc in the odd order do not occur. */
  predicate NoneAfter(freq: seq<nat>, nc: nat)
    requires |freq| == CODEGEN_CODES
  {
    4 <= nc <= CODEGEN_CODES && forall j :: nc <= j < CODEGEN_CODES ==> freq[CodeOrder()[j]] == 0
  }

  /** The smallest such number, though at least four. */
  predicate LeastCodes(freq: seq<nat>, nc: nat) {
    |freq| == CODEGEN_CODES && NoneAfter(freq, nc) && (nc > 4 ==> freq[CodeOrder()[nc - 1]] != 0)
  }

  method Codegens(freq: array<nat>) returns (numCodegens: nat)
    requires freq.Length == CODEGEN_CODES
    ensures LeastCodes(freq[..], numCodegens)
  {
    hide CodeOrder;
    numCodegens := CODEGEN_CODES;
    while numCodegens > 4 && freq[CodeOrder()[numCodegens - 1]] == 0
      invariant NoneAfter(freq[..], numCodegens)
    {
      numCodegens := numCodegens - 1;
    }
  }

  /** Bits that one occurrence of code c takes. */
  function CodeCost(codes: seq<nat>, c: nat): nat
    requires c < |codes| == CODEGEN_CODES
  {
    HLen(codes[c]) + ExtraBits(c)
  }

  function CostTo(codes: seq<nat>, cg: seq<nat>, acc: seq<nat>, k: nat): nat
    requires |codes| == CODEGEN_CODES && GoodCodegen(cg, acc) && k <= CODEGEN_CODES
  {
    if k == 0 then 0 else CostTo(codes, cg, acc, k - 1) + CodeCount(cg, acc, k - 1) * CodeCost(codes, k - 1)
  }

  lemma {:induction false} CostHead(codes: seq<nat>, cg: seq<nat>, acc: seq<nat>, k: nat)
    requires |codes| == CODEGEN_CODES && GoodCodegen(cg, acc) && cg != [] && k <= CODEGEN_CODES
    ensures CostTo(codes, cg, acc, k)
      == CostTo(codes, cg[HeadSize(cg)..], acc + HeadLengths(cg, acc), k)
        + if cg[0] < k then CodeCost(codes, cg[0]) else 0
  {
    hide CodeCost, HeadLengths;
    if k > 0 {
      CostHead(codes, cg, acc, k - 1);
      var n := CodeCount(cg[HeadSize(cg)..], acc + HeadLengths(cg, acc), k - 1);
      OneMore(n, CodeCost(codes, k - 1));
    }
  }

  lemma OneMore(n: nat, c: nat)
    ensures (1 + n) * c == n * c + c
  {
  }

  lemma {:induction false} CostNone(codes: seq<nat>, acc: seq<nat>, k: nat)
    requires |codes| == CODEGEN_CODES && k <= CODEGEN_CODES
    ensures CostTo(codes, [], acc, k) == 0
  {
    if k > 0 { CostNone(codes, acc, k - 1); }
  }

  /** The counts give the size of the run-length codes as written. */
  lemma {:induction false} CodegenSize(codes: seq<nat>, cg: seq<nat>, acc: seq<nat>)
    requires |codes| == CODEGEN_CODES && GoodCodegen(cg, acc)
    ensures |CodegenEmit(codes, cg, acc)| == CostTo(codes, cg, acc, CODEGEN_CODES)
    decreases |cg|
  {
    hide HeadLengths, CostTo, CodeEmit;
    if cg == [] {
      CostNone(codes, acc, CODEGEN_CODES);
    } else {
      CodegenSize(codes, cg[HeadSize(cg)..], acc + HeadLengths(cg, acc));
      CostHead(codes, cg, acc, CODEGEN_CODES);
    }
  }

  /** Extra bits of the first k codes. */
  function ExtraTo(freq: seq<nat>, k: nat): nat
    requires k <= |freq| == CODEGEN_CODES
  {
    (if k > 16 then freq[16] * 2 else 0) + (if k > 17 then freq[17] * 3 else 0) + (if k > 18 then freq[18] * 7 else 0)
  }

  lemma {:induction false} CostIsSize(codes: seq<nat>, freq: seq<nat>, cg: seq<nat>, lens: seq<nat>, k: nat)
    requires |codes| == CODEGEN_CODES && Coded(cg, freq, lens) && k <= CODEGEN_CODES
    ensures CostTo(codes, cg, [], k) == SizeTo(codes, freq, k) + ExtraTo(freq, k)
  {
    hide HLen;
    if k > 0 {
      CostIsSize(codes, freq, cg, lens, k - 1);
      MulAdd(HLen(codes[k - 1]), ExtraBits(k - 1), freq[k - 1]);
      Commute(freq[k - 1], CodeCost(codes, k - 1));
      Commute(freq[k - 1], HLen(codes[k - 1]));
      Commute(freq[k - 1], ExtraBits(k - 1));
    }
  }

  lemma Commute(a: nat, b: nat)
    ensures a * b == b * a
  {
  }

  /** The size of the header in bits, block opening included. */
  method HeaderSize(codes: seq<nat>, freq: array<nat>, ghost cg: seq<nat>, ghost lens: seq<nat>, ghost numLit: nat,
          ghost numOff: nat)
    returns (size: nat, numCodegens: nat)
    requires |codes| == CODEGEN_CODES && freq.Length == CODEGEN_CODES && Coded(cg, freq[..], lens)
    requires numLit >= 257 && numOff >= 1
    ensures LeastCodes(freq[..], numCodegens)
    ensures size == 3 + |HeaderEmit(numLit, numOff, numCodegens, codes, cg)|
  {
    hide CodeOrder, CodegenEmit, NoneAfter, HLen;
    numCodegens := CODEGEN_CODES;
    assert NoneAfter(freq[..], numCodegens) by { NoneAfterAll(freq[..]); }
    while numCodegens > 4 && freq[CodeOrder()[numCodegens - 1]] == 0
      invariant NoneAfter(freq[..], numCodegens) && 4 <= numCodegens <= CODEGEN_CODES
    {
      NoneAfterStep(freq[..], numCodegens);
      numCodegens := numCodegens - 1;
    }
    var data := BitLength(codes, freq[..]);
    size := 3 + 5 + 5 + 4 + 3 * numCodegens + data + freq[16] * 2 + freq[17] * 3 + freq[18] * 7;
    CodegenSize(codes, cg, []);
    CostIsSize(codes, freq[..], cg, lens, CODEGEN_CODES);
  }

  lemma NoneAfterAll(freq: seq<nat>)
    requires |freq| == CODEGEN_CODES
    ensures NoneAfter(freq, CODEGEN_CODES)
  {
  }

  lemma NoneAfterStep(freq: seq<nat>, nc: nat)
    requires |freq| == CODEGEN_CODES && NoneAfter(freq, nc) && nc > 4 && freq[CodeOrder()[nc - 1]] == 0
    ensures NoneAfter(freq, nc - 1)
  {
    hide CodeOrder;
  }

  // ---------------------------------------------------------------------------------------------
  // The code for the run-length codes.
  // ---------------------------------------------------------------------------------------------

  function CountSum(cg: seq<nat>, acc: seq<nat>, k: nat): nat
    requires GoodCodegen(cg, acc) && k <= CODEGEN_CODES
  {
    if k == 0 then 0 else CountSum(cg, acc, k - 1) + CodeCount(cg, acc, k - 1)
  }

  lemma {:induction false} CountSumHead(cg: seq<nat>, acc: seq<nat>, k: nat)
    requires GoodCodegen(cg, acc) && cg != [] && k <= CODEGEN_CODES
    ensures CountSum(cg, acc, k)
      == CountSum(cg[HeadSize(cg)..], acc + HeadLengths(cg, acc), k) + if cg[0] < k then 1 else 0
  {
    hide HeadLengths;
    if k > 0 { CountSumHead(cg, acc, k - 1); }
  }

  lemma {:induction false} CountSumNone(acc: seq<nat>, k: nat)
    requires k <= CODEGEN_CODES
    ensures CountSum([], acc, k) == 0
  {
    if k > 0 { CountSumNone(acc, k - 1); }
  }

  lemma {:induction false} CountSumBound(cg: seq<nat>, acc: seq<nat>)
    requires GoodCodegen(cg, acc)
    ensures CountSum(cg, acc, CODEGEN_CODES) <= |cg|
    decreases |cg|
  {
    hide CountSum, HeadLengths;
    if cg == [] {
      CountSumNone(acc, CODEGEN_CODES);
    } else {
      CountSumBound(cg[HeadSize(cg)..], acc + HeadLengths(cg, acc));
      CountSumHead(cg, acc, CODEGEN_CODES);
    }
  }

  lemma {:induction false} SumIsCount(freq: seq<nat>, cg: seq<nat>, lens: seq<nat>, k: nat)
    requires Coded(cg, freq, lens) && k <= CODEGEN_CODES
    ensures Sum(freq[..k]) == CountSum(cg, [], k)
  {
    hide CodeCount;
    if k > 0 {
      SumIsCount(freq, cg, lens, k - 1);
      assert freq[..k] == freq[..k - 1] + [freq[k - 1]];
      SumConcat(freq[..k - 1], [freq[k - 1]]);
      assert [freq[k - 1]][1..] == [];
    }
  }

  lemma {:induction false} SumBounds(f: seq<nat>, k: nat)
    requires k < |f|
    ensures f[k] <= Sum(f)
  {
    if k > 0 { SumBounds(f[1..], k - 1); }
  }

  /** Run-length code counts are valid frequencies. */
  lemma CodedValid(cg: seq<nat>, freq: seq<nat>, lens: seq<nat>)
    requires Coded(cg, freq, lens) && |cg| < CODEGEN_SIZE
    ensures ValidFreq(freq)
  {
    hide CodeCount, CountSum, Sum, ExpandCodegen, GoodCodegen;
    SumIsCount(freq, cg, lens, CODEGEN_CODES);
    assert freq[..CODEGEN_CODES] == freq;
    CountSumBound(cg, []);
    forall s | 0 <= s < |freq| ensures freq[s] < 0x1_0000 { SumBounds(freq, s); }
  }

  /** What makes the header good, from the parts that were built. */
  lemma GoodFromParts(lit: seq<nat>, off: seq<nat>, nc: nat, codes: seq<nat>, cg: seq<nat>, freq: seq<nat>,
          cl: seq<nat>, q: seq<nat>)
    requires FIRST_LENGTH <= |lit| <= MAX_LIT && 1 <= |off| <= MAX_DIST_CODES && Acceptable(lit) && Acceptable(off)
    requires Coded(cg, freq, lit + off) && NoneAfter(freq, nc)
    requires |codes| == |cl| == CODEGEN_CODES && CanonCodes(cl, codes)
    requires SortedEntries(freq, q) && Built(freq, cl, 7, q)
    ensures GoodHeader(lit, off, nc, codes, cg) && GoodCodes(codes)
  {
    hide Complete, Single, Empty, SortedEntries, CanonHCode, CodeOrder, CodeCount, Built, GoodCode, HLen, UsedAll,
         CanonCodes, Fits;
    BuiltLengths(freq, cl, 7, q);
    assert cg != [] by { NotNothing(cg, lit + off); }
    assert freq[cg[0]] > 0 by { HeadCounted(cg); }
    GenerateAccepted(freq, cl, 7, q, cg[0]);
    AcceptedFits(cl);
    LensOfCanon(cl, codes);
    assert LensOf(codes, CODEGEN_CODES) == cl;
    CountedUsed(cl, freq, cg, []);
  }

  lemma NotNothing(cg: seq<nat>, lens: seq<nat>)
    requires GoodCodegen(cg, []) && ExpandCodegen(cg, []) == lens && lens != []
    ensures cg != []
  {
  }

  lemma HeadCounted(cg: seq<nat>)
    requires GoodCodegen(cg, []) && cg != []
    ensures cg[0] < CODEGEN_CODES && CodeCount(cg, [], cg[0]) > 0
  {
  }

  lemma BuiltLengths(freq: seq<nat>, lens: seq<nat>, m: nat, q: seq<nat>)
    requires Built(freq, lens, m, q)
    ensures |lens| == |freq| && m <= MAX_BITS
    ensures forall s :: 0 <= s < |freq| ==> lens[s] <= m && (lens[s] > 0 <==> freq[s] > 0)
  {
    hide Listing, Ascending, Complete, TreeHeight, Weights, Symbols;
  }

  /** Lengths read back from canonical code words. */
  lemma LensOfCanon(lens: seq<nat>, codes: seq<nat>)
    requires Fits(lens) && CanonCodes(lens, codes)
    ensures LensOf(codes, |lens|) == lens && (|codes| == |lens| ==> GoodCodes(codes))
  {
    hide Fits, CanonHCode, HLen, GoodCode;
    forall s | 0 <= s < |lens| ensures HLen(codes[s]) == lens[s] && GoodCode(codes[s]) { CanonEmits(lens, s); }
  }

  // ---------------------------------------------------------------------------------------------
  // The header is determined by its two alphabets.
  // ---------------------------------------------------------------------------------------------

  /** The code words built for the counts of the run-length codes. */
  ghost predicate StandardCode(freq: seq<nat>, codes: seq<nat>) {
    |codes| == CODEGEN_CODES
    && exists cl, q :: |cl| == |codes| && CanonCodes(cl, codes) && SortedEntries(freq, q) && Built(freq, cl, 7, q)
  }

  lemma StandardCodeIs(freq: seq<nat>, codes: seq<nat>, cl: seq<nat>, q: seq<nat>)
    requires |cl| == |codes| == CODEGEN_CODES && CanonCodes(cl, codes) && SortedEntries(freq, q) &&
      Built(freq, cl, 7, q)
    ensures StandardCode(freq, codes)
  {
    hide SortedEntries, Built, CanonCodes;
  }

  /** The header that is written for its alphabets. */
  ghost predicate Standard(h: Hdr) {
    h.cg == CodegenOf(h.lit + h.off)
    && exists freq :: Coded(h.cg, freq, h.lit + h.off) && LeastCodes(freq, h.nc) && StandardCode(freq, h.codes)
  }

  lemma LeastOnce(freq: seq<nat>, a: nat, b: nat)
    requires LeastCodes(freq, a) && LeastCodes(freq, b)
    ensures a == b
  {
    hide CodeOrder;
  }

  lemma CodedOnce(cg: seq<nat>, f: seq<nat>, g: seq<nat>, lens: seq<nat>)
    requires Coded(cg, f, lens) && Coded(cg, g, lens)
    ensures f == g
  {
    hide GoodCodegen, ExpandCodegen, CodeCount;
  }

  lemma StandardCodeOnce(freq: seq<nat>, a: seq<nat>, b: seq<nat>)
    requires StandardCode(freq, a) && StandardCode(freq, b)
    ensures a == b
  {
    hide SortedEntries, Built, CanonHCode;
    var cl, q :| |cl| == |a| && CanonCodes(cl, a) && SortedEntries(freq, q) && Built(freq, cl, 7, q);
    var dl, r :| |dl| == |b| && CanonCodes(dl, b) && SortedEntries(freq, r) && Built(freq, dl, 7, r);
    BuiltOnce(freq, cl, dl, 7, q, r);
  }

  /** Two headers written for the same alphabets are the same. */
  lemma StandardOnce(g: Hdr, h: Hdr)
    requires Standard(g) && Standard(h) && g.lit == h.lit && g.off == h.off
    ensures g == h
  {
    hide Coded, LeastCodes, StandardCode, CodegenOf;
    var f :| Coded(g.cg, f, g.lit + g.off) && LeastCodes(f, g.nc) && StandardCode(f, g.codes);
    var k :| Coded(h.cg, k, h.lit + h.off) && LeastCodes(k, h.nc) && StandardCode(k, h.codes);
    CodedOnce(g.cg, f, k, g.lit + g.off);
    LeastOnce(f, g.nc, h.nc);
    StandardCodeOnce(f, g.codes, h.codes);
  }

  // ---------------------------------------------------------------------------------------------
  // Writing the bits.
  // ---------------------------------------------------------------------------------------------

  lemma OpeningBits(final: bool)
    ensures BitsOf(if final then 5 else 4, 3) == Opening(final, 2)
    ensures BitsOf(if final then 3 else 2, 3) == Opening(final, 1)
    ensures BitsOf(if final then 1 else 0, 3) == Opening(final, 0)
  {
    assert BitsOf(5, 3) == [true] + BitsOf(2, 2) && BitsOf(4, 3) == [false] + BitsOf(2, 2);
    assert BitsOf(3, 3) == [true] + BitsOf(1, 2) && BitsOf(2, 3) == [false] + BitsOf(1, 2);
    assert BitsOf(1, 3) == [true] + BitsOf(0, 2) && BitsOf(0, 3) == [false] + BitsOf(0, 2);
    assert BitsOf(2, 2) == [false] + BitsOf(1, 1) && BitsOf(1, 2) == [true] + BitsOf(0, 1);
    assert BitsOf(0, 2) == [false] + BitsOf(0, 1);
  }

  /** How the writes counter and the buffer moved together. */
  twostate predicate Moved(w: Sink)
    reads w
  {
    && w.writes >= old(w.writes) && (w.writes > old(w.writes) ==> |w.out| >= |old(w.out)| + FLUSH_SIZE)
    && (w.writes == old(w.writes) ==>
          w.out == old(w.out) && w.nbytes >= old(w.nbytes) && w.nbytes % 6 == old(w.nbytes) % 6)
  }

  lemma CodegenHead(cg: seq<nat>, i: nat, acc: seq<nat>)
    requires i <= |cg| && GoodCodegen(cg[i..], acc)
    ensures i < |cg| ==> cg[i] < CODEGEN_CODES && GoodHead(cg[i..], acc)
    ensures i < |cg| && cg[i] >= 16 ==> i + 1 < |cg| && cg[i + 1] < Pow2(ExtraBits(cg[i]))
  {
    Pow2Small();
    if i < |cg| {
      assert cg[i..][0] == cg[i];
      if cg[i] >= 16 { assert cg[i..][1] == cg[i + 1]; }
    }
  }

  lemma CodegenTail(codes: seq<nat>, cg: seq<nat>, i: nat, acc: seq<nat>)
    requires |codes| == CODEGEN_CODES && i < |cg| && GoodCodegen(cg[i..], acc)
    ensures cg[i] < CODEGEN_CODES && (cg[i] >= 16 ==> i + 1 < |cg|)
    ensures var j, next := i + HeadSize(cg[i..]), acc + HeadLengths(cg[i..], acc);
      && j <= |cg| && GoodCodegen(cg[j..], next)
      && CodegenEmit(codes, cg[i..], acc)
        == CodeEmit(codes[cg[i]]) + (if cg[i] < 16 then [] else BitsOf(cg[i + 1], ExtraBits(cg[i])))
          + CodegenEmit(codes, cg[j..], next)
  {
    hide HeadLengths, CodeEmit, BitsOf;
    var s := cg[i..];
    assert s[0] == cg[i];
    var j := i + HeadSize(s);
    assert s[HeadSize(s)..] == cg[j..];
    if cg[i] >= 16 { assert s[1] == cg[i + 1]; }
  }

  /** The three-bit lengths of the code length code. */
  method WriteLens(w: Sink, codes: seq<nat>, numCodegens: nat)
    requires w.Valid() && |codes| == CODEGEN_CODES && numCodegens <= CODEGEN_CODES
    requires forall c :: 0 <= c < CODEGEN_CODES ==> HLen(codes[c]) < 8
    modifies w`bits, w`nbits, w`nbytes, w`out, w`writes, w.bytes
    ensures w.Valid() && w.Emitted() == old(w.Emitted()) + LensEmit(LensOf(codes, CODEGEN_CODES), numCodegens)
    ensures Moved(w)
  {
    hide CodeOrder, BitsOf, HLen, Stream, Pow2;
    ghost var cl, s0 := LensOf(codes, CODEGEN_CODES), w.Emitted();
    for i := 0 to numCodegens
      invariant w.Valid() && w.Emitted() == s0 + LensEmit(cl, i) && Moved(w)
    {
      var value := HLen(codes[CodeOrder()[i]]);
      Pow2Small();
      w.WriteBits(value, 3);
      assert s0 + (LensEmit(cl, i) + BitsOf(value, 3)) == s0 + LensEmit(cl, i) + BitsOf(value, 3);
    }
  }

  /** The run-length codes up to the end mark. */
  method WriteCodegen(w: Sink, codes: seq<nat>, codegen: array<nat>, ghost n: nat)
    requires w.Valid() && |codes| == CODEGEN_CODES && GoodCodes(codes)
    requires codegen.Length == CODEGEN_SIZE && codegen as object != w.bytes && n < CODEGEN_SIZE
    requires codegen[n] == BAD_CODE && GoodCodegen(codegen[..n], [])
    modifies w`bits, w`nbits, w`nbytes, w`out, w`writes, w.bytes
    ensures w.Valid() && w.Emitted() == old(w.Emitted()) + CodegenEmit(codes, codegen[..n], [])
    ensures Moved(w)
  {
    hide BitsOf, HLen, Stream, Pow2, CodeEmit, CodegenEmit, GoodCodegen, HeadLengths, GoodCodes;
    ghost var cg, s0, all := codegen[..n], w.Emitted(), CodegenEmit(codes, codegen[..n], []);
    var i := 0;
    ghost var acc: seq<nat> := [];
    assert cg[0..] == cg;
    while true
      invariant w.Valid() && i <= n && codegen[..n] == cg && codegen[n] == BAD_CODE && Moved(w)
      invariant GoodCodegen(cg[i..], acc) && w.Emitted() + CodegenEmit(codes, cg[i..], acc) == s0 + all
      decreases n - i
    {
      ghost var si := w.Emitted();
      CodegenHead(cg, i, acc);
      var codeWord := codegen[i];
      assert codeWord == if i < n then cg[i] else BAD_CODE;
      if codeWord == BAD_CODE {
        CodegenEmpty(codes, acc);
        assert cg[n..] == [] && si + [] == si;
        break;
      }
      assert i < n && codeWord == cg[i];
      CodegenTail(codes, cg, i, acc);
      ghost var j, next := i + HeadSize(cg[i..]), acc + HeadLengths(cg[i..], acc);
      ghost var after := CodegenEmit(codes, cg[j..], next);
      GoodCodeAt(codes, codeWord);
      w.WriteCode(codes[codeWord]);
      i := i + 1;
      ghost var e: seq<bool> := [];
      if codeWord == 16 {
        e := BitsOf(codegen[i], 2);
        w.WriteBits(codegen[i], 2);
        i := i + 1;
      } else if codeWord == 17 {
        e := BitsOf(codegen[i], 3);
        w.WriteBits(codegen[i], 3);
        i := i + 1;
      } else if codeWord == 18 {
        e := BitsOf(codegen[i], 7);
        w.WriteBits(codegen[i], 7);
        i := i + 1;
      }
      acc := next;
      assert w.Emitted() == si + CodeEmit(codes[codeWord]) + e by {
        if codeWord < 16 { assert si + CodeEmit(codes[codeWord]) + [] == si + CodeEmit(codes[codeWord]); }
      }
      FourParts(si, CodeEmit(codes[codeWord]), e, after);
    }
  }

  lemma CodegenEmpty(codes: seq<nat>, acc: seq<nat>)
    requires |codes| == CODEGEN_CODES
    ensures GoodCodegen([], acc) && CodegenEmit(codes, [], acc) == []
  {
  }

  lemma GoodCodeAt(codes: seq<nat>, c: nat)
    requires GoodCodes(codes) && c < |codes|
    ensures GoodCode(codes[c])
  {
  }

  lemma FourParts(s: seq<bool>, a: seq<bool>, b: seq<bool>, c: seq<bool>)
    ensures s + a + b + c == s + (a + b + c)
  {
  }

  method WriteDynamicHeader(w: Sink, codes: seq<nat>, codegen: array<nat>, numLiterals: nat, numOffsets: nat,
                            numCodegens: nat, isEof: bool, ghost n: nat)
    requires w.Valid() && |codes| == CODEGEN_CODES && GoodCodes(codes)
    requires forall c :: 0 <= c < CODEGEN_CODES ==> HLen(codes[c]) < 8
    requires codegen.Length == CODEGEN_SIZE && codegen as object != w.bytes && n < CODEGEN_SIZE
    requires codegen[n] == BAD_CODE && GoodCodegen(codegen[..n], [])
    requires 257 <= numLiterals < 257 + 32 && 1 <= numOffsets <= 32 && 4 <= numCodegens <= CODEGEN_CODES
    modifies w`bits, w`nbits, w`nbytes, w`out, w`writes, w.bytes
    ensures w.Valid() && w.Emitted() == old(w.Emitted()) + Opening(isEof, 2)
      + HeaderEmit(numLiterals, numOffsets, numCodegens, codes, codegen[..n])
    ensures Moved(w)
  {
    hide BitsOf, HLen, Stream, Pow2, CodegenEmit, GoodCodegen, GoodCodes, LensEmit, LensOf, Opening;
    ghost var s0 := w.Emitted();
    Pow2Small();
    var firstBits := if isEof then 5 else 4;
    OpeningBits(isEof);
    w.WriteBits(firstBits, 3);
    w.WriteBits(numLiterals - 257, 5);
    w.WriteBits(numOffsets - 1, 5);
    w.WriteBits(numCodegens - 4, 4);
    WriteLens(w, codes, numCodegens);
    WriteCodegen(w, codes, codegen, n);
    HeaderParts(s0, isEof, numLiterals, numOffsets, numCodegens, codes, codegen[..n]);
  }

  lemma HeaderParts(s0: seq<bool>, isEof: bool, numLit: nat, numOff: nat, nc: nat, codes: seq<nat>, cg: seq<nat>)
    requires numLit >= 257 && numOff >= 1 && 4 <= nc <= CODEGEN_CODES
    requires |codes| == CODEGEN_CODES && GoodCodegen(cg, [])
    ensures s0 + Opening(isEof, 2) + BitsOf(numLit - 257, 5) + BitsOf(numOff - 1, 5) + BitsOf(nc - 4, 4)
        + LensEmit(LensOf(codes, CODEGEN_CODES), nc) + CodegenEmit(codes, cg, [])
      == s0 + Opening(isEof, 2) + HeaderEmit(numLit, numOff, nc, codes, cg)
  {
    hide BitsOf, LensEmit, LensOf, CodegenEmit, GoodCodegen, Opening;
    var a, b, c, d, e := BitsOf(numLit - 257, 5), BitsOf(numOff - 1, 5), BitsOf(nc - 4, 4),
      LensEmit(LensOf(codes, CODEGEN_CODES), nc), CodegenEmit(codes, cg, []);
    var s := s0 + Opening(isEof, 2);
    Assoc(s, a, b);
    Assoc(s, a + b, c);
    Assoc(s, a + b + c, d);
    Assoc(s, a + b + c + d, e);
  }
}
