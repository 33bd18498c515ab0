/** The header of a dynamic block (section 3.2.7 of RFC 1951): what is written for two tables and
    what reading it gives back. */
module Header {
  import opened Words
  import opened Canon
  import opened Lz
  import opened LzCodes
  import opened Format
  import opened Codegen

  /** The order in which the lengths of the code length code are written. */
  function CodeOrder(): (o: seq<nat>)
    ensures |o| == CODEGEN_CODES && forall k :: 0 <= k < CODEGEN_CODES ==> o[k] < CODEGEN_CODES
  {
    [16, 17, 18, 0, 8, 7, 9, 6, 10, 5, 11, 4, 12, 3, 13, 2, 14, 1, 15]
  }

  /** Where section 3.2.7 puts a code: 16, 17, 18 and 0 first, then outwards from 8, a code above it before the one
      below. */
  function Place(s: nat): nat
    requires s < CODEGEN_CODES
  {
    if s >= 16 then s - 16
    else if s == 0 then 3
    else if s >= 8 then 4 + 2 * (s - 8)
    else 5 + 2 * (7 - s)
  }

  /** Where a code stands in that order. */
  function OrderOf(s: nat): (k: nat)
    requires s < CODEGEN_CODES
    ensures k < CODEGEN_CODES && CodeOrder()[k] == s
    ensures k == Place(s)
  {
    [3, 17, 15, 13, 11, 9, 7, 5, 4, 6, 8, 10, 12, 14, 16, 18, 0, 1, 2][s]
  }

  lemma OrderOnce(j: nat, k: nat)
    requires j < CODEGEN_CODES && k < CODEGEN_CODES && CodeOrder()[j] == CodeOrder()[k]
    ensures j == k
  {
    assert OrderOf(CodeOrder()[j]) == j by { OrderOfOrder(j); }
    assert OrderOf(CodeOrder()[k]) == k by { OrderOfOrder(k); }
  }

  lemma OrderOfOrder(k: nat)
    requires k < CODEGEN_CODES
    ensures OrderOf(CodeOrder()[k]) == k
  {
  }

  // ---------------------------------------------------------------------------------------------
  // Writing.
  // ---------------------------------------------------------------------------------------------

  /** Three bits for the length of each of the first k codes in order. */
  function LensEmit(cl: seq<nat>, k: nat): (b: seq<bool>)
    requires |cl| == CODEGEN_CODES && k <= CODEGEN_CODES
    ensures |b| == 3 * k
  {
    if k == 0 then [] else LensEmit(cl, k - 1) + BitsOf(cl[CodeOrder()[k - 1]], 3)
  }

  function ExtraBits(c: nat): nat {
    if c == 16 then 2 else if c == 17 then 3 else if c == 18 then 7 else 0
  }

  /** The code words of run-length codes, each with its count. */
  function CodegenEmit(codes: seq<nat>, cg: seq<nat>, acc: seq<nat>): seq<bool>
    requires |codes| == CODEGEN_CODES && GoodCodegen(cg, acc)
    decreases |cg|
  {
    if cg == [] then []
    else
      CodeEmit(codes[cg[0]]) + (if cg[0] < 16 then [] else BitsOf(cg[1], ExtraBits(cg[0])))
      + CodegenEmit(codes, cg[HeadSize(cg)..], acc + HeadLengths(cg, acc))
  }

  /** Everything after the three bits that open the block. */
  function HeaderEmit(numLit: nat, numOff: nat, nc: nat, codes: seq<nat>, cg: seq<nat>): seq<bool>
    requires numLit >= 257 && numOff >= 1 && 4 <= nc <= CODEGEN_CODES
    requires |codes| == CODEGEN_CODES && GoodCodegen(cg, [])
  {
    BitsOf(numLit - 257, 5) + BitsOf(numOff - 1, 5) + BitsOf(nc - 4, 4)
    + LensEmit(LensOf(codes, CODEGEN_CODES), nc) + CodegenEmit(codes, cg, [])
  }

  // ---------------------------------------------------------------------------------------------
  // Reading.
  // ---------------------------------------------------------------------------------------------

  /** The code length code from the first k three-bit fields; codes without a field have length 0. */
  function SetLens(bits: seq<bool>, k: nat): (cl: seq<nat>)
    requires k <= CODEGEN_CODES && |bits| >= 3 * k
    ensures |cl| == CODEGEN_CODES && ValidLens(cl)
  {
    if k == 0 then Repeat(0, CODEGEN_CODES)
    else
      EightValues(bits[3 * (k - 1)..3 * k]);
      SetLens(bits, k - 1)[CodeOrder()[k - 1] := ValueOf(bits[3 * (k - 1)..3 * k])]
  }

  lemma EightValues(b: seq<bool>)
    requires |b| == 3
    ensures ValueOf(b) < 8
  {
    Pow2Small();
  }

  /** The lengths that a run-length code adds: its count comes from the bits. */
  function RunLengths(s: nat, acc: seq<nat>, v: nat): seq<nat>
    requires s == 16 ==> acc != []
  {
    if s < 16 then [s]
    else if s == 16 then Repeat(acc[|acc| - 1], 3 + v)
    else if s == 17 then Repeat(0, 3 + v)
    else Repeat(0, 11 + v)
  }

  /** Lengths up to n in all, and what follows. */
  function ReadLengths(cl: seq<nat>, bits: seq<bool>, n: nat, acc: seq<nat>): (r: Option<(seq<nat>, seq<bool>)>)
    requires |cl| == CODEGEN_CODES
    ensures r.Some? && |acc| <= n ==> |r.value.0| == n
    decreases n - |acc|
  {
    if |acc| >= n then Some((acc, bits))
    else
      match DecodeSym(cl, bits)
      case None => None
      case Some(s) =>
        if s == 16 && acc == [] then None
        else
          match Field(bits[cl[s]..], ExtraBits(s))
          case None => None
          case Some(v) =>
            var run := RunLengths(s, acc, v);
            if |acc| + |run| > n || |run| == 0 then None
            else ReadLengths(cl, bits[cl[s]..][ExtraBits(s)..], n, acc + run)
  }

  /** The two tables, and what follows the header. */
  function ReadHeader(bits: seq<bool>): (r: Option<(seq<nat>, seq<nat>, seq<bool>)>)
    ensures r.Some? ==> FIRST_LENGTH <= |r.value.0| <= MAX_LIT && 1 <= |r.value.1| <= MAX_DIST_CODES
  {
    if |bits| < 14 then None
    else
      var nlit, ndist, nclen := ValueOf(bits[..5]) + 257, ValueOf(bits[5..10]) + 1, ValueOf(bits[10..14]) + 4;
      FieldValues(bits);
      if nlit > MAX_LIT || ndist > MAX_DIST_CODES || |bits| < 14 + 3 * nclen then None
      else
        var cl := SetLens(bits[14..], nclen);
        if !Acceptable(cl) then None
        else
          match ReadLengths(cl, bits[14 + 3 * nclen..], nlit + ndist, [])
          case None => None
          case Some(p) =>
            if Acceptable(p.0[..nlit]) && Acceptable(p.0[nlit..]) then Some((p.0[..nlit], p.0[nlit..], p.1))
            else None
  }

  lemma FieldValues(bits: seq<bool>)
    requires |bits| >= 14
    ensures ValueOf(bits[..5]) < 32 && ValueOf(bits[5..10]) < 32 && ValueOf(bits[10..14]) < 16
  {
    Pow2Small();
  }

  // ---------------------------------------------------------------------------------------------
  // Round trip.
  // ---------------------------------------------------------------------------------------------

  /** Every code that occurs has a code word. */
  predicate UsedAll(cl: seq<nat>, cg: seq<nat>, acc: seq<nat>)
    requires GoodCodegen(cg, acc)
    decreases |cg|
  {
    cg == [] || (Used(cl, cg[0]) && UsedAll(cl, cg[HeadSize(cg)..], acc + HeadLengths(cg, acc)))
  }

  lemma {:induction false} CountedUsed(cl: seq<nat>, freq: seq<nat>, cg: seq<nat>, acc: seq<nat>)
    requires GoodCodegen(cg, acc) && |cl| == |freq| == CODEGEN_CODES
    requires forall c :: 0 <= c < CODEGEN_CODES && CodeCount(cg, acc, c) > 0 ==> freq[c] > 0
    requires forall c :: 0 <= c < CODEGEN_CODES && freq[c] > 0 ==> cl[c] > 0
    ensures UsedAll(cl, cg, acc)
    decreases |cg|
  {
    if cg != [] {
      assert CodeCount(cg, acc, cg[0]) > 0;
      assert Used(cl, cg[0]);
      CountedUsed(cl, freq, cg[HeadSize(cg)..], acc + HeadLengths(cg, acc));
    }
  }

  /** Reading inverts writing for the run-length codes. */
  lemma {:induction false} LengthsRoundTrip(cl: seq<nat>, codes: seq<nat>, cg: seq<nat>, acc: seq<nat>, n: nat,
          rest: seq<bool>)
    requires |cl| == |codes| == CODEGEN_CODES && Fits(cl) && CanonCodes(cl, codes)
    requires GoodCodegen(cg, acc) && UsedAll(cl, cg, acc) && |ExpandCodegen(cg, acc)| == n
    ensures ReadLengths(cl, CodegenEmit(codes, cg, acc) + rest, n, acc) == Some((ExpandCodegen(cg, acc), rest))
    decreases |cg|
  {
    hide Fits, CanonCodes, SymBits, DecodeSym, BitsOf, CodeEmit, Field, Repeat, CanonHCode;
    if cg == [] {
      assert [] + rest == rest;
    } else {
      var s, k := cg[0], HeadSize(cg);
      var next := acc + HeadLengths(cg, acc);
      var tail := CodegenEmit(codes, cg[k..], next) + rest;
      var e := if s < 16 then [] else BitsOf(cg[1], ExtraBits(s));
      assert |acc| < |next| <= n;
      HeadRoundTrip(cl, codes, s, if s < 16 then 0 else cg[1], tail);
      EmitHead(codes, cg, acc, rest);
      LengthsRoundTrip(cl, codes, cg[k..], next, n, rest);
    }
  }

  lemma EmitHead(codes: seq<nat>, cg: seq<nat>, acc: seq<nat>, rest: seq<bool>)
    requires |codes| == CODEGEN_CODES && GoodCodegen(cg, acc) && cg != []
    ensures CodegenEmit(codes, cg, acc) + rest
      == CodeEmit(codes[cg[0]])
        + ((if cg[0] < 16 then [] else BitsOf(cg[1], ExtraBits(cg[0])))
          + (CodegenEmit(codes, cg[HeadSize(cg)..], acc + HeadLengths(cg, acc)) + rest))
  {
    hide CodeEmit, BitsOf, HeadLengths, ExtraBits;
  }

  lemma HeadRoundTrip(cl: seq<nat>, codes: seq<nat>, s: nat, v: nat, tail: seq<bool>)
    requires |cl| == |codes| == CODEGEN_CODES && Fits(cl) && CanonCodes(cl, codes) && Used(cl, s)
    requires s < 16 ==> v == 0
    requires (s == 16 ==> v <= 3) && (s == 17 ==> v <= 7) && (s == 18 ==> v <= 127)
    ensures var e := if s < 16 then [] else BitsOf(v, ExtraBits(s));
      var bits := CodeEmit(codes[s]) + (e + tail);
      && DecodeSym(cl, bits) == Some(s)
      && Field(bits[cl[s]..], ExtraBits(s)) == Some(v)
      && bits[cl[s]..][ExtraBits(s)..] == tail
  {
    hide Fits, SymBits, DecodeSym, BitsOf, CodeEmit, Pow2, Field;
    var e := if s < 16 then [] else BitsOf(v, ExtraBits(s));
    Pow2Small();
    CanonEmits(cl, s);
    SymFront(cl, s, e + tail);
    if s < 16 {
      assert e + tail == tail && BitsOf(0, 0) + tail == tail by { NoneOf(0); }
      FieldFront(0, 0, tail);
    } else {
      FieldFront(v, ExtraBits(s), tail);
    }
  }

  lemma NoneOf(v: nat)
    ensures BitsOf(v, 0) == []
  {
  }

  lemma {:induction false} LensEmitPrefix(cl: seq<nat>, j: nat, k: nat)
    requires |cl| == CODEGEN_CODES && j <= k <= CODEGEN_CODES
    ensures LensEmit(cl, j) <= LensEmit(cl, k)
  {
    if j < k { LensEmitPrefix(cl, j, k - 1); }
  }

  /** Reading back the three-bit fields. */
  lemma {:induction false} SetLensAt(cl: seq<nat>, k: nat, bits: seq<bool>, s: nat)
    requires |cl| == CODEGEN_CODES && k <= CODEGEN_CODES && s < CODEGEN_CODES
    requires LensEmit(cl, k) <= bits && forall c :: 0 <= c < CODEGEN_CODES ==> cl[c] < 8
    ensures SetLens(bits, k)[s] == if OrderOf(s) < k then cl[s] else 0
  {
    hide SetLens, LensEmit, CodeOrder, OrderOf;
    if k == 0 {
      NoLens(bits);
    } else {
      var c := CodeOrder()[k - 1];
      LastField(cl, k, bits);
      SetLensAt(cl, k - 1, bits, s);
      SetLensStep(bits, k);
      OrderOfOrder(k - 1);
      if OrderOf(s) == k - 1 { assert s == c; }
    }
  }

  lemma NoLens(bits: seq<bool>)
    ensures SetLens(bits, 0) == Repeat(0, CODEGEN_CODES)
  {
  }

  lemma SetLensStep(bits: seq<bool>, k: nat)
    requires 1 <= k <= CODEGEN_CODES && |bits| >= 3 * k
    ensures SetLens(bits, k) == SetLens(bits, k - 1)[CodeOrder()[k - 1] := ValueOf(bits[3 * (k - 1)..3 * k])]
  {
  }

  lemma LastField(cl: seq<nat>, k: nat, bits: seq<bool>)
    requires |cl| == CODEGEN_CODES && 1 <= k <= CODEGEN_CODES
    requires LensEmit(cl, k) <= bits && cl[CodeOrder()[k - 1]] < 8
    ensures LensEmit(cl, k - 1) <= bits && ValueOf(bits[3 * (k - 1)..3 * k]) == cl[CodeOrder()[k - 1]]
  {
    hide BitsOf, Pow2;
    var v := cl[CodeOrder()[k - 1]];
    assert LensEmit(cl, k) == LensEmit(cl, k - 1) + BitsOf(v, 3);
    assert bits[3 * (k - 1)..3 * k] == LensEmit(cl, k)[3 * (k - 1)..3 * k] == BitsOf(v, 3);
    Pow2Small();
    FieldBack(v, 3);
  }

  /** The code length code read back is the one written when no later code has a length. */
  lemma SetLensBack(cl: seq<nat>, k: nat, bits: seq<bool>)
    requires |cl| == CODEGEN_CODES && k <= CODEGEN_CODES && LensEmit(cl, k) <= bits
    requires forall c :: 0 <= c < CODEGEN_CODES ==> cl[c] < 8
    requires forall j :: k <= j < CODEGEN_CODES ==> cl[CodeOrder()[j]] == 0
    ensures SetLens(bits, k) == cl
  {
    hide SetLens, OrderOf;
    forall s | 0 <= s < CODEGEN_CODES ensures SetLens(bits, k)[s] == cl[s] {
      SetLensAt(cl, k, bits, s);
      assert CodeOrder()[OrderOf(s)] == s;
    }
  }

  /** What a header must satisfy to be read back: tables the decoder accepts, run-length codes that
      stand for them, and a code length code that has words for those codes. */
  ghost predicate GoodHeader(lit: seq<nat>, off: seq<nat>, nc: nat, codes: seq<nat>, cg: seq<nat>) {
    && FIRST_LENGTH <= |lit| <= MAX_LIT && 1 <= |off| <= MAX_DIST_CODES && Acceptable(lit) && Acceptable(off)
    && GoodCodegen(cg, []) && ExpandCodegen(cg, []) == lit + off
    && 4 <= nc <= CODEGEN_CODES && |codes| == CODEGEN_CODES
    && var cl := LensOf(codes, CODEGEN_CODES);
    && Fits(cl) && Acceptable(cl) && CanonCodes(cl, codes) && UsedAll(cl, cg, [])
    && (forall c :: 0 <= c < CODEGEN_CODES ==> cl[c] < 8)
    && forall j :: nc <= j < CODEGEN_CODES ==> cl[CodeOrder()[j]] == 0
  }

  /** Reading inverts writing for the whole header. */
  lemma HeaderRoundTrip(lit: seq<nat>, off: seq<nat>, nc: nat, codes: seq<nat>, cg: seq<nat>, rest: seq<bool>)
    requires GoodHeader(lit, off, nc, codes, cg)
    ensures ReadHeader(HeaderEmit(|lit|, |off|, nc, codes, cg) + rest) == Some((lit, off, rest))
  {
    hide Fits, Acceptable, CanonCodes, UsedAll, BitsOf, LensEmit, CodegenEmit, ReadLengths, SetLens, ExpandCodegen,
         Pow2, ValueOf;
    var cl := LensOf(codes, CODEGEN_CODES);
    var a, b, c := BitsOf(|lit| - 257, 5), BitsOf(|off| - 1, 5), BitsOf(nc - 4, 4);
    var e, g := LensEmit(cl, nc), CodegenEmit(codes, cg, []);
    var bits := HeaderEmit(|lit|, |off|, nc, codes, cg) + rest;
    assert bits == a + b + c + e + (g + rest);
    assert bits[..5] == a && bits[5..10] == b && bits[10..14] == c;
    assert bits[14..] == e + (g + rest) && bits[14 + 3 * nc..] == g + rest;
    Pow2Small();
    FieldBack(|lit| - 257, 5);
    FieldBack(|off| - 1, 5);
    FieldBack(nc - 4, 4);
    SetLensBack(cl, nc, bits[14..]);
    LengthsRoundTrip(cl, codes, cg, [], |lit| + |off|, rest);
    assert (lit + off)[..|lit|] == lit && (lit + off)[|lit|..] == off;
  }

  lemma FieldBack(v: nat, n: nat)
    requires v < Pow2(n)
    ensures ValueOf(BitsOf(v, n)) == v
  {
    ValueOfBitsOf(v, n);
    LowSmall(v, n);
  }
}
