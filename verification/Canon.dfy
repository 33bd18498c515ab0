/** The canonical Huffman code of section 3.2.2 of RFC 1951, as a function of the code lengths.
    It is the seam between the encoder and the decoder: each is proved against this definition. */
module Canon {
  import opened Words

  const MAX_BITS: nat := 15

  datatype Option<T> = None | Some(value: T)

  /** Code lengths per symbol; length 0 marks a symbol without a code. */
  predicate ValidLens(lens: seq<nat>) {
    forall s :: 0 <= s < |lens| ==> lens[s] <= MAX_BITS
  }

  predicate Used(lens: seq<nat>, s: nat) {
    s < |lens| && lens[s] > 0
  }

  /** How many of the first k symbols have length l. */
  function CountTo(lens: seq<nat>, l: nat, k: nat): (n: nat)
    requires k <= |lens|
    ensures n <= k
  {
    if k == 0 then 0 else CountTo(lens, l, k - 1) + if lens[k - 1] == l then 1 else 0
  }

  function Count(lens: seq<nat>, l: nat): nat {
    CountTo(lens, l, |lens|)
  }

  /** The share of the code space, in units of 2^-15, that one code of length l takes. */
  function Share(l: nat): (u: nat)
    requires l <= MAX_BITS
    ensures u >= 1
  {
    Pow2(MAX_BITS - l)
  }

  /** The code space taken by all codes shorter than l. */
  function KraftBelow(lens: seq<nat>, l: nat): nat
    requires 1 <= l <= MAX_BITS + 1
  {
    if l == 1 then 0 else KraftBelow(lens, l - 1) + Count(lens, l - 1) * Share(l - 1)
  }

  /** The Kraft sum in units of 2^-15. */
  function Kraft(lens: seq<nat>): nat {
    KraftBelow(lens, MAX_BITS + 1)
  }

  /** The code space is filled exactly. */
  predicate Complete(lens: seq<nat>) {
    ValidLens(lens) && Kraft(lens) == Pow2(MAX_BITS)
  }

  /** No more code space is used than there is. */
  predicate Fits(lens: seq<nat>) {
    ValidLens(lens) && Kraft(lens) <= Pow2(MAX_BITS)
  }

  predicate Empty(lens: seq<nat>) {
    forall s :: 0 <= s < |lens| ==> lens[s] == 0
  }

  /** The degenerate code: one symbol, one bit. */
  predicate Single(lens: seq<nat>) {
    && Count(lens, 1) == 1 && forall s :: 0 <= s < |lens| ==> lens[s] <= 1
  }

  /** What the decoder accepts: an empty, a complete or a degenerate code. */
  predicate Acceptable(lens: seq<nat>) {
    Empty(lens) || Complete(lens) || Single(lens)
  }

  /** The numerically first code of each length (section 3.2.2, step 2). */
  function FirstCode(lens: seq<nat>, l: nat): nat
    requires l >= 1
  {
    if l == 1 then 0 else 2 * (FirstCode(lens, l - 1) + Count(lens, l - 1))
  }

  /** The code of a symbol (section 3.2.2, step 3). */
  function CodeOf(lens: seq<nat>, s: nat): nat
    requires Used(lens, s)
  {
    FirstCode(lens, lens[s]) + CountTo(lens, lens[s], s)
  }

  /** Where a symbol's share of the code space starts. */
  function Start(lens: seq<nat>, s: nat): nat
    requires ValidLens(lens) && Used(lens, s)
  {
    CodeOf(lens, s) * Share(lens[s])
  }

  function End(lens: seq<nat>, s: nat): nat
    requires ValidLens(lens) && Used(lens, s)
  {
    Start(lens, s) + Share(lens[s])
  }

  lemma ShareStep(l: nat)
    requires 1 <= l <= MAX_BITS
    ensures Share(l - 1) == 2 * Share(l)
  {
  }

  /** Scaled to the code space, the first code of length l starts where the shorter codes end. */
  lemma {:induction false} FirstCodeScaled(lens: seq<nat>, l: nat)
    requires 1 <= l <= MAX_BITS
    ensures FirstCode(lens, l) * Share(l) == KraftBelow(lens, l)
  {
    if l > 1 {
      FirstCodeScaled(lens, l - 1);
      ShareStep(l);
      var a, c, u := FirstCode(lens, l - 1), Count(lens, l - 1), Share(l);
      MulAdd(a, c, 2 * u);
      MulAdd(a + c, 0, u);
    }
  }

  lemma {:induction false} KraftBelowMono(lens: seq<nat>, l: nat, m: nat)
    requires 1 <= l <= m <= MAX_BITS + 1
    ensures KraftBelow(lens, l) <= KraftBelow(lens, m)
  {
    if l < m {
      KraftBelowMono(lens, l, m - 1);
      MulNonNegative(Count(lens, m - 1), Share(m - 1));
    }
  }

  lemma {:induction false} CountToMono(lens: seq<nat>, l: nat, j: nat, k: nat)
    requires j <= k <= |lens|
    ensures CountTo(lens, l, j) <= CountTo(lens, l, k)
    ensures j < k && lens[j] == l ==> CountTo(lens, l, j) < CountTo(lens, l, k)
  {
    if j < k { CountToMono(lens, l, j, k - 1); }
  }

  lemma StartOf(lens: seq<nat>, s: nat)
    requires ValidLens(lens) && Used(lens, s)
    ensures Start(lens, s) == KraftBelow(lens, lens[s]) + CountTo(lens, lens[s], s) * Share(lens[s])
  {
    var l := lens[s];
    FirstCodeScaled(lens, l);
    MulAdd(FirstCode(lens, l), CountTo(lens, l, s), Share(l));
  }

  /** A symbol's share lies inside the part of the code space given to its length. */
  lemma ShareInside(lens: seq<nat>, s: nat)
    requires ValidLens(lens) && Used(lens, s)
    ensures KraftBelow(lens, lens[s]) <= Start(lens, s)
    ensures End(lens, s) <= KraftBelow(lens, lens[s] + 1) <= Kraft(lens)
  {
    var l := lens[s];
    StartOf(lens, s);
    CountToMono(lens, l, s, |lens|);
    MulBound(CountTo(lens, l, s), Count(lens, l), Share(l));
    KraftBelowMono(lens, l + 1, MAX_BITS + 1);
  }

  /** Symbols in the order of their codes: by length, then by value. */
  predicate Precedes(lens: seq<nat>, s: nat, t: nat)
    requires Used(lens, s) && Used(lens, t)
  {
    lens[s] < lens[t] || (lens[s] == lens[t] && s < t)
  }

  /** In that order the shares do not overlap. */
  lemma SharesOrdered(lens: seq<nat>, s: nat, t: nat)
    requires ValidLens(lens) && Used(lens, s) && Used(lens, t) && Precedes(lens, s, t)
    ensures End(lens, s) <= Start(lens, t)
  {
    ShareInside(lens, s);
    ShareInside(lens, t);
    if lens[s] < lens[t] {
      KraftBelowMono(lens, lens[s] + 1, lens[t]);
    } else {
      var l := lens[s];
      StartOf(lens, s);
      StartOf(lens, t);
      CountToMono(lens, l, s, t);
      MulBound(CountTo(lens, l, s), CountTo(lens, l, t), Share(l));
    }
  }

  /** A code fits in its length. */
  lemma CodeFits(lens: seq<nat>, s: nat)
    requires Fits(lens) && Used(lens, s)
    ensures CodeOf(lens, s) < Pow2(lens[s])
    ensures End(lens, s) <= Pow2(MAX_BITS)
  {
    var l, u := lens[s], Share(lens[s]);
    ShareInside(lens, s);
    Pow2Add(l, MAX_BITS - l);
    MulLess(CodeOf(lens, s), Pow2(l), u);
  }

  // ---------------------------------------------------------------------------------------------
  // Handing codes out in symbol order, as both sides do.
  // ---------------------------------------------------------------------------------------------

  /** The next code of each length once the symbols below s have theirs. */
  predicate NextAt(lens: seq<nat>, next: seq<nat>, m: nat, s: nat) {
    && m < |next| && s <= |lens|
    && forall k :: 1 <= k <= m ==> next[k] == FirstCode(lens, k) + CountTo(lens, k, s)
  }

  lemma NextStart(lens: seq<nat>, next: seq<nat>, m: nat)
    requires m < |next| && forall k :: 1 <= k <= m ==> next[k] == FirstCode(lens, k)
    ensures NextAt(lens, next, m, 0)
  {
  }

  lemma NextStep(lens: seq<nat>, next: seq<nat>, m: nat, s: nat)
    requires NextAt(lens, next, m, s) && s < |lens| && lens[s] <= m
    ensures lens[s] == 0 ==> NextAt(lens, next, m, s + 1)
    ensures lens[s] > 0 ==>
      && next[lens[s]] == FirstCode(lens, lens[s]) + CountTo(lens, lens[s], s)
      && NextAt(lens, next[lens[s] := next[lens[s]] + 1], m, s + 1)
  {
  }

  // ---------------------------------------------------------------------------------------------
  // Codes as bits: a code is packed most significant bit first.
  // ---------------------------------------------------------------------------------------------

  function CodeBits(c: nat, l: nat): (s: seq<bool>)
    ensures |s| == l
  {
    if l == 0 then [] else CodeBits(c / 2, l - 1) + [c % 2 == 1]
  }

  /** The number read from bits, most significant first. */
  function MsbValue(s: seq<bool>): (v: nat)
    ensures v < Pow2(|s|)
  {
    if s == [] then 0 else 2 * MsbValue(s[..|s| - 1]) + if s[|s| - 1] then 1 else 0
  }

  lemma {:induction false} MsbValueOfCodeBits(c: nat, l: nat)
    requires c < Pow2(l)
    ensures MsbValue(CodeBits(c, l)) == c
  {
    if l > 0 {
      MsbValueOfCodeBits(c / 2, l - 1);
      assert CodeBits(c, l)[..l - 1] == CodeBits(c / 2, l - 1);
    }
  }

  lemma {:induction false} CodeBitsOfMsbValue(s: seq<bool>)
    ensures CodeBits(MsbValue(s), |s|) == s
  {
    if s != [] {
      CodeBitsOfMsbValue(s[..|s| - 1]);
    }
  }

  lemma {:induction false} MsbValueSplit(s: seq<bool>, t: seq<bool>)
    ensures MsbValue(s + t) == MsbValue(s) * Pow2(|t|) + MsbValue(t)
  {
    if t == [] {
      assert s + t == s;
    } else {
      var r, st := t[..|t| - 1], s + t;
      MsbValueSplit(s, r);
      assert st[..|st| - 1] == s + r && st[|st| - 1] == t[|t| - 1];
      var v, p := MsbValue(s), Pow2(|r|);
      MulAdd(v, 0, p);
      assert Pow2(|t|) == 2 * p;
      assert MsbValue(st) == 2 * MsbValue(s + r) + if t[|t| - 1] then 1 else 0;
    }
  }

  /** A code starts a bit string of full width exactly when the value of the string
      lies in the code's share of the code space. */
  lemma PrefixIffInShare(c: nat, l: nat, w: seq<bool>)
    requires l <= |w| == MAX_BITS && c < Pow2(l)
    ensures CodeBits(c, l) <= w <==> c * Share(l) <= MsbValue(w) < c * Share(l) + Share(l)
  {
    hide Pow2, MsbValue, CodeBits;
    var a, b := w[..l], w[l..];
    assert w == a + b;
    MsbValueSplit(a, b);
    var v, u := MsbValue(a), Share(l);
    DivUnique(MsbValue(w), v, MsbValue(b), u);
    assert CodeBits(c, l) == a <==> v == c by {
      MsbValueOfCodeBits(c, l);
      CodeBitsOfMsbValue(a);
    }
    if c * u <= MsbValue(w) < c * u + u {
      DivUnique(MsbValue(w), c, MsbValue(w) - c * u, u);
    }
  }

  /** The bits that encode a symbol. */
  function SymBits(lens: seq<nat>, s: nat): (b: seq<bool>)
    requires Used(lens, s)
    ensures |b| == lens[s]
  {
    CodeBits(CodeOf(lens, s), lens[s])
  }

  lemma SymBitsIff(lens: seq<nat>, s: nat, w: seq<bool>)
    requires Fits(lens) && Used(lens, s) && |w| == MAX_BITS
    ensures SymBits(lens, s) <= w <==> Start(lens, s) <= MsbValue(w) < End(lens, s)
  {
    CodeFits(lens, s);
    PrefixIffInShare(CodeOf(lens, s), lens[s], w);
  }

  /** Bits extended with zeros to full width. */
  function Pad(w: seq<bool>): (p: seq<bool>)
    requires |w| <= MAX_BITS
    ensures |p| == MAX_BITS && w <= p
  {
    w + seq(MAX_BITS - |w|, _ => false)
  }

  /** No code is a prefix of another. */
  lemma PrefixFree(lens: seq<nat>, s: nat, t: nat)
    requires Fits(lens) && Used(lens, s) && Used(lens, t)
    requires SymBits(lens, s) <= SymBits(lens, t)
    ensures s == t
  {
    var w := Pad(SymBits(lens, t));
    assert SymBits(lens, s) <= w;
    SymBitsIff(lens, s, w);
    SymBitsIff(lens, t, w);
    SameShare(lens, s, t, MsbValue(w));
  }

  lemma SameShare(lens: seq<nat>, s: nat, t: nat, v: nat)
    requires Fits(lens) && Used(lens, s) && Used(lens, t)
    requires Start(lens, s) <= v < End(lens, s)
    requires Start(lens, t) <= v < End(lens, t)
    ensures s == t
  {
    if s != t {
      if Precedes(lens, s, t) { SharesOrdered(lens, s, t); } else { SharesOrdered(lens, t, s); }
    }
  }

  /** Two codes that both start the same bits belong to one symbol. */
  lemma SameStart(lens: seq<nat>, s: nat, t: nat, bits: seq<bool>)
    requires Fits(lens) && Used(lens, s) && Used(lens, t)
    requires SymBits(lens, s) <= bits && SymBits(lens, t) <= bits
    ensures s == t
  {
    if lens[s] <= lens[t] {
      assert SymBits(lens, s) == bits[..lens[s]] == bits[..lens[t]][..lens[s]];
      PrefixFree(lens, s, t);
    } else {
      assert SymBits(lens, t) == bits[..lens[t]] == bits[..lens[s]][..lens[t]];
      PrefixFree(lens, t, s);
    }
  }

  // ---------------------------------------------------------------------------------------------
  // A complete code: every bit string starts with a code.
  // ---------------------------------------------------------------------------------------------

  lemma {:induction false} FindLength(lens: seq<nat>, v: nat, l: nat) returns (m: nat)
    requires 1 <= l <= MAX_BITS + 1 && v < KraftBelow(lens, l)
    ensures 1 <= m < l && KraftBelow(lens, m) <= v < KraftBelow(lens, m + 1)
  {
    if v < KraftBelow(lens, l - 1) {
      m := FindLength(lens, v, l - 1);
    } else {
      m := l - 1;
    }
  }

  lemma {:induction false} FindNth(lens: seq<nat>, l: nat, n: nat, k: nat) returns (s: nat)
    requires k <= |lens| && n < CountTo(lens, l, k)
    ensures s < k && lens[s] == l && CountTo(lens, l, s) == n
  {
    if lens[k - 1] == l && CountTo(lens, l, k - 1) == n {
      s := k - 1;
    } else {
      s := FindNth(lens, l, n, k - 1);
    }
  }

  /** The shares fill the used code space: every value below the Kraft sum is in some share. */
  lemma FindShare(lens: seq<nat>, v: nat) returns (s: nat)
    requires ValidLens(lens) && v < Kraft(lens)
    ensures Used(lens, s) && Start(lens, s) <= v < End(lens, s)
  {
    var l := FindLength(lens, v, MAX_BITS + 1);
    var u, c := Share(l), Count(lens, l);
    var d := v - KraftBelow(lens, l);
    var n := d / u;
    DivBracket(d, u, c);
    s := FindNth(lens, l, n, |lens|);
    StartOf(lens, s);
  }

  /** Every full-width bit string starts with exactly one code when the code is complete. */
  lemma FindSymbol(lens: seq<nat>, w: seq<bool>) returns (s: nat)
    requires Complete(lens) && |w| == MAX_BITS
    ensures Used(lens, s) && SymBits(lens, s) <= w
  {
    s := FindShare(lens, MsbValue(w));
    SymBitsIff(lens, s, w);
  }

  // ---------------------------------------------------------------------------------------------
  // Reading one symbol from bits.
  // ---------------------------------------------------------------------------------------------

  /** The symbol among the first k whose code starts the bits. */
  function DecodeTo(lens: seq<nat>, bits: seq<bool>, k: nat): (r: Option<nat>)
    requires k <= |lens|
    ensures r.Some? ==> r.value < k && Used(lens, r.value) && SymBits(lens, r.value) <= bits
  {
    if k == 0 then None
    else if lens[k - 1] > 0 && SymBits(lens, k - 1) <= bits then Some(k - 1)
    else DecodeTo(lens, bits, k - 1)
  }

  function DecodeSym(lens: seq<nat>, bits: seq<bool>): (r: Option<nat>)
    ensures r.Some? ==> Used(lens, r.value) && SymBits(lens, r.value) <= bits
  {
    DecodeTo(lens, bits, |lens|)
  }

  lemma {:induction false} DecodeToFinds(lens: seq<nat>, bits: seq<bool>, k: nat, s: nat)
    requires k <= |lens| && s < k && Used(lens, s) && SymBits(lens, s) <= bits
    ensures DecodeTo(lens, bits, k).Some?
  {
    if s < k - 1 { DecodeToFinds(lens, bits, k - 1, s); }
  }

  /** Decoding inverts encoding, whatever follows. */
  lemma DecodeEncode(lens: seq<nat>, s: nat, bits: seq<bool>)
    requires Fits(lens) && Used(lens, s) && SymBits(lens, s) <= bits
    ensures DecodeSym(lens, bits) == Some(s)
  {
    DecodeToFinds(lens, bits, |lens|, s);
    SameStart(lens, s, DecodeSym(lens, bits).value, bits);
  }

  // ---------------------------------------------------------------------------------------------
  // Bit-reversed codes, as both sides store them.
  // ---------------------------------------------------------------------------------------------

  /** Reversal of the low w bits of a word. */
  function Reverse(c: nat, w: nat): (r: nat)
    ensures r < Pow2(w)
  {
    ValueOf(CodeBits(c, w))
  }

  lemma {:induction false} CodeBitsHighZeros(c: nat, l: nat, w: nat)
    requires c < Pow2(l) && l <= w
    ensures CodeBits(c, w) == seq(w - l, _ => false) + CodeBits(c, l)
  {
    if l > 0 {
      CodeBitsHighZeros(c / 2, l - 1, w - 1);
    } else if w > 0 {
      CodeBitsHighZeros(0, 0, w - 1);
    }
  }

  lemma {:induction false} DropLowZeros(n: nat, s: seq<bool>)
    ensures Shr(ValueOf(seq(n, _ => false) + s), n) == ValueOf(s)
  {
    var z: seq<bool> := seq(n, _ => false);
    if n == 0 {
      assert z + s == s;
    } else {
      DropLowZeros(n - 1, s);
      assert (z + s)[1..] == seq(n - 1, _ => false) + s;
    }
  }

  /** Reversing a wider word and shifting down reverses just the code. */
  lemma ReverseShift(c: nat, l: nat, w: nat)
    requires c < Pow2(l) && l <= w
    ensures Shr(Reverse(c, w), w - l) == Reverse(c, l)
    ensures BitsOf(Reverse(c, l), l) == CodeBits(c, l)
  {
    CodeBitsHighZeros(c, l, w);
    DropLowZeros(w - l, CodeBits(c, l));
    BitsOfValueOf(CodeBits(c, l));
  }

  // ---------------------------------------------------------------------------------------------
  // Code words as the writer reads them.
  // ---------------------------------------------------------------------------------------------

  /** A code word and its length in one word, as the writer reads them. */
  function HCode(code: nat, len: nat): nat { len + code * 256 }

  function HLen(h: nat): nat { h % 256 }

  function HBits(h: nat): nat { h / 256 }

  /** Canonical code word of a symbol as stored: bit-reversed, with its length. */
  function CanonHCode(lens: seq<nat>, s: nat): nat
    requires s < |lens|
  {
    if lens[s] == 0 then 0 else HCode(Reverse(CodeOf(lens, s), lens[s]), lens[s])
  }

  predicate CanonCodes(lens: seq<nat>, codes: seq<nat>) {
    |lens| <= |codes| && forall s :: 0 <= s < |lens| ==> codes[s] == CanonHCode(lens, s)
  }

  /** A code word that fits in its length, at most 15. */
  predicate GoodCode(h: nat) {
    HLen(h) <= MAX_BITS && HBits(h) < Pow2(HLen(h))
  }

  predicate GoodCodes(codes: seq<nat>) {
    forall s :: 0 <= s < |codes| ==> GoodCode(codes[s])
  }

  /** The bits that writing a code word appends. */
  function CodeEmit(h: nat): (b: seq<bool>)
    ensures |b| == HLen(h)
  {
    BitsOf(HBits(h), HLen(h))
  }

  /** A stored canonical code word writes the symbol's code, most significant bit first. */
  lemma CanonEmits(lens: seq<nat>, s: nat)
    requires Fits(lens) && s < |lens|
    ensures GoodCode(CanonHCode(lens, s)) && HLen(CanonHCode(lens, s)) == lens[s]
    ensures Used(lens, s) ==> CodeEmit(CanonHCode(lens, s)) == SymBits(lens, s)
    ensures CanonHCode(lens, s) == 0 <==> lens[s] == 0
  {
    hide Pow2, Reverse, CodeOf, Kraft, CodeBits, BitsOf, Shr;
    if lens[s] > 0 {
      CodeFits(lens, s);
      ReverseShift(CodeOf(lens, s), lens[s], lens[s]);
      HCodeParts(Reverse(CodeOf(lens, s), lens[s]), lens[s]);
    }
  }

  lemma HCodeParts(code: nat, len: nat)
    requires len < 256
    ensures HLen(HCode(code, len)) == len && HBits(HCode(code, len)) == code
  {
  }
}
