/** The fixed codes of section 3.2.6 of RFC 1951 as the writer holds them, and sizes of data under a
    code. */
module HuffmanCodes {
  import opened Words
  import opened Canon
  import LzCodes
  import opened Format
  import opened HuffmanTree
  import opened HuffmanSort
  import opened HuffmanCode
  import opened Tokens
  import opened TokenBuffer

  const LITERAL_CODES: nat := 286
  const MAX_INT32: nat := 0x7fff_ffff

  /** Reversal of the low n bits: the word moves to the top of 16 bits, which are then reversed. */
  function ReverseBits(number: nat, n: nat): nat
    requires 1 <= n <= 16
  {
    Reverse(Low(number * Pow2(16 - n), 16), 16)
  }

  lemma {:induction false} CodeBitsUp(c: nat, n: nat, k: nat)
    ensures CodeBits(c * Pow2(k), n + k) == CodeBits(c, n) + seq(k, _ => false)
  {
    if k > 0 {
      CodeBitsUp(c, n, k - 1);
      HalfProduct(c, Pow2(k - 1));
      var h := c * Pow2(k - 1);
      assert c * Pow2(k) == 2 * h && CodeBits(2 * h, n + k) == CodeBits(h, n + k - 1) + [false];
    }
  }

  lemma {:induction false} ValueOfZeros(s: seq<bool>, k: nat)
    ensures ValueOf(s + seq(k, _ => false)) == ValueOf(s)
  {
    var z: seq<bool> := seq(k, _ => false);
    if s != [] {
      assert (s + z)[1..] == s[1..] + z;
      ValueOfZeros(s[1..], k);
    } else {
      NoValue(k);
      assert s + z == z;
    }
  }

  lemma {:induction false} NoValue(k: nat)
    ensures ValueOf(seq(k, _ => false)) == 0
  {
    var z: seq<bool> := seq(k, _ => false);
    if k > 0 {
      NoValue(k - 1);
      assert z[1..] == seq(k - 1, _ => false);
    }
  }

  lemma ReverseBitsIs(number: nat, n: nat)
    requires 1 <= n <= 16 && number < Pow2(n)
    ensures ReverseBits(number, n) == Reverse(number, n)
  {
    hide Pow2, CodeBits, ValueOf, Low;
    ShiftInside(number, 16 - n, n, 16);
    CodeBitsUp(number, n, 16 - n);
    ValueOfZeros(CodeBits(number, n), 16 - n);
  }

  /** Builds the fixed literal and length code words. */
  method GenerateFixedLiteralEncoding() returns (codes: array<nat>)
    ensures fresh(codes) && codes.Length == LITERAL_CODES
    ensures Agree(FixedLit(), codes[..]) && GoodCodes(codes[..])
  {
    hide Reverse, CanonHCode, GoodCode, FixedLit, ReverseBits, Pow2;
    codes := new nat[LITERAL_CODES](_ => 0);
    for ch := 0 to LITERAL_CODES
      invariant forall s :: 0 <= s < ch ==> codes[s] == CanonHCode(FixedLit(), s) && GoodCode(codes[s])
    {
      var bits, size;
      if ch < 144 {
        bits, size := ch + 48, 8;
      } else if ch < 256 {
        bits, size := ch + 400 - 144, 9;
      } else if ch < 280 {
        bits, size := ch - 256, 7;
      } else {
        bits, size := ch + 192 - 280, 8;
      }
      FixedWord(ch);
      FixedFits(bits, size);
      ReverseBitsIs(bits, size);
      codes[ch] := HCode(ReverseBits(bits, size), size);
    }
  }

  lemma FixedFits(bits: nat, size: nat)
    requires (size == 5 && bits < 32) || (size == 7 && bits < 128) || (size == 8 && bits < 256) ||
      (size == 9 && bits < 512)
    ensures bits < Pow2(size)
  {
    LzCodes.Pow2Small();
    LzCodes.Pow2Large();
  }

  lemma FixedWord(s: nat)
    requires s < 288
    ensures GoodCode(CanonHCode(FixedLit(), s))
    ensures CanonHCode(FixedLit(), s) ==
      if s < 144 then HCode(Reverse(s + 48, 8), 8)
      else if s < 256 then HCode(Reverse(s + 400 - 144, 9), 9)
      else if s < 280 then HCode(Reverse(s - 256, 7), 7)
      else HCode(Reverse(s + 192 - 280, 8), 8)
  {
    hide Reverse, CodeOf, Complete, HCode, GoodCode;
    FixedLitCode(s);
    FixedLitComplete();
    FitsComplete(FixedLit());
    CanonEmits(FixedLit(), s);
  }

  lemma FitsComplete(lens: seq<nat>)
    requires Complete(lens)
    ensures Fits(lens)
  {
  }

  /** Builds the fixed distance code words. */
  method GenerateFixedOffsetEncoding() returns (codes: array<nat>)
    ensures fresh(codes) && codes.Length == MAX_DIST_CODES
    ensures Agree(FixedOff(), codes[..]) && GoodCodes(codes[..])
  {
    hide Reverse, CanonHCode, GoodCode, FixedOff, ReverseBits, Pow2;
    codes := new nat[MAX_DIST_CODES](_ => 0);
    for ch := 0 to MAX_DIST_CODES
      invariant forall s :: 0 <= s < ch ==> codes[s] == CanonHCode(FixedOff(), s) && GoodCode(codes[s])
    {
      FixedOffWord(ch);
      FixedFits(ch, 5);
      ReverseBitsIs(ch, 5);
      codes[ch] := HCode(ReverseBits(ch, 5), 5);
    }
  }

  lemma FixedOffWord(s: nat)
    requires s < 32
    ensures GoodCode(CanonHCode(FixedOff(), s)) && CanonHCode(FixedOff(), s) == HCode(Reverse(s, 5), 5)
  {
    hide Reverse, CodeOf, Complete, HCode, GoodCode;
    FixedOffCode(s);
    FixedOffComplete();
    FitsComplete(FixedOff());
    CanonEmits(FixedOff(), s);
  }

  // ---------------------------------------------------------------------------------------------
  // Sizes.
  // ---------------------------------------------------------------------------------------------

  /** Bits taken by the first k symbols, each as often as its frequency says. */
  function SizeTo(codes: seq<nat>, freq: seq<nat>, k: nat): nat
    requires k <= |freq| <= |codes|
  {
    if k == 0 then 0 else SizeTo(codes, freq, k - 1) + freq[k - 1] * HLen(codes[k - 1])
  }

  method BitLength(codes: seq<nat>, freq: seq<nat>) returns (total: nat)
    requires |freq| <= |codes|
    ensures total == SizeTo(codes, freq, |freq|)
  {
    hide HLen;
    total := 0;
    for i := 0 to |freq|
      invariant total == SizeTo(codes, freq, i)
    {
      if freq[i] != 0 {
        total := total + freq[i] * HLen(codes[i]);
      }
    }
  }

  /** Every symbol that occurs has a code word. */
  predicate Reusable(codes: seq<nat>, freq: seq<nat>) {
    |freq| <= |codes| && forall i :: 0 <= i < |freq| && freq[i] != 0 ==> codes[i] != 0
  }

  /** The size under a code made for other data, or MAX_INT32 when it lacks a symbol. */
  method CanReuseBits(codes: seq<nat>, freq: seq<nat>) returns (total: nat)
    requires |freq| <= |codes|
    ensures Reusable(codes, freq) ==> total == SizeTo(codes, freq, |freq|)
    ensures !Reusable(codes, freq) ==> total == MAX_INT32
  {
    hide HLen;
    total := 0;
    for i := 0 to |freq|
      invariant total == SizeTo(codes, freq, i)
      invariant forall k :: 0 <= k < i && freq[k] != 0 ==> codes[k] != 0
    {
      if freq[i] != 0 {
        var code := codes[i];
        if code == 0 {
          return MAX_INT32;
        }
        total := total + freq[i] * HLen(code);
      }
    }
  }

  /** At 15 bits a symbol at most. */
  lemma {:induction false} SizeBound(codes: seq<nat>, freq: seq<nat>, k: nat)
    requires k <= |freq| <= |codes| && forall i :: 0 <= i < k ==> HLen(codes[i]) <= 15
    ensures SizeTo(codes, freq, k) <= 15 * Sum(freq[..k])
  {
    hide HLen;
    if k > 0 {
      SizeBound(codes, freq, k - 1);
      assert freq[..k] == freq[..k - 1] + [freq[k - 1]];
      SumConcat(freq[..k - 1], [freq[k - 1]]);
      assert [freq[k - 1]][1..] == [];
      AtMost(freq[k - 1], HLen(codes[k - 1]));
    }
  }

  lemma AtMost(f: nat, l: nat)
    requires l <= 15
    ensures f * l <= 15 * f
  {
  }

  // ---------------------------------------------------------------------------------------------
  // Byte histograms.
  // ---------------------------------------------------------------------------------------------

  function ByteCount(s: seq<byte>, v: nat): (n: nat)
    ensures n <= |s|
  {
    if s == [] then 0 else (if s[0] == v then 1 else 0) + ByteCount(s[1..], v)
  }

  lemma {:induction false} ByteCountConcat(a: seq<byte>, b: seq<byte>, v: nat)
    ensures ByteCount(a + b, v) == ByteCount(a, v) + ByteCount(b, v)
  {
    if a == [] {
      assert a + b == b;
    } else {
      ByteCountConcat(a[1..], b, v);
      assert (a + b)[1..] == a[1..] + b;
    }
  }

  lemma {:induction false} ByteCounted(s: seq<byte>, k: nat)
    requires k < |s|
    ensures ByteCount(s, s[k]) > 0
  {
    if k > 0 { ByteCounted(s[1..], k - 1); }
  }

  /** h counts the bytes of s, and nothing else. */
  predicate Tallies(h: seq<nat>, s: seq<byte>) {
    && |h| >= 257 && (forall v :: 0 <= v < 256 ==> h[v] == ByteCount(s, v))
    && (forall v :: 256 <= v < |h| ==> h[v] == 0) && Sum(h) == |s|
  }

  /** An increment of a 16-bit counter wraps around. */
  function Wrap16(x: nat): nat { x % 0x1_0000 }

  /** h has the counts of the bytes of s added to those in h0, in 16 bits; what lies above is unchanged. */
  predicate Added(h0: seq<nat>, h: seq<nat>, s: seq<byte>) {
    && |h| == |h0| >= 256 && (forall v :: 0 <= v < 256 ==> h[v] == Wrap16(h0[v] + ByteCount(s, v)))
    && (forall v :: 256 <= v < |h| ==> h[v] == h0[v])
  }

  lemma AddNone(h0: seq<nat>)
    requires |h0| >= 256 && forall v :: 0 <= v < 256 ==> h0[v] < 0x1_0000
    ensures Added(h0, h0, [])
  {
  }

  lemma AddedSize(h0: seq<nat>, h: seq<nat>, s: seq<byte>)
    requires Added(h0, h, s)
    ensures |h| == |h0| >= 256
  {
  }

  lemma AddOne(h0: seq<nat>, h: seq<nat>, s: seq<byte>, b: byte)
    requires Added(h0, h, s)
    ensures Added(h0, h[b := Wrap16(h[b] + 1)], s + [b])
  {
    hide ByteCount;
    forall v | 0 <= v < 256 ensures ByteCount(s + [b], v) == ByteCount(s, v) + if v == b then 1 else 0 {
      ByteCountConcat(s, [b], v);
      OneByteCount(b, v);
    }
  }

  lemma {:induction false} TallySum(h: seq<nat>, s: seq<byte>)
    requires |h| >= 257 && (forall v :: 0 <= v < 256 ==> h[v] == ByteCount(s, v))
    requires forall v :: 256 <= v < |h| ==> h[v] == 0
    ensures Sum(h) == |s|
    decreases |s|
  {
    hide Sum;
    if s == [] {
      SumNone(|h|);
      assert h == seq(|h|, _ => 0);
    } else {
      var b := s[0];
      var g := h[b := h[b] - 1];
      assert ByteCount(s, b) == 1 + ByteCount(s[1..], b);
      TallySum(g, s[1..]);
      SumStep(g, b);
      assert g[b := g[b] + 1] == h;
    }
  }

  /** Added to nothing, counts that fit in 16 bits are the counts. */
  lemma AddedTallies(h0: seq<nat>, h: seq<nat>, s: seq<byte>)
    requires Added(h0, h, s) && |s| <= 65535 && |h0| >= 257 && forall v :: 0 <= v < |h0| ==> h0[v] == 0
    ensures Tallies(h, s)
  {
    hide ByteCount, Sum;
    TallySum(h, s);
  }

  lemma OneByteCount(b: byte, v: nat)
    ensures ByteCount([b], v) == if v == b then 1 else 0
  {
    assert [b][1..] == [];
  }

  /** Counts do not depend on order. */
  lemma AddedSame(h0: seq<nat>, h: seq<nat>, s: seq<byte>, r: seq<byte>)
    requires Added(h0, h, s) && forall v :: ByteCount(s, v) == ByteCount(r, v)
    ensures Added(h0, h, r)
  {
    hide ByteCount;
  }

  /** Counts bytes, four strands at a time when there are many. */
  method Histogram(b: seq<byte>, h0: seq<nat>) returns (h: seq<nat>)
    requires |h0| >= 256 && forall v :: 0 <= v < 256 ==> h0[v] < 0x1_0000
    ensures Added(h0, h, b)
  {
    hide Added;
    h := h0;
    AddNone(h0);
    if |b| >= 8192 {
      h := HistogramSplit(b, h0);
    } else {
      for i := 0 to |b|
        invariant Added(h0, h, b[..i])
      {
        AddedSize(h0, h, b[..i]);
        AddOne(h0, h, b[..i], b[i]);
        h := h[b[i] := Wrap16(h[b[i]] + 1)];
        assert b[..i + 1] == b[..i] + [b[i]];
      }
      assert b[..|b|] == b;
    }
  }

  method HistogramSplit(b0: seq<byte>, h0: seq<nat>) returns (h: seq<nat>)
    requires |h0| >= 256 && forall v :: 0 <= v < 256 ==> h0[v] < 0x1_0000
    ensures Added(h0, h, b0)
  {
    hide Added, ByteCount;
    h := h0;
    var b := b0;
    ghost var k := 0;
    AddNone(h0);
    while |b| % 4 != 0
      invariant k <= |b0| && b == b0[k..] && Added(h0, h, b0[..k])
      decreases |b|
    {
      AddedSize(h0, h, b0[..k]);
      AddOne(h0, h, b0[..k], b[0]);
      h := h[b[0] := Wrap16(h[b[0]] + 1)];
      assert b0[..k + 1] == b0[..k] + [b[0]];
      b := b[1..];
      k := k + 1;
    }
    var n := |b| / 4;
    var x, y, z, w := b[..n], b[n..n + n], b[n + n..n + n + n], b[n + n + n..];
    ghost var seen := b0[..k];
    for i := 0 to n
      invariant Added(h0, h, seen)
      invariant forall v :: ByteCount(seen, v) == ByteCount(b0[..k], v) + Strands(x, y, z, w, i, v)
    {
      var h1 := AddByte(h0, h, seen, x[i]);
      var h2 := AddByte(h0, h1, seen + [x[i]], y[i]);
      var h3 := AddByte(h0, h2, seen + [x[i]] + [y[i]], z[i]);
      h := AddByte(h0, h3, seen + [x[i]] + [y[i]] + [z[i]], w[i]);
      StrandsStep(seen, x, y, z, w, i);
      seen := seen + [x[i]] + [y[i]] + [z[i]] + [w[i]];
    }
    StrandsAll(b0, k, x, y, z, w, seen);
    AddedSame(h0, h, seen, b0);
  }

  method AddByte(ghost h0: seq<nat>, h1: seq<nat>, ghost s: seq<byte>, b: byte) returns (h: seq<nat>)
    requires Added(h0, h1, s)
    ensures Added(h0, h, s + [b])
  {
    hide ByteCount;
    AddOne(h0, h1, s, b);
    h := h1[b := Wrap16(h1[b] + 1)];
  }

  /** Counts over the first i bytes of each strand. */
  function Strands(x: seq<byte>, y: seq<byte>, z: seq<byte>, w: seq<byte>, i: nat, v: nat): nat
    requires i <= |x| == |y| == |z| == |w|
  {
    ByteCount(x[..i], v) + ByteCount(y[..i], v) + ByteCount(z[..i], v) + ByteCount(w[..i], v)
  }

  lemma CountStep(x: seq<byte>, i: nat, v: nat)
    requires i < |x|
    ensures ByteCount(x[..i + 1], v) == ByteCount(x[..i], v) + ByteCount([x[i]], v)
  {
    assert x[..i + 1] == x[..i] + [x[i]];
    ByteCountConcat(x[..i], [x[i]], v);
  }

  lemma StrandsStep(seen: seq<byte>, x: seq<byte>, y: seq<byte>, z: seq<byte>, w: seq<byte>, i: nat)
    requires i < |x| == |y| == |z| == |w|
    ensures forall v :: (ByteCount(seen + [x[i]] + [y[i]] + [z[i]] + [w[i]], v)
                         == ByteCount(seen, v) + Strands(x, y, z, w, i + 1, v) - Strands(x, y, z, w, i, v))
  {
    hide ByteCount;
    forall v
      ensures ByteCount(seen + [x[i]] + [y[i]] + [z[i]] + [w[i]], v)
        == ByteCount(seen, v) + Strands(x, y, z, w, i + 1, v) - Strands(x, y, z, w, i, v)
    {
      CountStep(x, i, v);
      CountStep(y, i, v);
      CountStep(z, i, v);
      CountStep(w, i, v);
      ByteCountConcat(seen, [x[i]], v);
      ByteCountConcat(seen + [x[i]], [y[i]], v);
      ByteCountConcat(seen + [x[i]] + [y[i]], [z[i]], v);
      ByteCountConcat(seen + [x[i]] + [y[i]] + [z[i]], [w[i]], v);
    }
  }

  lemma StrandsAll(b0: seq<byte>, k: nat, x: seq<byte>, y: seq<byte>, z: seq<byte>, w: seq<byte>, seen: seq<byte>)
    requires k <= |b0| && |x| == |y| == |z| == |w| && b0[k..] == x + y + z + w
    requires forall v :: ByteCount(seen, v) == ByteCount(b0[..k], v) + Strands(x, y, z, w, |x|, v)
    ensures forall v :: ByteCount(seen, v) == ByteCount(b0, v)
  {
    hide ByteCount;
    assert x[..|x|] == x && y[..|x|] == y && z[..|x|] == z && w[..|x|] == w;
    forall v ensures ByteCount(seen, v) == ByteCount(b0, v) {
      assert b0 == b0[..k] + b0[k..];
      ByteCountConcat(b0[..k], b0[k..], v);
      ByteCountConcat(x, y, v);
      ByteCountConcat(x + y, z, v);
      ByteCountConcat(x + y + z, w, v);
    }
  }
}
