/** Words loaded from byte slices, hashes of them, and how long two slices agree. */
module MatchLen {
  import opened Words

  /** The little-endian word of n bytes at i. */
  function Load(b: seq<byte>, i: nat, n: nat): (v: nat)
    requires i + n <= |b|
    ensures v < Pow2(8 * n)
    decreases n
  {
    if n == 0 then 0
    else
      Pow2Byte(n - 1);
      b[i] + 0x100 * Load(b, i + 1, n - 1)
  }

  lemma Pow2Byte(n: nat)
    ensures Pow2(8 * (n + 1)) == 0x100 * Pow2(8 * n)
  {
    Pow2Values();
    Pow2Add(8, 8 * n);
  }

  function Xor(x: nat, y: nat): nat
    decreases x + y
  {
    if x == 0 && y == 0 then 0
    else (if x % 2 != y % 2 then 1 else 0) + 2 * Xor(x / 2, y / 2)
  }

  function TrailingZeros64(x: nat): nat {
    if x == 0 then 64 else if x % 2 == 1 then 0 else 1 + TrailingZeros64(x / 2)
  }

  // ---------------------------------------------------------------------------------------------
  // Where two words first differ.
  // ---------------------------------------------------------------------------------------------

  lemma {:induction false} XorSmall(v: nat, w: nat, n: nat)
    requires v < Pow2(n) && w < Pow2(n)
    ensures Xor(v, w) < Pow2(n) && (Xor(v, w) == 0 <==> v == w)
  {
    if n > 0 && (v > 0 || w > 0) { XorSmall(v / 2, w / 2, n - 1); }
  }

  lemma {:induction false} XorParts(v: nat, w: nat, x: nat, y: nat, n: nat)
    requires v < Pow2(n) && w < Pow2(n)
    ensures Xor(v + x * Pow2(n), w + y * Pow2(n)) == Xor(v, w) + Xor(x, y) * Pow2(n)
  {
    if n > 0 {
      var p := Pow2(n - 1);
      var a, b := x * p, y * p;
      HalfProduct(x, p);
      HalfProduct(y, p);
      HalfProduct(Xor(x, y), p);
      JoinHalf(v, a);
      JoinHalf(w, b);
      XorParts(v / 2, w / 2, x, y, n - 1);
      XorStep(v, w);
      XorStep(v + 2 * a, w + 2 * b);
    }
  }

  lemma XorStep(x: nat, y: nat)
    ensures Xor(x, y) == (if x % 2 != y % 2 then 1 else 0) + 2 * Xor(x / 2, y / 2)
  {
  }

  lemma {:induction false} TrailingLow(z: nat, h: nat, n: nat)
    requires 0 < z < Pow2(n)
    ensures TrailingZeros64(z + h * Pow2(n)) < n
  {
    var p := Pow2(n - 1);
    HalfProduct(h, p);
    JoinHalf(z, h * p);
    if z % 2 == 0 { TrailingLow(z / 2, h, n - 1); }
  }

  lemma {:induction false} TrailingHigh(h: nat, n: nat)
    requires h > 0
    ensures TrailingZeros64(h * Pow2(n)) == n + TrailingZeros64(h)
  {
    if n > 0 {
      var p := Pow2(n - 1);
      HalfProduct(h, p);
      MulLess(0, h, p);
      TrailingHigh(h, n - 1);
    }
  }

  lemma LoadFirst(b: seq<byte>, i: nat, n: nat)
    requires i + n <= |b|
    ensures Load(b, i, n) == if n == 0 then 0 else b[i] + 0x100 * Load(b, i + 1, n - 1)
  {
  }

  /** The first difference after an equal byte, z being the trailing zero bits after it. */
  lemma DiffersLater(a: seq<byte>, b: seq<byte>, i: nat, n: nat, z: nat)
    requires i + n <= |a| && i + n <= |b| && z / 8 < n - 1 && a[i] == b[i]
    requires a[i + 1..i + 1 + z / 8] == b[i + 1..i + 1 + z / 8] && a[i + 1 + z / 8] != b[i + 1 + z / 8]
    ensures var k := (8 + z) / 8; k < n && a[i..i + k] == b[i..i + k] && a[i + k] != b[i + k]
  {
    var k := z / 8;
    assert a[i..i + (k + 1)] == [a[i]] + a[i + 1..i + 1 + k];
    assert b[i..i + (k + 1)] == [b[i]] + b[i + 1..i + 1 + k];
  }

  /** The trailing zero bits of the exclusive or, one byte at a time. */
  lemma TrailingByte(a: seq<byte>, b: seq<byte>, i: nat, n: nat)
    requires i + n <= |a| && i + n <= |b| && n > 0 && Xor(Load(a, i, n), Load(b, i, n)) != 0
    ensures var z, h := Xor(Load(a, i, n), Load(b, i, n)), Xor(Load(a, i + 1, n - 1), Load(b, i + 1, n - 1));
      if a[i] == b[i] then h != 0 && TrailingZeros64(z) == 8 + TrailingZeros64(h) else TrailingZeros64(z) < 8
  {
    hide Xor, TrailingZeros64, Load;
    LoadFirst(a, i, n);
    LoadFirst(b, i, n);
    var v, w, x, y := a[i], b[i], Load(a, i + 1, n - 1), Load(b, i + 1, n - 1);
    Pow2Values();
    XorParts(v, w, x, y, 8);
    XorSmall(v, w, 8);
    if v == w {
      TrailingHigh(Xor(x, y), 8);
    } else {
      TrailingLow(Xor(v, w), Xor(x, y), 8);
    }
  }

  /** Counting the trailing zeros of the exclusive or, in bytes, finds the first difference. */
  lemma {:induction false} FirstDifference(a: seq<byte>, b: seq<byte>, i: nat, n: nat)
    requires i + n <= |a| && i + n <= |b| && Xor(Load(a, i, n), Load(b, i, n)) != 0
    ensures var k := TrailingZeros64(Xor(Load(a, i, n), Load(b, i, n))) / 8;
      k < n && a[i..i + k] == b[i..i + k] && a[i + k] != b[i + k]
    decreases n
  {
    hide Xor, TrailingZeros64, Load;
    if n == 0 {
      LoadFirst(a, i, n);
      LoadFirst(b, i, n);
      XorSmall(0, 0, 0);
    } else {
      TrailingByte(a, b, i, n);
      if a[i] == b[i] {
        FirstDifference(a, b, i + 1, n - 1);
        DiffersLater(a, b, i, n, TrailingZeros64(Xor(Load(a, i + 1, n - 1), Load(b, i + 1, n - 1))));
      } else {
        assert a[i..i + 0] == b[i..i + 0];
      }
    }
  }

  /** Equal words, equal bytes. */
  lemma {:induction false} LoadEqual(a: seq<byte>, i: nat, b: seq<byte>, j: nat, n: nat)
    requires i + n <= |a| && j + n <= |b|
    ensures Load(a, i, n) == Load(b, j, n) <==> a[i..i + n] == b[j..j + n]
    decreases n
  {
    if n > 0 {
      var x, y := Load(a, i + 1, n - 1), Load(b, j + 1, n - 1);
      LoadEqual(a, i + 1, b, j + 1, n - 1);
      assert Load(a, i, n) == a[i] + 0x100 * x && Load(b, j, n) == b[j] + 0x100 * y;
      var s, t := a[i..i + n], b[j..j + n];
      assert s == [a[i]] + a[i + 1..i + n] && t == [b[j]] + b[j + 1..j + n];
      assert s[1..] == a[i + 1..i + n] && t[1..] == b[j + 1..j + n] && s[0] == a[i] && t[0] == b[j];
    }
  }

  /** Dropping low bytes of a loaded word is loading further on. */
  lemma LoadShift(b: seq<byte>, i: nat, n: nat)
    requires 0 < n && i + n <= |b|
    ensures Load(b, i, n) / 0x100 == Load(b, i + 1, n - 1)
  {
  }

  lemma LoadFour(b: seq<byte>, i: nat)
    requires i + 4 <= |b|
    ensures Load(b, i, 4) == b[i] as nat + 0x100 * (b[i + 1] as nat) + 0x1_0000 * (b[i + 2] as nat) +
      0x100_0000 * (b[i + 3] as nat)
  {
    assert Load(b, i + 3, 1) == b[i + 3];
    assert Load(b, i + 2, 2) == b[i + 2] as nat + 0x100 * (b[i + 3] as nat);
    assert Load(b, i + 1, 3) == b[i + 1] as nat + 0x100 * (b[i + 2] as nat) + 0x1_0000 * (b[i + 3] as nat);
  }

  /** The length of the common prefix, eight bytes at a time. */
  method MatchLength(a: seq<byte>, b: seq<byte>) returns (n: nat)
    requires |a| <= |b|
    ensures n <= |a| && a[..n] == b[..n] && (n < |a| ==> a[n] != b[n])
  {
    hide Load, Xor, TrailingZeros64;
    var left := |a|;
    n := 0;
    while left >= 8
      invariant n <= |a| && n + left == |a| && a[..n] == b[..n]
    {
      var diff := Xor(Load(a, n, 8), Load(b, n, 8));
      if diff != 0 {
        FirstDifference(a, b, n, 8);
        var k := TrailingZeros64(diff) / 8;
        AgreeJoin(a, b, n, n + k);
        return n + k;
      }
      EqualWords(a, b, n);
      AgreeJoin(a, b, n, n + 8);
      n := n + 8;
      left := left - 8;
    }
    while n < |a|
      invariant n <= |a| && a[..n] == b[..n]
    {
      if a[n] != b[n] {
        break;
      }
      n := n + 1;
    }
  }

  lemma AgreeJoin(a: seq<byte>, b: seq<byte>, n: nat, m: nat)
    requires n <= m <= |a| && m <= |b| && a[..n] == b[..n] && a[n..m] == b[n..m]
    ensures a[..m] == b[..m]
  {
    assert a[..m] == a[..n] + a[n..m] && b[..m] == b[..n] + b[n..m];
  }

  lemma EqualWords(a: seq<byte>, b: seq<byte>, n: nat)
    requires n + 8 <= |a| && n + 8 <= |b| && Xor(Load(a, n, 8), Load(b, n, 8)) == 0
    ensures a[n..n + 8] == b[n..n + 8]
  {
    XorSmall(Load(a, n, 8), Load(b, n, 8), 64);
    LoadEqual(a, n, b, n, 8);
  }

  // ---------------------------------------------------------------------------------------------
  // Hashes.
  // ---------------------------------------------------------------------------------------------

  const TABLE_SIZE: nat := 0x8000
  const HASH_SIZE: nat := 0x2_0000
  const PRIME_4: nat := 2654435761
  const PRIME_5: nat := 889523592379
  const PRIME_7: nat := 58295818150454627

  /** Hash of the low five bytes, 15 bits (hashLen with mls 5). */
  function Hash5(u: nat): (h: nat)
    ensures h < TABLE_SIZE
  {
    u * 0x100_0000 % 0x1_0000_0000_0000_0000 * PRIME_5 % 0x1_0000_0000_0000_0000 / 0x2_0000_0000_0000
  }

  /** Hash of the low four bytes, 15 bits (hashLen with mls 4). */
  function Hash4(u: nat): (h: nat)
    ensures h < TABLE_SIZE
  {
    u % 0x1_0000_0000 * PRIME_4 % 0x1_0000_0000 / 0x2_0000
  }

  /** Hash of the low seven bytes, 15 bits. */
  function Hash7(u: nat): (h: nat)
    ensures h < TABLE_SIZE
  {
    u * 0x100 % 0x1_0000_0000_0000_0000 * PRIME_7 % 0x1_0000_0000_0000_0000 / 0x2_0000_0000_0000
  }

  /** Hash of a 32-bit word, 17 bits (hash4u with hashBits). */
  function Hash17(u: nat): (h: nat)
    ensures h < HASH_SIZE
  {
    u * PRIME_4 % 0x1_0000_0000 / 0x8000
  }

  /** All the hashes of a stretch, from one word that slides along it. */
  method BulkHash4(b: seq<byte>) returns (dst: seq<nat>)
    requires |b| >= 4
    ensures |dst| == |b| - 3 && forall k :: 0 <= k < |dst| ==> dst[k] == Hash17(Load(b, k, 4))
  {
    hide Hash17, Load;
    var hb := Load(b, 0, 4);
    dst := [Hash17(hb)];
    var end := |b| - 4 + 1;
    for i := 1 to end
      invariant |dst| == i && hb == Load(b, i - 1, 4)
      invariant forall k :: 0 <= k < i ==> dst[k] == Hash17(Load(b, k, 4))
    {
      Slide(b, i);
      hb := Or(hb / 0x100, (b[i + 3] as nat) * 0x100_0000);
      dst := dst + [Hash17(hb)];
    }
  }

  lemma Slide(b: seq<byte>, i: nat)
    requires 1 <= i && i + 4 <= |b|
    ensures Or(Load(b, i - 1, 4) / 0x100, (b[i + 3] as nat) * 0x100_0000) == Load(b, i, 4)
  {
    hide Or, Load;
    LoadFour(b, i - 1);
    LoadFour(b, i);
    var x := b[i] as nat + 0x100 * (b[i + 1] as nat) + 0x1_0000 * (b[i + 2] as nat);
    Pow2Add(8, 16);
    Pow2Values();
    assert Load(b, i - 1, 4) / 0x100 == x;
    assert x < Pow2(24);
    OrDisjoint(x, b[i + 3], 24);
  }
}
