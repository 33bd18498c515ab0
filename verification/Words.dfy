/** Machine words as natural numbers: powers of two, shifts, masks, bitwise OR, bit reversal,
    and the bit sequence (least significant bit first) that a word stands for. */
module Words {

  type byte = x: int | 0 <= x < 256

  function Pow2(n: nat): (p: nat)
    ensures p >= 1
  {
    if n == 0 then 1 else 2 * Pow2(n - 1)
  }

  lemma {:induction false} Pow2Add(m: nat, n: nat)
    ensures Pow2(m + n) == Pow2(m) * Pow2(n)
  {
    if m == 0 {
    } else {
      Pow2Add(m - 1, n);
      assert Pow2(m + n) == 2 * Pow2(m - 1 + n);
    }
  }

  lemma {:induction false} Pow2Mono(m: nat, n: nat)
    requires m <= n
    ensures Pow2(m) <= Pow2(n)
  {
    if m < n { Pow2Mono(m, n - 1); }
  }

  lemma Pow2Values()
    ensures Pow2(4) == 16 && Pow2(8) == 0x100 && Pow2(16) == 0x1_0000 && Pow2(32) == 0x1_0000_0000
  {
    assert Pow2(4) == 16;
    Pow2Add(4, 4);
    Pow2Add(8, 8);
    Pow2Add(16, 16);
  }

  lemma Assoc<T>(a: seq<T>, b: seq<T>, c: seq<T>)
    ensures a + b + c == a + (b + c)
  {
  }

  lemma Cut<T>(x: seq<T>, y: seq<T>)
    ensures (x + y)[..|x|] == x && (x + y)[|x|..] == y
  {
  }

  lemma Slices<T>(s: seq<T>, i: nat, j: nat)
    requires i + j <= |s|
    ensures s[i..i + j] == s[i..][..j] && s[i + j..] == s[i..][j..]
  {
  }

  lemma DivUnique(x: int, q: int, r: int, p: int)
    requires p > 0 && x == q * p + r && 0 <= r < p
    ensures x / p == q && x % p == r
  {
    var q' := x / p;
    assert (q - q') * p == x % p - r;
    MulGap(q - q', p);
  }

  lemma MulGap(d: int, p: int)
    requires p > 0
    ensures d >= 1 ==> d * p >= p
    ensures d <= -1 ==> d * p <= -p
  {
  }

  /** Division as the quotient that brackets. */
  lemma DivBracket(d: nat, u: nat, c: nat)
    requires u > 0
    ensures d / u * u <= d < d / u * u + u
    ensures d < c * u <==> d / u < c
  {
    var q := d / u;
    MulLess(q, c, u);
    MulLess(c, q + 1, u);
  }

  lemma MulLess(a: int, b: int, u: int)
    requires u > 0
    ensures a * u < b * u <==> a < b
    ensures a < b ==> a * u + u <= b * u
  {
    assert b * u - a * u == (b - a) * u;
    MulGap(b - a, u);
  }

  lemma MulNonNegative(a: nat, b: nat)
    ensures a * b >= 0
  {
  }

  lemma MulAdd(a: int, b: int, u: int)
    ensures (a + b) * u == a * u + b * u
    ensures 2 * a * u == a * (2 * u) == 2 * (a * u)
  {
  }

  /** Right shift, one bit at a time. */
  function Shr(x: nat, n: nat): (y: nat)
    ensures y <= x
  {
    if n == 0 then x else Shr(x / 2, n - 1)
  }

  /** The low n bits of a word. */
  function Low(x: nat, n: nat): (y: nat)
    ensures y <= x && y < Pow2(n)
  {
    if n == 0 then 0 else x % 2 + 2 * Low(x / 2, n - 1)
  }

  lemma {:induction false} LowAndShr(x: nat, n: nat)
    ensures x == Low(x, n) + Shr(x, n) * Pow2(n)
  {
    if n > 0 {
      LowAndShr(x / 2, n - 1);
      HalfProduct(Shr(x, n), Pow2(n - 1));
    }
  }

  lemma HalfProduct(q: nat, p: nat)
    ensures q * (2 * p) == 2 * (q * p)
  {
  }

  /** A right shift is a division and a mask is a remainder. */
  lemma {:induction false} ShiftIsDivision(x: nat, n: nat)
    ensures x == Low(x, n) + Shr(x, n) * Pow2(n)
    ensures Shr(x, n) == x / Pow2(n) && Low(x, n) == x % Pow2(n)
  {
    LowAndShr(x, n);
    DivUnique(x, Shr(x, n), Low(x, n), Pow2(n));
  }

  lemma {:induction false} ShrShr(x: nat, m: nat, n: nat)
    ensures Shr(Shr(x, m), n) == Shr(x, m + n)
  {
    if m > 0 { ShrShr(x / 2, m - 1, n); }
  }

  lemma {:induction false} LowSmall(x: nat, n: nat)
    requires x < Pow2(n)
    ensures Low(x, n) == x && Shr(x, n) == 0
  {
    if n > 0 { LowSmall(x / 2, n - 1); }
  }

  lemma {:induction false} ShrBound(x: nat, m: nat, n: nat)
    requires x < Pow2(m + n)
    ensures Shr(x, m) < Pow2(n)
  {
    if m > 0 { ShrBound(x / 2, m - 1, n); }
  }

  /** The low n bits of x, least significant first. */
  function BitsOf(x: nat, n: nat): (s: seq<bool>)
    ensures |s| == n
  {
    if n == 0 then [] else [x % 2 == 1] + BitsOf(x / 2, n - 1)
  }

  /** The number that a bit sequence stands for. */
  function ValueOf(s: seq<bool>): (x: nat)
    ensures x < Pow2(|s|)
  {
    if s == [] then 0 else (if s[0] then 1 else 0) + 2 * ValueOf(s[1..])
  }

  lemma {:induction false} ValueOfBitsOf(x: nat, n: nat)
    ensures ValueOf(BitsOf(x, n)) == Low(x, n)
  {
    if n > 0 {
      ValueOfBitsOf(x / 2, n - 1);
      assert BitsOf(x, n)[1..] == BitsOf(x / 2, n - 1);
    }
  }

  lemma {:induction false} BitsOfValueOf(s: seq<bool>)
    ensures BitsOf(ValueOf(s), |s|) == s
  {
    if s != [] { BitsOfValueOf(s[1..]); }
  }

  /** The bits of a word split at any position. */
  lemma {:induction false} BitsOfSplit(x: nat, n: nat, m: nat)
    ensures BitsOf(x, n + m) == BitsOf(x, n) + BitsOf(Shr(x, n), m)
  {
    if n > 0 {
      BitsOfSplit(x / 2, n - 1, m);
      assert BitsOf(x, n + m) == [x % 2 == 1] + BitsOf(x / 2, n - 1 + m);
    }
  }

  /** Only the low n bits matter. */
  lemma {:induction false} BitsOfLow(x: nat, n: nat)
    ensures BitsOf(Low(x, n), n) == BitsOf(x, n)
  {
    if n > 0 { BitsOfLow(x / 2, n - 1); }
  }

  lemma {:induction false} BitsOfEqual(x: nat, y: nat, n: nat)
    requires BitsOf(x, n) == BitsOf(y, n)
    ensures Low(x, n) == Low(y, n)
  {
    ValueOfBitsOf(x, n);
    ValueOfBitsOf(y, n);
  }

  /** Joining two words: the low one keeps its place, the high one moves up n bits. */
  lemma {:induction false} Join(x: nat, n: nat, y: nat)
    requires x < Pow2(n)
    ensures Low(x + y * Pow2(n), n) == x && Shr(x + y * Pow2(n), n) == y
  {
    if n > 0 {
      var z, h := y * Pow2(n - 1), x / 2;
      MulAdd(y, 0, Pow2(n - 1));
      Join(h, n - 1, y);
      JoinHalf(x, z);
    }
  }

  lemma JoinHalf(x: nat, z: nat)
    ensures (x + 2 * z) / 2 == x / 2 + z && (x + 2 * z) % 2 == x % 2
  {
  }

  lemma BitsOfJoin(x: nat, n: nat, y: nat, m: nat)
    requires x < Pow2(n)
    ensures BitsOf(x + y * Pow2(n), n + m) == BitsOf(x, n) + BitsOf(y, m)
  {
    Join(x, n, y);
    BitsOfSplit(x + y * Pow2(n), n, m);
    BitsOfLow(x + y * Pow2(n), n);
  }

  /** Bitwise OR of unsigned words. */
  function Or(x: nat, y: nat): nat
    decreases x + y
  {
    if x == 0 then y else if y == 0 then x
    else (if x % 2 == 1 || y % 2 == 1 then 1 else 0) + 2 * Or(x / 2, y / 2)
  }

  /** Bitwise AND of unsigned words. */
  function And(x: nat, y: nat): nat
    decreases x + y
  {
    if x == 0 || y == 0 then 0
    else (if x % 2 == 1 && y % 2 == 1 then 1 else 0) + 2 * And(x / 2, y / 2)
  }

  /** Masking with n ones keeps the low n bits. */
  lemma {:induction false} AndMask(x: nat, n: nat)
    ensures And(x, Pow2(n) - 1) == Low(x, n)
  {
    if n > 0 && x > 0 {
      AndMask(x / 2, n - 1);
      assert (Pow2(n) - 1) / 2 == Pow2(n - 1) - 1;
    } else if x == 0 {
      LowSmall(0, n);
    }
  }

  lemma {:induction false} LowLow(x: nat, m: nat, n: nat)
    requires n <= m
    ensures Low(Low(x, m), n) == Low(x, n)
  {
    if n > 0 { LowLow(x / 2, m - 1, n - 1); }
  }

  lemma {:induction false} ShrLow(x: nat, m: nat, n: nat)
    requires n <= m
    ensures Shr(Low(x, m), n) == Low(Shr(x, n), m - n)
  {
    if n > 0 { ShrLow(x / 2, m - 1, n - 1); }
  }

  /** A word is its low bits and the rest. */
  lemma {:induction false} WordParts(x: nat, y: nat, n: nat)
    ensures x == y <==> Low(x, n) == Low(y, n) && Shr(x, n) == Shr(y, n)
  {
    if n > 0 { WordParts(x / 2, y / 2, n - 1); }
  }

  /** Two words with the same low n bits are at least 2^n apart. */
  lemma LowGap(x: nat, y: nat, n: nat)
    requires Low(x, n) == Low(y, n) && x < y
    ensures x + Pow2(n) <= y
  {
    ShiftIsDivision(x, n);
    ShiftIsDivision(y, n);
    MulLess(Shr(x, n), Shr(y, n), Pow2(n));
  }

  lemma LowAdd(x: nat, n: nat)
    ensures Low(x + Pow2(n), n) == Low(x, n)
  {
    ShiftIsDivision(x, n);
    MulAdd(Shr(x, n), 1, Pow2(n));
    Join(Low(x, n), n, Shr(x, n) + 1);
  }

  /** A 64-bit left shift drops what leaves the word. */
  function Shl64(x: nat, n: nat): nat {
    Low(x * Pow2(n), 64)
  }

  lemma {:induction false} OrDisjoint(x: nat, y: nat, n: nat)
    requires x < Pow2(n)
    ensures Or(x, y * Pow2(n)) == x + y * Pow2(n)
  {
    if x == 0 || y == 0 {
    } else {
      var z := y * Pow2(n - 1);
      assert y * Pow2(n) == 2 * z;
      assert z > 0;
      OrDisjoint(x / 2, y, n - 1);
    }
  }

  lemma MulBound(x: nat, a: nat, b: nat)
    requires x < a
    ensures x * b + b <= a * b
  {
    if b > 0 { MulLess(x, a, b); }
  }

  /** A shift that stays inside a word of w bits loses nothing. */
  lemma ShiftInside(c: nat, n: nat, m: nat, w: nat)
    requires c < Pow2(m) && n + m <= w
    ensures c * Pow2(n) < Pow2(n + m) <= Pow2(w)
    ensures Low(c * Pow2(n), w) == c * Pow2(n)
  {
    MulBound(c, Pow2(m), Pow2(n));
    Pow2Add(m, n);
    Pow2Mono(n + m, w);
    LowSmall(c * Pow2(n), w);
  }

  /** Placing a code of m bits above n occupied bits of the accumulator. */
  lemma AppendBits(x: nat, n: nat, c: nat, m: nat)
    requires x < Pow2(n) && c < Pow2(m) && n + m <= 64
    ensures Or(x, Shl64(c, n)) == x + c * Pow2(n)
    ensures x + c * Pow2(n) < Pow2(n + m)
    ensures BitsOf(x + c * Pow2(n), n + m) == BitsOf(x, n) + BitsOf(c, m)
  {
    ShiftInside(c, n, m, 64);
    OrDisjoint(x, c, n);
    BitsOfJoin(x, n, c, m);
    MulBound(c, Pow2(m), Pow2(n));
    Pow2Add(m, n);
  }

  function ZeroBytes(n: nat): (s: seq<byte>)
    ensures |s| == n
  {
    seq(n, _ => 0)
  }
}
