/** Length and distance codes of section 3.2.5 of RFC 1951, as the encoder's tables hold them. */
module LzCodes {
  import opened Words

  /** Length code of a match length less 3 (lengthCodes). */
  function LengthCode(x: nat): (c: nat)
    requires x < 256
    ensures c <= 28
    ensures LengthBase(c) <= x < LengthBase(c) + Pow2(LengthExtra(c))
  {
    Pow2Small();
    if x < 8 then x
    else if x < 10 then 8 else if x < 12 then 9 else if x < 14 then 10 else if x < 16 then 11
    else if x < 20 then 12 else if x < 24 then 13 else if x < 28 then 14 else if x < 32 then 15
    else if x < 40 then 16 else if x < 48 then 17 else if x < 56 then 18 else if x < 64 then 19
    else if x < 80 then 20 else if x < 96 then 21 else if x < 112 then 22 else if x < 128 then 23
    else if x < 160 then 24 else if x < 192 then 25 else if x < 224 then 26 else if x < 255 then 27
    else 28
  }

  /** Smallest length less 3 of a length code (lengthBase, decCodeToLen). */
  function LengthBase(c: nat): (b: nat)
    requires c <= 28
    ensures b <= 255
  {
    if c < 8 then c
    else if c == 28 then 255
    else if c < 12 then 8 + 2 * (c - 8)
    else if c < 16 then 16 + 4 * (c - 12)
    else if c < 20 then 32 + 8 * (c - 16)
    else if c < 24 then 64 + 16 * (c - 20)
    else 128 + 32 * (c - 24)
  }

  /** Extra bits of a length code (lengthExtraBits, decCodeToLen). */
  function LengthExtra(c: nat): (n: nat)
    requires c <= 28
    ensures n <= 5
  {
    if c < 8 || c == 28 then 0 else (c - 4) / 4
  }

  lemma Pow2Small()
    ensures Pow2(0) == 1 && Pow2(1) == 2 && Pow2(2) == 4 && Pow2(3) == 8 && Pow2(4) == 16 && Pow2(5) == 32
    ensures Pow2(6) == 64 && Pow2(7) == 128
  {
    assert Pow2(1) == 2 * Pow2(0);
    assert Pow2(4) == 2 * Pow2(3);
    assert Pow2(7) == 2 * Pow2(6);
  }

  lemma Pow2Large()
    ensures Pow2(8) == 256 && Pow2(9) == 512 && Pow2(10) == 1024 && Pow2(11) == 2048
    ensures Pow2(12) == 4096 && Pow2(13) == 8192
  {
    Pow2Small();
    assert Pow2(8) == 2 * Pow2(7);
    assert Pow2(9) == 2 * Pow2(8);
    assert Pow2(10) == 2 * Pow2(9);
    assert Pow2(11) == 2 * Pow2(10);
    assert Pow2(12) == 2 * Pow2(11);
    assert Pow2(13) == 2 * Pow2(12);
  }

  /** Code of a distance less 1 below 256 (offsetCodes). */
  function SmallOffsetCode(x: nat): (c: nat)
    requires x < 256
    ensures c <= 15
  {
    if x < 4 then x
    else if x < 6 then 4 else if x < 8 then 5
    else if x < 12 then 6 else if x < 16 then 7
    else if x < 24 then 8 else if x < 32 then 9
    else if x < 48 then 10 else if x < 64 then 11
    else if x < 96 then 12 else if x < 128 then 13
    else if x < 192 then 14 else 15
  }

  /** Code of a distance less 1 (offsetCode). */
  function OffsetCode(x: nat): (c: nat)
    requires x < 0x8000
    ensures c <= 29
  {
    if x < 256 then SmallOffsetCode(x) else SmallOffsetCode(x / 128 % 256) + 14
  }

  /** Extra bits of a distance code (offsetExtraBits). */
  function OffsetExtra(c: nat): (n: nat)
    requires c <= 29
    ensures n <= 13
  {
    if c < 4 then 0 else (c - 2) / 2
  }

  /** Smallest distance less 1 of a distance code (offsetBase). */
  function OffsetBase(c: nat): nat
    requires c <= 29
  {
    if c < 4 then c else (2 + c % 2) * Pow2(OffsetExtra(c))
  }

  lemma SmallOffsetRange(x: nat)
    requires x < 256
    ensures var c := SmallOffsetCode(x); OffsetBase(c) <= x < OffsetBase(c) + Pow2(OffsetExtra(c))
  {
    Pow2Small();
  }

  /** Codes above 15 repeat the pattern of the small ones, 128 times as wide. */
  lemma WideOffset(c: nat)
    requires 2 <= c <= 15
    ensures OffsetBase(c + 14) == 128 * OffsetBase(c) || c < 4
    ensures c >= 4 ==> Pow2(OffsetExtra(c + 14)) == 128 * Pow2(OffsetExtra(c))
    ensures c < 4 ==> OffsetBase(c + 14) == 128 * c && Pow2(OffsetExtra(c + 14)) == 128
  {
    Pow2Small();
    if c >= 4 {
      Pow2Add(7, OffsetExtra(c));
      assert OffsetExtra(c + 14) == 7 + OffsetExtra(c);
      MulAdd(2 + c % 2, 0, Pow2(OffsetExtra(c)));
      WideProduct(2 + c % 2, Pow2(OffsetExtra(c)));
    }
  }

  lemma WideProduct(a: nat, p: nat)
    ensures a * (128 * p) == 128 * (a * p)
  {
  }

  /** A distance lies in the range of its code. */
  lemma OffsetRange(x: nat)
    requires x < 0x8000
    ensures var c := OffsetCode(x); OffsetBase(c) <= x < OffsetBase(c) + Pow2(OffsetExtra(c))
  {
    if x < 256 {
      SmallOffsetRange(x);
    } else {
      var y := x / 128;
      assert y % 256 == y && y >= 2;
      SmallOffsetRange(y);
      var c := SmallOffsetCode(y);
      WideOffset(c);
    }
  }

  // ---------------------------------------------------------------------------------------------
  // The codes in order: each begins where the one before it ends (the tables of section 3.2.5).
  // ---------------------------------------------------------------------------------------------

  /** Lengths from 0 on, less 3: eight codes without extra bits, then four for each of 1 to 5. */
  lemma LengthTiling(c: nat)
    requires c < 28
    ensures LengthBase(0) == 0 && LengthExtra(c) == if c < 8 then 0 else 1 + (c - 8) / 4
    ensures c < 27 ==> LengthBase(c + 1) == LengthBase(c) + Pow2(LengthExtra(c))
  {
    Pow2Small();
  }

  /** The longest length stands alone, at what would be the end of the range before it. */
  lemma LengthLast()
    ensures LengthExtra(28) == 0 && LengthBase(28) == 255 == LengthBase(27) + Pow2(LengthExtra(27)) - 1
    ensures forall x: nat :: x < 256 ==> (LengthCode(x) == 28 <==> x == 255)
  {
    Pow2Small();
  }

  /** A later code begins after an earlier one ends. */
  lemma {:induction false} LengthsApart(c: nat, d: nat)
    requires c < d <= 27
    ensures LengthBase(c) + Pow2(LengthExtra(c)) <= LengthBase(d)
  {
    LengthTiling(d - 1);
    if c < d - 1 { LengthsApart(c, d - 1); }
  }

  /** So the code of a length is the one that its range names, and longer lengths have later codes. */
  lemma LengthCodeIs(x: nat, c: nat)
    requires x < 255 && c < 28
    ensures LengthCode(x) == c <==> LengthBase(c) <= x < LengthBase(c) + Pow2(LengthExtra(c))
  {
    hide LengthBase, LengthExtra, Pow2;
    var d := LengthCode(x);
    LengthLast();
    if d < c { LengthsApart(d, c); }
    if c < d { LengthsApart(c, d); }
  }

  lemma LengthOrder(x: nat, y: nat)
    requires x <= y < 256
    ensures LengthCode(x) <= LengthCode(y)
  {
    hide LengthBase, LengthExtra, Pow2, LengthCode;
    LengthLast();
    var c, d := LengthCode(x), LengthCode(y);
    if d < c && y < 255 { LengthsApart(d, c); }
  }

  /** Distances from 0 on, less 1: four codes without extra bits, then two for each of 1 to 13. */
  lemma OffsetTiling(c: nat)
    requires c <= 29
    ensures OffsetBase(0) == 0 && OffsetExtra(c) == if c < 4 then 0 else 1 + (c - 4) / 2
    ensures c < 29 ==> OffsetBase(c + 1) == OffsetBase(c) + Pow2(OffsetExtra(c))
    ensures OffsetBase(29) + Pow2(OffsetExtra(29)) == 0x8000
  {
    Pow2Small();
    Pow2Large();
    if 4 <= c < 29 {
      var p := Pow2(OffsetExtra(c));
      if c % 2 == 0 {
        assert OffsetExtra(c + 1) == OffsetExtra(c);
        MulAdd(2, 1, p);
      } else {
        assert OffsetExtra(c + 1) == OffsetExtra(c) + 1;
        MulAdd(3, 1, p);
      }
    }
  }

  lemma {:induction false} OffsetsApart(c: nat, d: nat)
    requires c < d <= 29
    ensures OffsetBase(c) + Pow2(OffsetExtra(c)) <= OffsetBase(d)
  {
    hide OffsetBase, OffsetExtra, Pow2;
    OffsetTiling(d - 1);
    if c < d - 1 { OffsetsApart(c, d - 1); }
  }

  /** The code of a distance is the one that its range names, and longer distances have later codes. */
  lemma OffsetCodeIs(x: nat, c: nat)
    requires x < 0x8000 && c <= 29
    ensures OffsetCode(x) == c <==> OffsetBase(c) <= x < OffsetBase(c) + Pow2(OffsetExtra(c))
  {
    hide OffsetBase, OffsetExtra, Pow2, OffsetCode;
    OffsetRange(x);
    var d := OffsetCode(x);
    if d < c { OffsetsApart(d, c); }
    if c < d { OffsetsApart(c, d); }
  }

  lemma OffsetOrder(x: nat, y: nat)
    requires x <= y < 0x8000
    ensures OffsetCode(x) <= OffsetCode(y)
  {
    hide OffsetBase, OffsetExtra, Pow2, OffsetCode;
    OffsetRange(x);
    OffsetRange(y);
    var c, d := OffsetCode(x), OffsetCode(y);
    if d < c { OffsetsApart(d, c); }
  }
}
