/** Tokens: literals and matches packed into words, the buffer that collects them, and the
    histograms kept beside it. */
module Tokens {
  import opened Words
  import opened Canon
  import opened Lz
  import opened LzCodes
  import opened Format

  const MATCH_TYPE: nat := 0x4000_0000
  const LENGTH_UNIT: nat := 0x40_0000
  const OFFSET_UNIT: nat := 0x1_0000
  const EOB_TOKEN: nat := 256

  /** A match token: type, length less 3, distance code and distance less 1, in separate fields. */
  function MatchToken(xlength: nat, xoffset: nat): (t: nat)
    requires xlength < 256 && xoffset < 0x8000
    ensures t < 0x1_0000_0000
  {
    MATCH_TYPE + xlength * LENGTH_UNIT + OffsetCode(xoffset) * OFFSET_UNIT + xoffset
  }

  /** The length field. */
  function TokLength(t: nat): (n: nat)
    ensures n < 256
  {
    t / LENGTH_UNIT % 256
  }

  /** The distance code and distance fields. */
  function TokOffset(t: nat): (n: nat)
    ensures n < LENGTH_UNIT
  {
    t % LENGTH_UNIT
  }

  predicate IsMatch(t: nat) {
    exists xl, xo :: 0 <= xl < 256 && 0 <= xo < 0x8000 && t == MatchToken(xl, xo)
  }

  predicate ValidToken(t: nat) {
    t < 256 || IsMatch(t)
  }

  /** The fields of a match token come back. */
  lemma MatchFields(xlength: nat, xoffset: nat)
    requires xlength < 256 && xoffset < 0x8000
    ensures var t := MatchToken(xlength, xoffset);
      && t > 256 && TokLength(t) == xlength && TokOffset(t) == OffsetCode(xoffset) * OFFSET_UNIT + xoffset
      && TokOffset(t) / OFFSET_UNIT % 32 == OffsetCode(xoffset) && TokOffset(t) % OFFSET_UNIT == xoffset
  {
    var c := OffsetCode(xoffset);
    var t := MatchToken(xlength, xoffset);
    assert t == (256 + xlength) * LENGTH_UNIT + (c * OFFSET_UNIT + xoffset);
  }

  /** What a token stands for. */
  function ItemOf(t: nat): Item {
    if t < 256 then Lit(t) else Copy(TokLength(t) + MIN_MATCH, TokOffset(t) % OFFSET_UNIT + 1)
  }

  lemma MatchItem(xlength: nat, xoffset: nat)
    requires xlength < 256 && xoffset < 0x8000
    ensures ItemOf(MatchToken(xlength, xoffset)) == Copy(xlength + MIN_MATCH, xoffset + 1)
  {
    MatchFields(xlength, xoffset);
  }

  function Items(ts: seq<nat>): (xs: seq<Item>)
    ensures |xs| == |ts|
  {
    if ts == [] then [] else [ItemOf(ts[0])] + Items(ts[1..])
  }

  lemma {:induction false} ItemsConcat(a: seq<nat>, b: seq<nat>)
    ensures Items(a + b) == Items(a) + Items(b)
  {
    if a == [] {
      assert a + b == b;
    } else {
      ItemsConcat(a[1..], b);
      assert (a + b)[1..] == a[1..] + b;
    }
  }

  lemma {:induction false} ItemsAt(ts: seq<nat>, k: nat)
    requires k < |ts|
    ensures Items(ts)[k] == ItemOf(ts[k])
  {
    if k > 0 { ItemsAt(ts[1..], k - 1); }
  }

  predicate AllTokens(ts: seq<nat>) {
    forall k :: 0 <= k < |ts| ==> ValidToken(ts[k])
  }

  // ---------------------------------------------------------------------------------------------
  // What writing a token appends, for any code words.
  // ---------------------------------------------------------------------------------------------

  /** Enough code words for literals, lengths and distances, each fitting in its length. */
  predicate Tables(le: seq<nat>, oe: seq<nat>) {
    |le| >= MAX_LIT && |oe| >= MAX_DIST_CODES && GoodCodes(le) && GoodCodes(oe)
  }

  function MatchEmit(le: seq<nat>, oe: seq<nat>, xlength: nat, xoffset: nat): seq<bool>
    requires Tables(le, oe) && xlength < 256 && xoffset < 0x8000
  {
    var lc, oc := LengthCode(xlength), OffsetCode(xoffset);
    OffsetRange(xoffset);
    CodeEmit(le[FIRST_LENGTH + lc]) + BitsOf(xlength - LengthBase(lc), LengthExtra(lc))
    + CodeEmit(oe[oc]) + BitsOf(xoffset - OffsetBase(oc), OffsetExtra(oc))
  }

  /** The bits of one token, field by field. */
  function TokenEmit(le: seq<nat>, oe: seq<nat>, t: nat): seq<bool>
    requires Tables(le, oe) && ValidToken(t)
  {
    if t < 256 then CodeEmit(le[t])
    else
      IsMatchFields(t);
      MatchEmit(le, oe, TokLength(t), TokOffset(t) % OFFSET_UNIT)
  }

  lemma IsMatchFields(t: nat)
    requires IsMatch(t)
    ensures t > 256 && TokOffset(t) % OFFSET_UNIT < 0x8000
    ensures TokOffset(t) / OFFSET_UNIT % 32 == OffsetCode(TokOffset(t) % OFFSET_UNIT)
    ensures TokOffset(t) == OffsetCode(TokOffset(t) % OFFSET_UNIT) * OFFSET_UNIT + TokOffset(t) % OFFSET_UNIT
  {
    var xl, xo :| 0 <= xl < 256 && 0 <= xo < 0x8000 && t == MatchToken(xl, xo);
    MatchFields(xl, xo);
  }

  function TokensEmit(le: seq<nat>, oe: seq<nat>, ts: seq<nat>): seq<bool>
    requires Tables(le, oe) && AllTokens(ts)
  {
    if ts == [] then [] else TokensEmit(le, oe, ts[..|ts| - 1]) + TokenEmit(le, oe, ts[|ts| - 1])
  }

  /** The code words that are there are the canonical ones. The fixed codes have symbols without. */
  predicate Agree(lens: seq<nat>, codes: seq<nat>) {
    forall s :: 0 <= s < |lens| && s < |codes| ==> codes[s] == CanonHCode(lens, s)
  }

  /** With canonical code words, a token writes its item as the format prescribes. */
  lemma TokenIsItem(le: seq<nat>, oe: seq<nat>, lit: seq<nat>, off: seq<nat>, t: nat)
    requires Tables(le, oe) && ValidToken(t) && Fits(lit) && Fits(off)
    requires Agree(lit, le) && Agree(off, oe) && Covers(lit, off, ItemOf(t))
    ensures TokenEmit(le, oe, t) == ItemBits(lit, off, ItemOf(t))
  {
    hide CodeEmit, SymBits, BitsOf, Fits, GoodCodes, LengthCode, OffsetCode, LengthBase, OffsetBase, CanonHCode;
    if t < 256 {
      CanonEmits(lit, t);
    } else {
      IsMatchFields(t);
      var xl, xo := TokLength(t), TokOffset(t) % OFFSET_UNIT;
      CanonEmits(lit, FIRST_LENGTH + LengthCode(xl));
      CanonEmits(off, OffsetCode(xo));
      assert MatchEmit(le, oe, xl, xo) == LengthBits(lit, xl + MIN_MATCH) + DistBits(off, xo + 1);
    }
  }

  lemma {:induction false} TokensAreItems(le: seq<nat>, oe: seq<nat>, lit: seq<nat>, off: seq<nat>, ts: seq<nat>)
    requires Tables(le, oe) && AllTokens(ts) && Fits(lit) && Fits(off)
    requires Agree(lit, le) && Agree(off, oe) && CoversAll(lit, off, Items(ts))
    ensures TokensEmit(le, oe, ts) == ItemsBits(lit, off, Items(ts))
  {
    hide TokenEmit, ItemBits, Fits, Agree, Covers, Tables, ItemOf;
    if ts != [] {
      var i, t := ts[..|ts| - 1], ts[|ts| - 1];
      assert ts == i + [t];
      ItemsConcat(i, [t]);
      assert Items([t]) == [ItemOf(t)] by { ItemsOne(t); }
      assert CoversAll(lit, off, Items(i)) by {
        assert forall k :: 0 <= k < |i| ==> Items(ts)[k] == Items(i)[k];
      }
      assert Items(ts)[|i|] == ItemOf(t);
      TokensAreItems(le, oe, lit, off, i);
      TokenIsItem(le, oe, lit, off, t);
      ItemsBitsConcat(lit, off, Items(i), [ItemOf(t)]);
      ItemsBitsOne(lit, off, ItemOf(t));
    }
  }

  lemma ItemsOne(t: nat)
    ensures Items([t]) == [ItemOf(t)]
  {
    assert [t][1..] == [];
  }

  lemma ItemsBitsOne(lit: seq<nat>, off: seq<nat>, x: Item)
    requires Covers(lit, off, x)
    ensures ItemsBits(lit, off, [x]) == ItemBits(lit, off, x)
  {
    assert [x][1..] == [];
    assert ItemBits(lit, off, x) + [] == ItemBits(lit, off, x);
  }
}
