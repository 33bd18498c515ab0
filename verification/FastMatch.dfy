/** What the fast match finders share: the test made of a candidate, and the tokens of a match. */
module FastMatch {
  import opened Words
  import opened Lz
  import opened Tokens
  import opened TokenBuffer
  import opened MatchLen
  import opened Covering
  import opened FastGen
  import opened FastLog

  /** The low five bytes of cv are those at s. */
  predicate Loaded(h: seq<byte>, s: nat, cv: nat) {
    s + 5 <= |h| && cv % 0x100_0000_0000 == Load(h, s, 5)
  }

  lemma LoadedWord(h: seq<byte>, s: nat)
    requires s + 8 <= |h|
    ensures Loaded(h, s, Load(h, s, 8))
    ensures Loaded(h, s + 1, Load(h, s, 8) / 0x100)
    ensures Loaded(h, s + 2, Load(h, s, 8) / 0x1_0000)
    ensures Loaded(h, s + 3, Load(h, s, 8) / 0x1_0000 / 0x100)
  {
    hide Load;
    LoadFive(h, s, 8);
    LoadShift(h, s, 8);
    LoadFive(h, s + 1, 7);
    LoadShift(h, s + 1, 7);
    LoadFive(h, s + 2, 6);
    LoadShift(h, s + 2, 6);
    LoadFive(h, s + 3, 5);
    var x := Load(h, s, 8);
    assert x / 0x100 / 0x100 == x / 0x1_0000;
  }

  /** The low five bytes of a loaded word, and the low four of these. */
  lemma LoadFive(b: seq<byte>, i: nat, n: nat)
    requires 5 <= n && i + n <= |b|
    ensures Load(b, i, n) % 0x100_0000_0000 == Load(b, i, 5)
    ensures Load(b, i, 5) % 0x1_0000_0000 == Load(b, i, 4)
  {
    hide Load;
    Pow2Widths();
    LoadLowBytes(b, i, n, 5);
    LoadLowBytes(b, i, 5, 4);
  }

  lemma LoadedLow(h: seq<byte>, s: nat, cv: nat)
    requires Loaded(h, s, cv)
    ensures cv % 0x1_0000_0000 == Load(h, s, 4)
  {
    hide Load;
    LoadFive(h, s, 5);
    assert cv % 0x100_0000_0000 % 0x1_0000_0000 == cv % 0x1_0000_0000;
  }

  /** The hash of a word is the key of the five bytes that it starts with, in the history as in all data. */
  lemma LoadedKey(h: seq<byte>, s: nat, cv: nat, d: seq<byte>, base: nat)
    requires Loaded(h, s, cv) && base + |h| == |d| && h == d[base..]
    ensures Hash5(cv) == Key(Five, d, base + s) == Key(Five, h, s)
  {
    hide Load, Hash5;
    Pow2Widths();
    HashLow(Five, cv);
    SameKey(Five, h, s, d, base);
  }

  lemma LoadedInside(h: seq<byte>, s: nat, cv: nat)
    requires Loaded(h, s, cv)
    ensures s + 5 <= |h|
  {
  }

  /** A candidate in reach that agrees in four bytes. */
  lemma Found(h: seq<byte>, s: nat, t: int, cv: nat)
    requires Loaded(h, s, cv) && 0 <= t < s <= t + MAX_OFFSET
    ensures cv % 0x1_0000_0000 == Load(h, t, 4) <==> Match(h, s, t, 4)
    ensures cv % 0x1_0000_0000 == Load(h, t, 4) <==> h[s..s + 4] == h[t..t + 4]
  {
    LoadedLow(h, s, cv);
    LoadEqual(h, s, h, t, 4);
  }

  /** The test made of a candidate: near enough, and four bytes agree. */
  predicate Agrees(h: seq<byte>, cur: int, s: nat, cv: nat, v: int)
    requires Harmless(v, cur, s) && Loaded(h, s, cv)
    ensures Agrees(h, cur, s, cv, v) <==> Near(h, s, v - cur, MAX_OFFSET - 1)
    ensures Agrees(h, cur, s, cv, v) ==> 0 <= v - cur && Match(h, s, v - cur, 4)
  {
    && s - (v - cur) < MAX_OFFSET
    && (PassesTest(v, cur, s);
        Found(h, s, v - cur, cv);
        cv % 0x1_0000_0000 == Load(h, v - cur, 4))
  }

  /** The test made after a match, which admits the largest distance as well. */
  predicate AgreesAfter(h: seq<byte>, cur: int, s: nat, cv: nat, v: int)
    requires Harmless(v, cur, s) && Loaded(h, s, cv) && s > 0
    ensures AgreesAfter(h, cur, s, cv, v) <==> Near(h, s, v - cur, MAX_OFFSET)
    ensures AgreesAfter(h, cur, s, cv, v) ==> 0 <= v - cur && Match(h, s, v - cur, 4)
  {
    && s - (v - cur) <= MAX_OFFSET
    && (PassesTest(v, cur, s);
        Found(h, s, v - cur, cv);
        cv % 0x1_0000_0000 == Load(h, v - cur, 4))
  }

  /** From position from on there are only zeros. */
  predicate ZerosFrom(h: seq<byte>, from: nat) {
    forall k :: from <= k < |h| ==> h[k] == 0
  }

  lemma {:induction false} ZeroWord(h: seq<byte>, from: nat, i: nat, n: nat)
    requires ZerosFrom(h, from) && from <= i && i + n <= |h|
    ensures Load(h, i, n) == 0
    decreases n
  {
    if n > 0 { ZeroWord(h, from, i + 1, n - 1); }
  }

  /** The tokens of one match: the literals in front of it and the match, as long as it can be in both directions. */
  function MatchTokens(h: seq<byte>, emit: nat, s: nat, t: nat, n: nat): seq<nat>
    requires emit <= s <= |h| && t < s <= t + MAX_OFFSET && n >= MIN_MATCH
  {
    var b := Back(h, s, t, emit);
    Plain(h[emit..s - b]) + LongTokens(n + b, s - t - 1)
  }

  lemma MatchTokensAny(h: seq<byte>, emit: nat, s: nat, t: nat, n: nat)
    requires emit <= s <= |h| && t < s <= t + MAX_OFFSET && n >= MIN_MATCH
    ensures MatchTokens(h, emit, s, t, n) != []
  {
    NonEmpty(n + Back(h, s, t, emit), s - t - 1);
  }

  function LongestTokens(h: seq<byte>, emit: nat, s: nat, t: nat): seq<nat>
    requires emit <= s && Near(h, s, t, MAX_OFFSET)
  {
    MatchTokens(h, emit, s, t, 4 + Common(h, s + 4, t + 4))
  }

  lemma TokensAre(h: seq<byte>, emit: nat, s0: nat, t0: nat, n: nat, s: nat)
    requires emit <= s0 <= |h| && t0 < s0 <= t0 + MAX_OFFSET && n >= MIN_MATCH && s == s0 - Back(h, s0, t0, emit)
    ensures emit <= s <= s0
    ensures MatchTokens(h, emit, s0, t0, n) == Plain(h[emit..s]) + LongTokens(n + (s0 - s), s0 - t0 - 1)
  {
  }

  lemma NearMatch(h: seq<byte>, s: nat, t: nat)
    requires Near(h, s, t, MAX_OFFSET)
    ensures Match(h, s, t, 4) && s + 4 <= |h| && t < s
  {
  }
}
