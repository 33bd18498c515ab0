/** Tokens that stand for a stretch of a byte string, and how a match finder extends them. */
module Covering {
  import opened Words
  import opened Lz
  import opened Tokens
  import opened TokenBuffer
  import opened MatchLen

  /** The tokens, expanded after h[..from], give h[..to]. */
  predicate Covered(h: seq<byte>, from: nat, ts: seq<nat>, to: nat) {
    && from <= to <= |h| && |ts| <= to - from && AllTokens(ts)
    && AllValid(h[..from], Items(ts)) && Expand(h[..from], Items(ts)) == h[..to]
  }

  /** l bytes at s repeat the bytes at t, within reach. */
  predicate Match(h: seq<byte>, s: nat, t: nat, l: nat) {
    && t < s <= t + MAX_DIST && s + l <= |h| && h[s..s + l] == h[t..t + l]
  }

  lemma CoveredNone(h: seq<byte>, from: nat)
    requires from <= |h|
    ensures Covered(h, from, [], from)
  {
  }

  lemma CoveredLonger(h: seq<byte>, h': seq<byte>, from: nat, ts: seq<nat>, to: nat)
    requires Covered(h, from, ts, to) && h <= h'
    ensures Covered(h', from, ts, to)
  {
    hide AllValid, Expand, Items, AllTokens;
    assert h'[..from] == h[..from] && h'[..to] == h[..to];
  }

  /** What was there before makes no difference. */
  lemma CoveredAfter(p: seq<byte>, h: seq<byte>, from: nat, ts: seq<nat>, to: nat)
    requires Covered(h, from, ts, to)
    ensures Covered(p + h, |p| + from, ts, |p| + to)
  {
    hide AllValid, Expand, Items, AllTokens;
    ExpandFrame(p, h[..from], Items(ts));
    assert (p + h)[..|p| + from] == p + h[..from] && (p + h)[..|p| + to] == p + h[..to];
  }

  lemma CoveredAdd(h: seq<byte>, from: nat, ts: seq<nat>, to: nat, more: seq<nat>, next: nat)
    requires Covered(h, from, ts, to) && to <= next <= |h| && |more| <= next - to && AllTokens(more)
    requires AllValid(h[..to], Items(more)) && Expand(h[..to], Items(more)) == h[..next]
    ensures Covered(h, from, ts + more, next)
  {
    hide AllValid, Expand, Items;
    ItemsConcat(ts, more);
    ExpandConcat(h[..from], Items(ts), Items(more));
  }

  /** Literal tokens for what comes next. */
  lemma CoveredPlain(h: seq<byte>, from: nat, ts: seq<nat>, to: nat, next: nat)
    requires Covered(h, from, ts, to) && to <= next <= |h|
    ensures Covered(h, from, ts + Plain(h[to..next]), next)
  {
    hide Covered, AllValid, Expand, Items, Lits;
    var lit := h[to..next];
    PlainItems(lit);
    ExpandLits(h[..to], lit);
    assert h[..to] + lit == h[..next];
    CoveredAdd(h, from, ts, to, Plain(lit), next);
  }

  lemma CoveredLiteral(h: seq<byte>, from: nat, ts: seq<nat>, to: nat)
    requires Covered(h, from, ts, to) && to < |h|
    ensures Covered(h, from, ts + [h[to] as nat], to + 1)
  {
    hide Covered;
    assert Plain(h[to..to + 1]) == [h[to] as nat];
    CoveredPlain(h, from, ts, to, to + 1);
  }

  /** A match copies what it was found to agree with. */
  lemma MatchExtends(h: seq<byte>, s: nat, t: nat, l: nat)
    requires Match(h, s, t, l)
    ensures Extend(h[..s], l, s - t) == h[..s + l]
  {
    var r, d := h[..s + l], s - t;
    forall k {:trigger r[k]} | s <= k < s + l ensures r[k] == r[k - d] {
      assert h[s..s + l][k - s] == h[t..t + l][k - s];
    }
    ExtendUnique(h[..s], l, d, r);
  }

  lemma CoveredLong(h: seq<byte>, from: nat, ts: seq<nat>, s: nat, t: nat, l: nat)
    requires Covered(h, from, ts, s) && Match(h, s, t, l) && l >= MIN_MATCH
    ensures Covered(h, from, ts + LongTokens(l, s - t - 1), s + l)
  {
    hide Covered, AllValid, Expand, Items, LongTokens, Extend;
    MatchExtends(h, s, t, l);
    LongAreTokens(l, s - t - 1);
    LongExpands(h[..s], l, s - t - 1);
    CoveredAdd(h, from, ts, s, LongTokens(l, s - t - 1), s + l);
  }

  lemma CoveredMatch(h: seq<byte>, from: nat, ts: seq<nat>, s: nat, t: nat, l: nat)
    requires Covered(h, from, ts, s) && Match(h, s, t, l) && MIN_MATCH <= l <= MAX_MATCH
    ensures Covered(h, from, ts + [MatchToken(l - MIN_MATCH, s - t - 1)], s + l)
  {
    hide Covered, MatchToken;
    CoveredLong(h, from, ts, s, t, l);
    assert LongTokens(0, s - t - 1) == [];
    assert LongTokens(l, s - t - 1) == [MatchToken(l - MIN_MATCH, s - t - 1)];
  }

  /** Two agreeing stretches, one after the other. */
  lemma MatchJoin(h: seq<byte>, s: nat, t: nat, a: nat, b: nat)
    requires Match(h, s, t, a) && s + a + b <= |h| && h[s + a..s + a + b] == h[t + a..t + a + b]
    ensures Match(h, s, t, a + b)
  {
    assert h[s..s + (a + b)] == h[s..s + a] + h[s + a..s + a + b];
    assert h[t..t + (a + b)] == h[t..t + a] + h[t + a..t + a + b];
  }

  lemma MatchBack(h: seq<byte>, s: nat, t: nat, l: nat)
    requires Match(h, s, t, l) && t > 0 && h[s - 1] == h[t - 1]
    ensures Match(h, s - 1, t - 1, l + 1)
  {
    assert h[s - 1..s - 1 + (l + 1)] == [h[s - 1]] + h[s..s + l];
    assert h[t - 1..t - 1 + (l + 1)] == [h[t - 1]] + h[t..t + l];
  }

  /** How long the bytes at s repeat the bytes at t, which come before. */
  function Common(win: seq<byte>, s: nat, t: nat): (n: nat)
    requires t < s <= |win|
    ensures s + n <= |win|
    decreases |win| - s
  {
    if s < |win| && win[s] == win[t] then 1 + Common(win, s + 1, t + 1) else 0
  }

  /** It is the length at which the agreement stops. */
  lemma {:induction false} CommonIs(win: seq<byte>, s: nat, t: nat, n: nat)
    requires t < s && s + n <= |win|
    ensures Common(win, s, t) == n <==>
      win[s..s + n] == win[t..t + n] && (s + n < |win| ==> win[s + n] != win[t + n])
    decreases n
  {
    if n == 0 {
    } else if win[s] == win[t] {
      CommonIs(win, s + 1, t + 1, n - 1);
      assert win[s..s + n] == [win[s]] + win[s + 1..s + n] && win[t..t + n] == [win[t]] + win[t + 1..t + n];
      assert (win[s..s + n])[1..] == win[s + 1..s + n] && (win[t..t + n])[1..] == win[t + 1..t + n];
    } else {
      assert win[s..s + n][0] == win[s] && win[t..t + n][0] == win[t];
    }
  }

  /** A byte that is compared first lies within the agreement, or ends it. */
  lemma {:induction false} CommonReaches(win: seq<byte>, s: nat, t: nat, n: nat)
    requires t < s && s + n < |win| && win[s + n] != win[t + n]
    ensures Common(win, s, t) <= n
    decreases n
  {
    if n > 0 && win[s] == win[t] { CommonReaches(win, s + 1, t + 1, n - 1); }
  }

  lemma {:induction false} CommonInWindow(win: seq<byte>, w: seq<byte>, base: nat, s: nat, t: nat)
    requires base + |win| == |w| && w[base..] == win && t < s <= |win|
    ensures Common(w, base + s, base + t) == Common(win, s, t)
    decreases |win| - s
  {
    if s < |win| {
      assert w[base..][s] == win[s] && w[base..][t] == win[t];
      CommonInWindow(win, w, base, s + 1, t + 1);
    }
  }

  /** How far a match at s can be extended back, to no further than from. */
  function Back(h: seq<byte>, s: nat, t: nat, from: nat): (n: nat)
    requires t < s <= |h|
    ensures n <= t && (from <= s ==> n <= s - from)
  {
    if t > 0 && s > from && h[t - 1] == h[s - 1] then 1 + Back(h, s - 1, t - 1, from) else 0
  }

  /** How long the bytes at s repeat the bytes at t. */
  method LongestAgreement(h: seq<byte>, s: nat, t: nat) returns (l: nat)
    requires t <= s <= |h|
    ensures s + l <= |h| && h[s..s + l] == h[t..t + l]
    ensures s + l < |h| ==> h[s + l] != h[t + l]
  {
    l := MatchLength(h[s..], h[t..]);
    assert h[s..s + l] == h[s..][..l] && h[t..t + l] == h[t..][..l];
  }

  /** The same, looking no further than 254 bytes. */
  method CappedAgreement(h: seq<byte>, s: nat, t: nat) returns (l: nat)
    requires t < s <= |h|
    ensures l <= MAX_MATCH - 4 && s + l <= |h| && h[s..s + l] == h[t..t + l]
    ensures l == if Common(h, s, t) < MAX_MATCH - 4 then Common(h, s, t) else MAX_MATCH - 4
  {
    hide Common;
    var end := if s + MAX_MATCH - 4 <= |h| then s + MAX_MATCH - 4 else |h|;
    var a := h[s..end];
    l := MatchLength(a, h[t..]);
    assert h[s..s + l] == a[..l] && h[t..t + l] == h[t..][..l];
    if l < MAX_MATCH - 4 {
      CommonIs(h, s, t, l);
    } else {
      CommonFrom(h, s, t, l);
    }
  }

  lemma {:induction false} CommonFrom(h: seq<byte>, s: nat, t: nat, l: nat)
    requires t < s && s + l <= |h| && h[s..s + l] == h[t..t + l]
    ensures Common(h, s, t) == l + Common(h, s + l, t + l)
    decreases l
  {
    if l > 0 {
      assert h[s..s + l][0] == h[t..t + l][0];
      assert h[s + 1..s + l] == h[s..s + l][1..] && h[t + 1..t + l] == h[t..t + l][1..];
      CommonFrom(h, s + 1, t + 1, l - 1);
    }
  }

  /** Extends a match backwards, to no further than what is already covered. */
  method ExtendBack(h: seq<byte>, s0: nat, t0: nat, l0: nat, nextEmit: nat) returns (s: nat, t: nat, l: nat)
    requires Match(h, s0, t0, l0) && nextEmit <= s0
    ensures Match(h, s, t, l) && nextEmit <= s <= s0 && s + l == s0 + l0 && s - t == s0 - t0
    ensures t == 0 || s == nextEmit || h[t - 1] != h[s - 1]
    ensures t0 < s0 <= |h| && s == s0 - Back(h, s0, t0, nextEmit)
  {
    hide Match;
    s, t, l := s0, t0, l0;
    MatchInside(h, s, t, l);
    while t > 0 && s > nextEmit && h[t - 1] == h[s - 1]
      invariant Match(h, s, t, l) && nextEmit <= s <= s0 && s + l == s0 + l0 && s - t == s0 - t0
      invariant t < s <= |h| && s0 - s + Back(h, s, t, nextEmit) == Back(h, s0, t0, nextEmit)
    {
      MatchBack(h, s, t, l);
      s, t, l := s - 1, t - 1, l + 1;
    }
  }

  lemma MatchInside(h: seq<byte>, s: nat, t: nat, l: nat)
    requires Match(h, s, t, l)
    ensures t < s <= t + MAX_DIST && s + l <= |h|
  {
  }

  /** Emits the literals before a match, and the match. */
  method EmitMatch(dst: Buffer, h: seq<byte>, ghost from: nat, nextEmit: nat, s: nat, t: nat, l: nat)
    requires dst.Valid() && Covered(h, from, dst.Slice(), nextEmit)
    requires nextEmit <= s && Match(h, s, t, l) && l >= MIN_MATCH
    requires |h| - from <= MAX_BLOCK && |h| - from <= dst.tokens.Length
    modifies dst`n, dst.Repr()
    ensures dst.Valid() && dst.n <= dst.tokens.Length && Covered(h, from, dst.Slice(), s + l) && dst.n > 0
    ensures s <= |h| && 0 < s - t <= MAX_DIST
    ensures dst.Slice() == old(dst.Slice()) + Plain(h[nextEmit..s]) + LongTokens(l, s - t - 1)
  {
    hide Buffer.Valid, Match, AllValid, Expand, Items, Covered;
    dst.Sizes();
    MatchInside(h, s, t, l);
    CoveredSize(h, from, dst.Slice(), nextEmit);
    CoveredPlain(h, from, dst.Slice(), nextEmit, s);
    if nextEmit < s {
      EmitLiterals(dst, h[nextEmit..s]);
    } else {
      assert dst.Slice() + Plain(h[s..s]) == dst.Slice();
    }
    CoveredLong(h, from, dst.Slice(), s, t, l);
    CoveredSize(h, from, dst.Slice(), s);
    dst.Sizes();
    dst.AddMatchLong(l, s - t - 1);
    dst.Sizes();
    NonEmpty(l, s - t - 1);
  }

  lemma NonEmpty(x: nat, xoffset: nat)
    requires x >= MIN_MATCH && xoffset < 0x8000
    ensures |LongTokens(x, xoffset)| > 0
  {
  }

  lemma CoveredSize(h: seq<byte>, from: nat, ts: seq<nat>, to: nat)
    requires Covered(h, from, ts, to)
    ensures from <= to <= |h| && |ts| <= to - from && AllTokens(ts)
  {
  }

  lemma {:induction false} ExpandMost(h: seq<byte>, xs: seq<Item>)
    requires AllValid(h, xs)
    ensures |Expand(h, xs)| <= |h| + MAX_MATCH * |xs|
    decreases xs
  {
    if xs != [] { ExpandMost(Apply(h, xs[0]), xs[1..]); }
  }

  /** A token covers no more than the longest match. */
  lemma CoversMost(h: seq<byte>, from: nat, ts: seq<nat>, to: nat)
    requires Covered(h, from, ts, to)
    ensures to - from <= MAX_MATCH * |ts|
  {
    ExpandMost(h[..from], Items(ts));
  }

  /** Emits the rest as literals, unless nothing was found at all. */
  method EmitRemainder(dst: Buffer, h: seq<byte>, ghost from: nat, nextEmit: nat)
    requires dst.Valid() && Covered(h, from, dst.Slice(), nextEmit)
    requires |h| - from <= MAX_BLOCK && |h| - from <= dst.tokens.Length
    modifies dst`n, dst.Repr()
    ensures dst.Valid() && AllTokens(dst.Slice()) && dst.n == |dst.Slice()| <= |h| - from
    ensures old(dst.n) > 0 || nextEmit == |h| ==> Covered(h, from, dst.Slice(), |h|)
    ensures old(dst.n) == 0 <==> dst.n == 0
    ensures nextEmit <= |h| && dst.Slice() == old(dst.Slice()) + if old(dst.n) == 0 then [] else Plain(h[nextEmit..])
  {
    hide Buffer.Valid, AllValid, Expand, Items, Covered;
    dst.Sizes();
    CoveredSize(h, from, dst.Slice(), nextEmit);
    if nextEmit < |h| {
      if dst.n == 0 {
        return;
      }
      CoveredPlain(h, from, dst.Slice(), nextEmit, |h|);
      assert h[nextEmit..|h|] == h[nextEmit..];
      EmitLiterals(dst, h[nextEmit..]);
      CoveredSize(h, from, dst.Slice(), |h|);
      dst.Sizes();
    }
  }
}
