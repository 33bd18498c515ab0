/** The lazy match finder (levels 7 to 9): its window, its hash chains, and the search along a chain. */
module LazyMatch {
  import opened Words
  import opened Lz
  import opened LzCodes
  import opened MatchLen
  import opened Covering

  const WINDOW: nat := 0x8000
  const MIN_LOOK: nat := 4
  const MAX_HASH_OFFSET: nat := 0x1000_0000

  function Min(a: int, b: int): int {
    if a <= b then a else b
  }

  function Max(a: int, b: int): int {
    if a >= b then a else b
  }

  /** No entry denotes a position at or beyond lim, positions being counted from hashOffset. */
  predicate Below(table: seq<nat>, lim: int) {
    forall k :: 0 <= k < |table| ==> table[k] < lim
  }

  lemma BelowLater(table: seq<nat>, lim: int, lim': int)
    requires Below(table, lim) && lim <= lim'
    ensures Below(table, lim')
  {
  }

  lemma BelowAt(table: seq<nat>, lim: int, k: nat)
    requires Below(table, lim) && k < |table|
    ensures table[k] < lim
  {
  }

  lemma BelowStore(table: seq<nat>, lim: int, k: nat, v: nat, lim': int)
    requires Below(table, lim) && k < |table| && v < lim' && lim <= lim'
    ensures Below(table[k := v], lim')
  {
  }

  lemma SliceOfSlice(all: seq<byte>, base: nat, n: nat, i: nat, l: nat)
    requires base + n <= |all| && i + l <= n
    ensures all[base..base + n][i..i + l] == all[base + i..base + i + l]
  {
    var x, y := all[base..base + n][i..i + l], all[base + i..base + i + l];
    forall k | 0 <= k < l ensures x[k] == y[k] {
      assert all[base..base + n][i + k] == all[base + i + k];
    }
  }

  /** The bytes of a match inside the window are a match in all the data. */
  lemma MatchInWindow(all: seq<byte>, base: nat, w: seq<byte>, s: nat, t: nat, l: nat)
    requires base + |w| <= |all| && w == all[base..base + |w|] && Match(w, s, t, l)
    ensures Match(all, base + s, base + t, l)
  {
    SliceOfSlice(all, base, |w|, s, l);
    SliceOfSlice(all, base, |w|, t, l);
  }

  // ---------------------------------------------------------------------------------------------
  // The search along a chain.
  // ---------------------------------------------------------------------------------------------

  /** The first position of the window that can be reached from pos. */
  function MinIndex(pos: nat): nat {
    Max(pos - WINDOW, 0)
  }

  /** The candidates for a match at pos: the positions on the chain from i on, so many at most, and none in front of
      the window. What the chain holds for a position at or in front of the window's beginning is not looked at. */
  function Candidates(prev: seq<nat>, hashOffset: nat, pos: nat, i: int, tries: nat): seq<nat>
    requires |prev| == WINDOW && i >= 0
    decreases tries
  {
    if tries == 0 then []
    else if i <= MinIndex(pos) || prev[i % WINDOW] - hashOffset < MinIndex(pos) then [i]
    else [i] + Candidates(prev, hashOffset, pos, prev[i % WINDOW] - hashOffset, tries - 1)
  }

  /** The first of the candidates to come, and those after it. */
  lemma ChainStep(prev: seq<nat>, hashOffset: nat, pos: nat, i: int, tries: nat, cs: seq<nat>, done: nat)
    requires |prev| == WINDOW && i >= 0 && done <= |cs| && Candidates(prev, hashOffset, pos, i, tries) == cs[done..]
    ensures tries == 0 ==> done == |cs|
    ensures tries > 0 ==> done < |cs| && cs[done] == i
    ensures tries > 0 ==>
      var next := prev[i % WINDOW] - hashOffset;
      if i <= MinIndex(pos) || next < MinIndex(pos) then done + 1 == |cs|
      else Candidates(prev, hashOffset, pos, next, tries - 1) == cs[done + 1..]
  {
    if tries > 0 {
      assert cs[done] == cs[done..][0] && |cs[done..]| == |cs| - done;
      assert cs[done + 1..] == cs[done..][1..];
    }
  }

  /** They all come before pos. */
  predicate Before(cs: seq<nat>, pos: nat) {
    forall k :: 0 <= k < |cs| ==> cs[k] < pos
  }

  lemma {:induction false} CandidatesBefore(prev: seq<nat>, hashOffset: nat, pos: nat, i: int, tries: nat)
    requires |prev| == WINDOW && 0 <= i < pos && Below(prev, hashOffset + pos)
    ensures Before(Candidates(prev, hashOffset, pos, i, tries), pos)
    decreases tries
  {
    if tries > 0 && i > MinIndex(pos) {
      BelowAt(prev, hashOffset + pos, i % WINDOW);
      var next := prev[i % WINDOW] - hashOffset;
      if next >= MinIndex(pos) { CandidatesBefore(prev, hashOffset, pos, next, tries - 1); }
    }
  }

  /** Candidate k is the best of them: it repeats length bytes, no other more, those before it fewer; and if that is
      nice, the search ends there. */
  predicate Best(win: seq<byte>, pos: nat, cs: seq<nat>, nice: int, k: nat, length: nat)
    requires Before(cs, pos) && pos <= |win|
  {
    && k < |cs| && Common(win, pos, cs[k]) == length > 3
    && (forall j :: 0 <= j < k ==> Common(win, pos, cs[j]) < length)
    && (forall j :: 0 <= j < k ==> Common(win, pos, cs[j]) <= 3 || Common(win, pos, cs[j]) < nice)
    && (length < nice ==> forall j :: k < j < |cs| ==> Common(win, pos, cs[j]) <= length)
  }

  /** No candidate repeats more than three bytes. */
  predicate NoneBetter(win: seq<byte>, pos: nat, cs: seq<nat>)
    requires Before(cs, pos) && pos <= |win|
  {
    forall j :: 0 <= j < |cs| ==> Common(win, pos, cs[j]) <= 3
  }

  /** There is one best candidate. */
  lemma BestOnce(win: seq<byte>, pos: nat, cs: seq<nat>, nice: int, k: nat, l: nat, k': nat, l': nat)
    requires Before(cs, pos) && pos <= |win| && Best(win, pos, cs, nice, k, l) && Best(win, pos, cs, nice, k', l')
    ensures k == k' && l == l'
  {
    hide Common;
  }

  /** What findMatch looks at for one candidate: how far it agrees. */
  method TryCandidate(win: seq<byte>, pos: nat, i: nat, look: nat) returns (n: nat)
    requires i < pos <= i + WINDOW && pos + look == |win|
    ensures n <= look && Match(win, pos, i, n) && n == Common(win, pos, i)
  {
    var a, b := win[i..i + look], win[pos..];
    n := MatchLength(a, b);
    assert win[i..i + n] == a[..n] && win[pos..pos + n] == b[..n];
    CommonIs(win, pos, i, n);
  }

  /** Follows a hash chain from prevHead, taking what is longer. */
  method FindLonger(win: seq<byte>, hashPrev: array<nat>, hashOffset: nat, pos: nat, prevHead: nat, look: nat,
          nice0: nat, chain: nat)
    returns (length: nat, offset: nat, ok: bool)
    requires MIN_LOOK <= look <= MAX_MATCH && pos + look == |win| && hashPrev.Length == WINDOW
    requires Below(hashPrev[..], hashOffset + pos) && MinIndex(pos) <= prevHead < pos
    ensures 3 <= length <= look && (ok <==> length > 3)
    ensures ok ==> 0 < offset <= pos && Match(win, pos, pos - offset, length)
    ensures var cs := Candidates(hashPrev[..], hashOffset, pos, prevHead, chain);
      && Before(cs, pos)
      && if ok then exists k: nat :: Best(win, pos, cs, Min(nice0, look), k, length) && cs[k] == pos - offset
         else NoneBetter(win, pos, cs)
  {
    hide Below, Match, Common, MinIndex, Candidates, Before, BestTo, NoneBetter, Best;
    ghost var cs := Candidates(hashPrev[..], hashOffset, pos, prevHead, chain);
    CandidatesBefore(hashPrev[..], hashOffset, pos, prevHead, chain);
    var nice := Min(nice0, look);
    var tries := chain;
    length, offset, ok := 3, 0, false;
    var wEnd := win[pos + length];
    var minIndex := Max(pos - WINDOW, 0);
    MinIs(pos);
    var i := prevHead;
    ghost var done, k := 0, 0;
    BestNone(win, pos, cs, nice);
    while tries > 0
      invariant minIndex <= i < pos && 3 <= length < look && wEnd == win[pos + length] && minIndex == MinIndex(pos)
      invariant ok <==> length > 3
      invariant ok ==> 0 < offset <= pos && Match(win, pos, pos - offset, length)
      invariant done <= |cs| && Candidates(hashPrev[..], hashOffset, pos, i, tries) == cs[done..]
      invariant BestTo(win, pos, cs, done, nice, k, length, ok) && (ok ==> k < |cs| && cs[k] == pos - offset)
    {
      ChainStep(hashPrev[..], hashOffset, pos, i, tries, cs, done);
      var n := length;
      if wEnd == win[i + length] {
        n := TryCandidate(win, pos, i, look);
      } else {
        CommonReaches(win, pos, i, length);
      }
      if n > length {
        BetterAt(win, pos, cs, nice, done, k, length, ok, n);
        length, offset, ok := n, pos - i, true;
        k := done;
        if n >= nice {
          return;
        }
        wEnd := win[pos + n];
      } else {
        NotBetter(win, pos, cs, nice, done, k, length, ok);
      }
      done := done + 1;
      if i <= minIndex {
        BestAll(win, pos, cs, nice, k, length, ok);
        return;
      }
      BelowAt(hashPrev[..], hashOffset + pos, i % WINDOW);
      var next := hashPrev[i % WINDOW] - hashOffset;
      if next < minIndex {
        BestAll(win, pos, cs, nice, k, length, ok);
        return;
      }
      i := next;
      tries := tries - 1;
    }
    ChainStep(hashPrev[..], hashOffset, pos, i, tries, cs, done);
    BestAll(win, pos, cs, nice, k, length, ok);
  }

  lemma MinIs(pos: nat)
    ensures MinIndex(pos) == Max(pos - WINDOW, 0)
  {
  }

  /** The search has tried so many candidates, and goes on. */
  predicate BestTo(win: seq<byte>, pos: nat, cs: seq<nat>, done: nat, nice: int, k: nat, length: nat, ok: bool)
    requires Before(cs, pos) && pos <= |win| && done <= |cs|
  {
    if ok then Best(win, pos, cs[..done], nice, k, length) && length < nice
    else NoneBetter(win, pos, cs[..done]) && length == 3
  }

  lemma BestNone(win: seq<byte>, pos: nat, cs: seq<nat>, nice: int)
    requires Before(cs, pos) && pos <= |win|
    ensures BestTo(win, pos, cs, 0, nice, 0, 3, false)
  {
  }

  /** All candidates have been tried. */
  lemma BestAll(win: seq<byte>, pos: nat, cs: seq<nat>, nice: int, k: nat, length: nat, ok: bool)
    requires Before(cs, pos) && pos <= |win| && BestTo(win, pos, cs, |cs|, nice, k, length, ok)
    ensures if ok then Best(win, pos, cs, nice, k, length) else NoneBetter(win, pos, cs)
  {
    assert cs[..|cs|] == cs;
  }

  /** The next candidate is longer than all before it. */
  lemma BetterAt(win: seq<byte>, pos: nat, cs: seq<nat>, nice: int, done: nat, k: nat, length: nat, ok: bool, n: nat)
    requires Before(cs, pos) && pos <= |win| && done < |cs| && n == Common(win, pos, cs[done]) > length >= 3
    requires BestTo(win, pos, cs, done, nice, k, length, ok)
    ensures if n < nice then BestTo(win, pos, cs, done + 1, nice, done, n, true) else Best(win, pos, cs, nice, done, n)
  {
    hide Common;
    forall j | 0 <= j < done
      ensures Common(win, pos, cs[j]) < n && (Common(win, pos, cs[j]) <= 3 || Common(win, pos, cs[j]) < nice)
    {
      assert cs[..done][j] == cs[j];
    }
  }

  /** The next candidate is not longer. */
  lemma NotBetter(win: seq<byte>, pos: nat, cs: seq<nat>, nice: int, done: nat, k: nat, length: nat, ok: bool)
    requires Before(cs, pos) && pos <= |win| && done < |cs| && Common(win, pos, cs[done]) <= length && length >= 3
    requires BestTo(win, pos, cs, done, nice, k, length, ok)
    ensures BestTo(win, pos, cs, done + 1, nice, k, length, ok)
  {
    hide Common;
    forall j | 0 <= j < done ensures cs[..done + 1][j] == cs[..done][j] {
    }
    assert cs[..done + 1][done] == cs[done];
  }

  // ---------------------------------------------------------------------------------------------
  // The search along a long chain.
  // ---------------------------------------------------------------------------------------------

  /** What a match is thought to save: the literals for its bytes, as raw estimates them, less its extra bits. The
      table is asked for the distance itself here, not for one less. */
  function Gain(raw: nat -> int, n: nat, off: nat): int
    requires MIN_MATCH <= n <= MAX_MATCH && off <= MAX_DIST
  {
    raw(n) - OffsetExtra(if off < MAX_DIST then OffsetCode(off) else 14) - 3 - LengthExtra(LengthCode(n - MIN_MATCH))
  }

  /** The gain of a candidate; only those that repeat more than three bytes have one. */
  function GainAt(win: seq<byte>, pos: nat, raw: nat -> int, c: nat): int
    requires c < pos <= c + WINDOW && pos <= |win| <= pos + MAX_MATCH
  {
    var n := Common(win, pos, c);
    if n > 3 then Gain(raw, n, pos - c) else 0
  }

  /** The candidates are inside the window. */
  predicate Within(cs: seq<nat>, pos: nat) {
    forall k :: 0 <= k < |cs| ==> cs[k] < pos <= cs[k] + WINDOW
  }

  lemma {:induction false} CandidatesWithin(prev: seq<nat>, hashOffset: nat, pos: nat, i: int, tries: nat)
    requires |prev| == WINDOW && MinIndex(pos) <= i < pos && Below(prev, hashOffset + pos)
    ensures Within(Candidates(prev, hashOffset, pos, i, tries), pos)
    decreases tries
  {
    if tries > 0 && i > MinIndex(pos) {
      BelowAt(prev, hashOffset + pos, i % WINDOW);
      var next := prev[i % WINDOW] - hashOffset;
      if next >= MinIndex(pos) { CandidatesWithin(prev, hashOffset, pos, next, tries - 1); }
    }
  }

  /** Candidate c is surpassed in both respects, or equalled unless strictly. */
  predicate Surpassed(win: seq<byte>, pos: nat, raw: nat -> int, c: nat, length: nat, gain: int, strictly: bool)
    requires c < pos <= c + WINDOW && pos <= |win| <= pos + MAX_MATCH
  {
    var n := Common(win, pos, c);
    || n <= 3
    || n < length || GainAt(win, pos, raw, c) < gain
    || (!strictly && (n == length || GainAt(win, pos, raw, c) == gain))
  }

  /** Candidate k is worth more than 4 bits, no other is both longer and worth more, and those before it are shorter or
      worth less; and if it is nice, the search ends there. */
  predicate Worthiest(win: seq<byte>, pos: nat, raw: nat -> int, cs: seq<nat>, nice: int, k: nat, length: nat)
    requires Within(cs, pos) && pos <= |win| <= pos + MAX_MATCH
  {
    && k < |cs| && Common(win, pos, cs[k]) == length > 3 && GainAt(win, pos, raw, cs[k]) > 4
    && (forall j :: 0 <= j < k ==> Surpassed(win, pos, raw, cs[j], length, GainAt(win, pos, raw, cs[k]), true))
    && (length < nice ==>
          forall j :: k < j < |cs| ==> Surpassed(win, pos, raw, cs[j], length, GainAt(win, pos, raw, cs[k]), false))
  }

  /** No candidate repeats more than three bytes and is worth more than 4 bits. */
  predicate NoneWorthy(win: seq<byte>, pos: nat, raw: nat -> int, cs: seq<nat>)
    requires Within(cs, pos) && pos <= |win| <= pos + MAX_MATCH
  {
    forall j :: 0 <= j < |cs| ==> Surpassed(win, pos, raw, cs[j], 3, 4, false)
  }

  /** The same for long chains, where a longer match also has to be worth more than the one before. */
  method FindWorthier(win: seq<byte>, hashPrev: array<nat>, hashOffset: nat, pos: nat, prevHead: nat, look: nat,
          nice0: nat, chain: nat, raw: nat -> int)
    returns (length: nat, offset: nat, ok: bool)
    requires MIN_LOOK <= look <= MAX_MATCH && pos + look == |win| && hashPrev.Length == WINDOW
    requires Below(hashPrev[..], hashOffset + pos) && MinIndex(pos) <= prevHead < pos
    ensures 3 <= length <= look && (ok <==> length > 3)
    ensures ok ==> 0 < offset <= pos && Match(win, pos, pos - offset, length)
    ensures var cs := Candidates(hashPrev[..], hashOffset, pos, prevHead, chain);
      && Within(cs, pos)
      && if ok then exists k: nat :: Worthiest(win, pos, raw, cs, Min(nice0, look), k, length) && cs[k] == pos - offset
         else NoneWorthy(win, pos, raw, cs)
  {
    hide Below, Match, Common, MinIndex, Candidates, Within, Gain, WorthyTo, NoneWorthy, Worthiest;
    ghost var cs := Candidates(hashPrev[..], hashOffset, pos, prevHead, chain);
    CandidatesWithin(hashPrev[..], hashOffset, pos, prevHead, chain);
    var nice := Min(nice0, look);
    var tries := chain;
    length, offset, ok := 3, 0, false;
    var wEnd := win[pos + length];
    var minIndex := Max(pos - WINDOW, 0);
    MinIs(pos);
    var cGain := 4;
    var i := prevHead;
    ghost var done, k := 0, 0;
    WorthyNone(win, pos, raw, cs, nice);
    while tries > 0
      invariant minIndex <= i < pos && 3 <= length < look && wEnd == win[pos + length] && minIndex == MinIndex(pos)
      invariant (ok <==> length > 3) && cGain >= 4
      invariant ok ==> 0 < offset <= pos && Match(win, pos, pos - offset, length)
      invariant done <= |cs| && Candidates(hashPrev[..], hashOffset, pos, i, tries) == cs[done..]
      invariant WorthyTo(win, pos, raw, cs, done, nice, k, length, cGain, ok) &&
        (ok ==> k < |cs| && cs[k] == pos - offset)
    {
      ChainStep(hashPrev[..], hashOffset, pos, i, tries, cs, done);
      var n := length;
      if wEnd == win[i + length] {
        n := TryCandidate(win, pos, i, look);
      } else {
        CommonReaches(win, pos, i, length);
      }
      if n > length && Gain(raw, n, pos - i) > cGain {
        Worthier(win, pos, raw, cs, nice, done, k, length, cGain, ok, n);
        length, offset, cGain, ok := n, pos - i, Gain(raw, n, pos - i), true;
        k := done;
        if n >= nice {
          return;
        }
        wEnd := win[pos + n];
      } else {
        NotWorthier(win, pos, raw, cs, nice, done, k, length, cGain, ok);
      }
      done := done + 1;
      if i <= minIndex {
        WorthyAll(win, pos, raw, cs, nice, k, length, cGain, ok);
        return;
      }
      BelowAt(hashPrev[..], hashOffset + pos, i % WINDOW);
      var next := hashPrev[i % WINDOW] - hashOffset;
      if next < minIndex {
        WorthyAll(win, pos, raw, cs, nice, k, length, cGain, ok);
        return;
      }
      i := next;
      tries := tries - 1;
    }
    ChainStep(hashPrev[..], hashOffset, pos, i, tries, cs, done);
    WorthyAll(win, pos, raw, cs, nice, k, length, cGain, ok);
  }

  /** The search has tried so many candidates, and goes on. */
  predicate WorthyTo(win: seq<byte>, pos: nat, raw: nat -> int, cs: seq<nat>, done: nat, nice: int, k: nat,
                     length: nat, gain: int, ok: bool)
    requires Within(cs, pos) && pos <= |win| <= pos + MAX_MATCH && done <= |cs|
  {
    if ok then Worthiest(win, pos, raw, cs[..done], nice, k, length) && length < nice &&
      gain == GainAt(win, pos, raw, cs[k])
    else NoneWorthy(win, pos, raw, cs[..done]) && length == 3 && gain == 4
  }

  lemma WorthyNone(win: seq<byte>, pos: nat, raw: nat -> int, cs: seq<nat>, nice: int)
    requires Within(cs, pos) && pos <= |win| <= pos + MAX_MATCH
    ensures WorthyTo(win, pos, raw, cs, 0, nice, 0, 3, 4, false)
  {
  }

  /** All candidates have been tried. */
  lemma WorthyAll(win: seq<byte>, pos: nat, raw: nat -> int, cs: seq<nat>, nice: int, k: nat, length: nat, gain: int,
                  ok: bool)
    requires Within(cs, pos) && pos <= |win| <= pos + MAX_MATCH
    requires WorthyTo(win, pos, raw, cs, |cs|, nice, k, length, gain, ok)
    ensures if ok then Worthiest(win, pos, raw, cs, nice, k, length) else NoneWorthy(win, pos, raw, cs)
  {
    assert cs[..|cs|] == cs;
  }

  /** The next candidate is longer and worth more than the one held. */
  lemma Worthier(win: seq<byte>, pos: nat, raw: nat -> int, cs: seq<nat>, nice: int, done: nat, k: nat, length: nat,
                 gain: int, ok: bool, n: nat)
    requires Within(cs, pos) && pos <= |win| <= pos + MAX_MATCH && done < |cs|
    requires WorthyTo(win, pos, raw, cs, done, nice, k, length, gain, ok)
    requires n == Common(win, pos, cs[done]) > length >= 3 && Gain(raw, n, pos - cs[done]) > gain >= 4
    ensures if n < nice then WorthyTo(win, pos, raw, cs, done + 1, nice, done, n, Gain(raw, n, pos - cs[done]), true)
      else Worthiest(win, pos, raw, cs, nice, done, n)
  {
    hide Common, Gain;
    var g := Gain(raw, n, pos - cs[done]);
    forall j | 0 <= j < done ensures Surpassed(win, pos, raw, cs[j], n, g, true) {
      assert cs[..done][j] == cs[j];
    }
  }

  /** The next candidate is not. */
  lemma NotWorthier(win: seq<byte>, pos: nat, raw: nat -> int, cs: seq<nat>, nice: int, done: nat, k: nat, length: nat,
                    gain: int, ok: bool)
    requires Within(cs, pos) && pos <= |win| <= pos + MAX_MATCH && done < |cs| && length >= 3
    requires WorthyTo(win, pos, raw, cs, done, nice, k, length, gain, ok)
    requires Common(win, pos, cs[done]) <= length || Gain(raw, Common(win, pos, cs[done]), pos - cs[done]) <= gain
    ensures WorthyTo(win, pos, raw, cs, done + 1, nice, k, length, gain, ok)
  {
    hide Common, Gain;
    forall j | 0 <= j < done ensures cs[..done + 1][j] == cs[..done][j] {
    }
    assert cs[..done + 1][done] == cs[done];
    assert Surpassed(win, pos, raw, cs[done], length, gain, false);
  }

  /** Extends a match that starts two bytes further on back over those two bytes. Returns how many of
      them it does not reach. */
  method ExtendOver(w: seq<byte>, prevIndex: nat, ch2: nat, length: nat) returns (owed: nat, l: nat)
    requires Match(w, prevIndex + 2, ch2 + 2, length) && length <= MAX_MATCH
    ensures owed <= 2 && l == length + 2 - owed <= MAX_MATCH && Match(w, prevIndex + owed, ch2 + owed, l)
    ensures owed == 0 || l == MAX_MATCH || w[prevIndex + owed - 1] != w[ch2 + owed - 1]
  {
    hide Match;
    MatchInside(w, prevIndex + 2, ch2 + 2, length);
    l := length;
    owed := 2;
    while owed > 0
      invariant owed <= 2 && l == length + 2 - owed <= MAX_MATCH && Match(w, prevIndex + owed, ch2 + owed, l)
    {
      if l >= MAX_MATCH || w[prevIndex + owed - 1] != w[ch2 + owed - 1] {
        break;
      }
      MatchBack(w, prevIndex + owed, ch2 + owed, l);
      l, owed := l + 1, owed - 1;
    }
  }
}
