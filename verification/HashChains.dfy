/** The hash chains of the lazy match finder: which positions they hold, and in which order. */
module HashChains {
  import opened Words
  import opened Lz
  import opened MatchLen
  import opened Covering
  import opened LazyMatch

  /** The hash of the four bytes at a. */
  function Key(all: seq<byte>, a: nat): (h: nat)
    requires a + 4 <= |all|
    ensures h < HASH_SIZE
  {
    Hash17(Load(all, a, 4))
  }

  /** Position a of the data is hashed: four bytes are there, and it was not passed over. */
  predicate Hashed(all: seq<byte>, skipped: set<nat>, a: nat) {
    a + 4 <= |all| && a !in skipped
  }

  /** The last position in front of p that is hashed to h; -1 if there is none. */
  function Prior(all: seq<byte>, skipped: set<nat>, p: nat, h: nat): (b: int)
    ensures -1 <= b < p
    ensures b >= 0 ==> Hashed(all, skipped, b) && Key(all, b) == h
    ensures forall a :: b < a < p && Hashed(all, skipped, a) ==> Key(all, a) != h
  {
    if p == 0 then -1
    else if Hashed(all, skipped, p - 1) && Key(all, p - 1) == h then p - 1
    else Prior(all, skipped, p - 1, h)
  }

  /** The entry v denotes position b of the data; of positions in front of the window only that they are. */
  predicate Points(v: nat, b: int, base: nat, off: nat) {
    if b >= base then v == b - base + off else v < off
  }

  /** The chains hold what was hashed in front of p: each head denotes the last position with its hash, and the entry
      of a position, as long as it is not overwritten, denotes the one before it with the same hash. */
  predicate Chains(all: seq<byte>, skipped: set<nat>, base: nat, off: nat, head: seq<nat>, prev: seq<nat>, p: nat) {
    && |head| == HASH_SIZE && |prev| == WINDOW
    && (forall a :: a in skipped ==> a < p)
    && (forall h :: 0 <= h < HASH_SIZE ==> Points(head[h], Prior(all, skipped, p, h), base, off))
    && (forall a: nat :: base <= a < p <= a + WINDOW && Hashed(all, skipped, a) ==>
          Points(prev[a % WINDOW], Prior(all, skipped, a, Key(all, a)), base, off))
  }

  lemma ChainsHead(all: seq<byte>, skipped: set<nat>, base: nat, off: nat, head: seq<nat>, prev: seq<nat>, p: nat,
                   h: nat)
    requires Chains(all, skipped, base, off, head, prev, p) && h < HASH_SIZE
    ensures Points(head[h], Prior(all, skipped, p, h), base, off)
  {
  }

  lemma ChainsPrev(all: seq<byte>, skipped: set<nat>, base: nat, off: nat, head: seq<nat>, prev: seq<nat>, p: nat,
                   a: nat)
    requires Chains(all, skipped, base, off, head, prev, p) && base <= a < p <= a + WINDOW && Hashed(all, skipped, a)
    ensures Points(prev[a % WINDOW], Prior(all, skipped, a, Key(all, a)), base, off)
  {
  }

  lemma ChainsNone(head: seq<nat>, prev: seq<nat>, all: seq<byte>, off: nat)
    requires |head| == HASH_SIZE && |prev| == WINDOW && off > 0
    requires forall k :: 0 <= k < HASH_SIZE ==> head[k] == 0
    ensures Chains(all, {}, 0, off, head, prev, 0)
  {
  }

  /** Positions less than a window apart have entries of their own. */
  lemma OwnEntry(a: nat, b: nat)
    requires a < b < a + WINDOW
    ensures a % WINDOW != b % WINDOW
  {
  }

  /** The next position is hashed: it becomes the head of its chain. */
  lemma ChainsStore(all: seq<byte>, skipped: set<nat>, base: nat, off: nat, head: seq<nat>, prev: seq<nat>, p: nat,
                    h: nat)
    requires Chains(all, skipped, base, off, head, prev, p) && p + 4 <= |all| && h == Key(all, p) && base <= p
    ensures Chains(all, skipped, base, off, head[h := p - base + off], prev[p % WINDOW := head[h]], p + 1)
  {
    hide Key, Points;
    var head', prev' := head[h := p - base + off], prev[p % WINDOW := head[h]];
    forall g | 0 <= g < HASH_SIZE ensures Points(head'[g], Prior(all, skipped, p + 1, g), base, off) {
      ChainsHead(all, skipped, base, off, head, prev, p, g);
      if g == h { PointsAt(p, base, off); }
    }
    forall a: nat | base <= a < p + 1 <= a + WINDOW && Hashed(all, skipped, a)
      ensures Points(prev'[a % WINDOW], Prior(all, skipped, a, Key(all, a)), base, off)
    {
      if a == p {
        ChainsHead(all, skipped, base, off, head, prev, p, h);
      } else {
        OwnEntry(a, p);
        ChainsPrev(all, skipped, base, off, head, prev, p, a);
      }
    }
  }

  lemma PointsAt(p: nat, base: nat, off: nat)
    requires base <= p
    ensures Points(p - base + off, p, base, off)
  {
  }

  /** The next position is not hashed. */
  lemma ChainsPass(all: seq<byte>, skipped: set<nat>, base: nat, off: nat, head: seq<nat>, prev: seq<nat>, p: nat)
    requires Chains(all, skipped, base, off, head, prev, p) && p + 4 > |all|
    ensures Chains(all, skipped, base, off, head, prev, p + 1)
  {
    hide Key, Points;
    forall g | 0 <= g < HASH_SIZE ensures Points(head[g], Prior(all, skipped, p + 1, g), base, off) {
      ChainsHead(all, skipped, base, off, head, prev, p, g);
    }
    forall a: nat | base <= a < p + 1 <= a + WINDOW && Hashed(all, skipped, a)
      ensures Points(prev[a % WINDOW], Prior(all, skipped, a, Key(all, a)), base, off)
    {
      ChainsPrev(all, skipped, base, off, head, prev, p, a);
    }
  }

  /** Nor are the positions up to q. */
  lemma {:induction false} ChainsPassTo(all: seq<byte>, skipped: set<nat>, base: nat, off: nat, head: seq<nat>,
                                        prev: seq<nat>, p: nat, q: nat)
    requires Chains(all, skipped, base, off, head, prev, p) && p <= q
    requires p < q ==> p + 4 > |all|
    ensures Chains(all, skipped, base, off, head, prev, q)
    decreases q - p
  {
    hide Chains;
    if p < q {
      ChainsPass(all, skipped, base, off, head, prev, p);
      ChainsPassTo(all, skipped, base, off, head, prev, p + 1, q);
    }
  }

  /** The hash of four bytes inside a stretch of the data. */
  lemma KeyOf(b: seq<byte>, data: seq<byte>, at: nat, i: nat)
    requires i + 4 <= |b| && at + |b| <= |data| && b == data[at..at + |b|]
    ensures Hash17(Load(b, i, 4)) == Key(data, at + i)
  {
    hide Load, Hash17;
    SliceOfSlice(data, at, |b|, i, 4);
    LoadEqual(b, i, data, at + i, 4);
  }

  // ---------------------------------------------------------------------------------------------
  // More data, and less of it in the window.
  // ---------------------------------------------------------------------------------------------

  /** The positions in front of p that are passed over for good when more data comes: fewer than four bytes were there
      when they were looked at. */
  function PassedOver(n: nat, p: nat): (s: set<nat>)
    ensures forall a: nat :: a in s <==> n - 3 <= a < p
  {
    if p == 0 || p + 2 < n then {} else {p - 1} + PassedOver(n, p - 1)
  }

  lemma {:induction false} PriorLonger(all: seq<byte>, more: seq<byte>, skipped: set<nat>, p: nat, q: nat, h: nat)
    requires p <= q
    ensures Prior(all + more, skipped + PassedOver(|all|, q), p, h) == Prior(all, skipped, p, h)
  {
    if p > 0 {
      HashedLonger(all, more, skipped, p - 1, q);
      PriorLonger(all, more, skipped, p - 1, q, h);
    }
  }

  lemma HashedLonger(all: seq<byte>, more: seq<byte>, skipped: set<nat>, a: nat, q: nat)
    requires a < q
    ensures Hashed(all + more, skipped + PassedOver(|all|, q), a) == Hashed(all, skipped, a)
    ensures a + 4 <= |all| ==> Key(all + more, a) == Key(all, a)
  {
    if a + 4 <= |all| {
      assert (all + more)[a..a + 4] == all[a..a + 4];
      LoadEqual(all + more, a, all, a, 4);
    }
  }

  lemma ChainsLonger(all: seq<byte>, more: seq<byte>, skipped: set<nat>, base: nat, off: nat, head: seq<nat>,
                     prev: seq<nat>, p: nat)
    requires Chains(all, skipped, base, off, head, prev, p)
    ensures Chains(all + more, skipped + PassedOver(|all|, p), base, off, head, prev, p)
  {
    hide Key, Points, PassedOver, Prior;
    var all', skipped' := all + more, skipped + PassedOver(|all|, p);
    forall h | 0 <= h < HASH_SIZE ensures Points(head[h], Prior(all', skipped', p, h), base, off) {
      ChainsHead(all, skipped, base, off, head, prev, p, h);
      PriorLonger(all, more, skipped, p, p, h);
    }
    forall a: nat | base <= a < p <= a + WINDOW && Hashed(all', skipped', a)
      ensures Points(prev[a % WINDOW], Prior(all', skipped', a, Key(all', a)), base, off)
    {
      HashedLonger(all, more, skipped, a, p);
      HashedFits(all, skipped, a);
      ChainsPrev(all, skipped, base, off, head, prev, p, a);
      PriorLonger(all, more, skipped, a, p, Key(all, a));
    }
  }

  lemma HashedFits(all: seq<byte>, skipped: set<nat>, a: nat)
    requires Hashed(all, skipped, a)
    ensures a + 4 <= |all|
  {
  }

  /** The window moves, and positions are counted from further up. */
  lemma ChainsMoved(all: seq<byte>, skipped: set<nat>, base: nat, off: nat, head: seq<nat>, prev: seq<nat>, p: nat,
                    d: nat)
    requires Chains(all, skipped, base, off, head, prev, p)
    ensures Chains(all, skipped, base + d, off + d, head, prev, p)
  {
    hide Key, Hashed, Prior;
  }

  /** Entries lowered by delta, or to nothing. */
  predicate Lowered(was: seq<nat>, now: seq<nat>, delta: nat) {
    |was| == |now| && forall k :: 0 <= k < |now| ==> now[k] == if was[k] > delta then was[k] - delta else 0
  }

  lemma ChainsLowered(all: seq<byte>, skipped: set<nat>, base: nat, off: nat, head: seq<nat>, prev: seq<nat>, p: nat,
                      head': seq<nat>, prev': seq<nat>)
    requires Chains(all, skipped, base, off, head, prev, p) && off > 0
    requires Lowered(head, head', off - 1) && Lowered(prev, prev', off - 1)
    ensures Chains(all, skipped, base, 1, head', prev', p)
  {
    hide Key, Hashed, Prior;
  }

  // ---------------------------------------------------------------------------------------------
  // The candidates.
  // ---------------------------------------------------------------------------------------------

  /** The last positions in front of p that are hashed to h, newest first: from low on, and n at most. */
  function Recent(all: seq<byte>, skipped: set<nat>, p: nat, h: nat, low: nat, n: nat): seq<nat>
    decreases n
  {
    var b := Prior(all, skipped, p, h);
    if n == 0 || b < low then [] else [b as nat] + Recent(all, skipped, b, h, low, n - 1)
  }

  predicate Between(s: seq<nat>, low: nat, p: nat) {
    forall k :: 0 <= k < |s| ==> low <= s[k] < p
  }

  lemma {:induction false} RecentFront(all: seq<byte>, skipped: set<nat>, p: nat, h: nat, low: nat, n: nat)
    ensures Between(Recent(all, skipped, p, h, low, n), low, p)
    decreases n
  {
    hide Key, Hashed;
    var b := Prior(all, skipped, p, h);
    if n > 0 && b >= low { RecentFront(all, skipped, b, h, low, n - 1); }
  }

  /** Positions of the data, as positions in the window. */
  function InWindow(s: seq<nat>, base: nat): seq<int> {
    seq(|s|, k requires 0 <= k < |s| => s[k] - base)
  }

  /** The candidates that are met on the chain are these positions, and no others. */
  lemma {:induction false} ChainIsRecent(all: seq<byte>, skipped: set<nat>, base: nat, off: nat, head: seq<nat>,
                                         prev: seq<nat>, pos: nat, i: nat, h: nat, tries: nat)
    requires Chains(all, skipped, base, off, head, prev, base + pos + 1) && base % WINDOW == 0
    requires MinIndex(pos) <= i < pos && Hashed(all, skipped, base + i) && Key(all, base + i) == h
    requires |prev| == WINDOW && tries > 0
    ensures Candidates(prev, off, pos, i, tries) ==
      InWindow([base + i] + Recent(all, skipped, base + i, h, base + MinIndex(pos), tries - 1), base)
    decreases tries
  {
    hide Key, Hashed, Chains, MinIndex, InWindow;
    var low := base + MinIndex(pos);
    MinIs(pos);
    var b := Prior(all, skipped, base + i, h);
    var rest := Recent(all, skipped, base + i, h, low, tries - 1);
    OneFirst(base + i, rest, base);
    if i > MinIndex(pos) {
      SameEntry(base, i);
      ChainsPrev(all, skipped, base, off, head, prev, base + pos + 1, base + i);
      var next := prev[i % WINDOW] - off;
      if next >= MinIndex(pos) && tries > 1 {
        ChainIsRecent(all, skipped, base, off, head, prev, pos, next, h, tries - 1);
      }
    }
  }

  lemma OneFirst(a: nat, s: seq<nat>, base: nat)
    ensures InWindow([a] + s, base) == [a - base] + InWindow(s, base)
    ensures InWindow([], base) == []
  {
  }

  lemma SameEntry(base: nat, i: nat)
    requires base % WINDOW == 0
    ensures (base + i) % WINDOW == i % WINDOW
  {
  }

  /** If not all of the room for candidates was needed, they are all that there are. */
  lemma {:induction false} RecentAll(all: seq<byte>, skipped: set<nat>, p: nat, h: nat, low: nat, n: nat, a: nat)
    requires |Recent(all, skipped, p, h, low, n)| < n
    requires low <= a < p && Hashed(all, skipped, a) && Key(all, a) == h
    ensures a in Recent(all, skipped, p, h, low, n)
    decreases n
  {
    hide Key, Hashed;
    var b := Prior(all, skipped, p, h);
    if b >= low && a != b { RecentAll(all, skipped, b, h, low, n - 1, a); }
  }

  /** The same from the head of the chain. */
  lemma HeadIsRecent(all: seq<byte>, skipped: set<nat>, base: nat, off: nat, head: seq<nat>, prev: seq<nat>, pos: nat,
                     v: nat, h: nat, tries: nat)
    requires |prev| == WINDOW && Chains(all, skipped, base, off, head, prev, base + pos + 1) && base % WINDOW == 0
    requires Points(v, Prior(all, skipped, base + pos, h), base, off) && MinIndex(pos) <= v - off
    ensures v - off < pos
    ensures Candidates(prev, off, pos, v - off, tries) ==
      InWindow(Recent(all, skipped, base + pos, h, base + MinIndex(pos), tries), base)
  {
    hide Key, Chains, MinIndex;
    if tries > 0 { ChainIsRecent(all, skipped, base, off, head, prev, pos, v - off, h, tries); }
  }

  lemma CandidatesSame(win: seq<byte>, pos: nat, cs: seq<nat>, w: seq<byte>, base: nat, ds: seq<nat>)
    requires pos <= |win| && base + |win| == |w| && w[base..] == win && cs == InWindow(ds, base)
    requires Between(ds, base, base + pos)
    ensures SameCandidates(win, pos, cs, w, base, ds)
  {
  }

  // ---------------------------------------------------------------------------------------------
  // What a search along the chain finds in the data.
  // ---------------------------------------------------------------------------------------------

  /** The result of a search among candidates: the best, or none if none repeats four bytes. */
  ghost predicate BestOf(w: seq<byte>, at: nat, cs: seq<nat>, nice: int, len: nat, off: nat, ok: bool) {
    && at <= |w| && Before(cs, at)
    && if ok then exists k: nat :: Best(w, at, cs, nice, k, len) && cs[k] == at - off else NoneBetter(w, at, cs)
  }

  /** The same with an estimate of what matches save. */
  ghost predicate WorthiestOf(w: seq<byte>, at: nat, raw: nat -> int, cs: seq<nat>, nice: int, len: nat, off: nat,
                              ok: bool) {
    && at <= |w| <= at + MAX_MATCH && Within(cs, at)
    && if ok then exists k: nat :: Worthiest(w, at, raw, cs, nice, k, len) && cs[k] == at - off
       else NoneWorthy(w, at, raw, cs)
  }

  /** The window is a stretch of the data, and the candidates are positions in both. */
  predicate SameCandidates(win: seq<byte>, pos: nat, cs: seq<nat>, w: seq<byte>, base: nat, ds: seq<nat>) {
    && pos <= |win| && base + |win| == |w| && w[base..] == win && |cs| == |ds|
    && forall k :: 0 <= k < |ds| ==> ds[k] == base + cs[k] < base + pos
  }

  lemma BestInWindow(win: seq<byte>, pos: nat, cs: seq<nat>, w: seq<byte>, base: nat, ds: seq<nat>, nice: int, len: nat,
                     off: nat, ok: bool)
    requires SameCandidates(win, pos, cs, w, base, ds) && BestOf(win, pos, cs, nice, len, off, ok)
    ensures BestOf(w, base + pos, ds, nice, len, off, ok)
  {
    hide Common;
    forall k | 0 <= k < |ds| ensures Common(w, base + pos, ds[k]) == Common(win, pos, cs[k]) {
      CommonInWindow(win, w, base, pos, cs[k]);
    }
    if ok {
      var k: nat :| Best(win, pos, cs, nice, k, len) && cs[k] == pos - off;
      assert Best(w, base + pos, ds, nice, k, len) && ds[k] == base + pos - off;
    }
  }

  lemma WorthiestInWindow(win: seq<byte>, pos: nat, raw: nat -> int, cs: seq<nat>, w: seq<byte>, base: nat,
                          ds: seq<nat>, nice: int, len: nat, off: nat, ok: bool)
    requires SameCandidates(win, pos, cs, w, base, ds) && WorthiestOf(win, pos, raw, cs, nice, len, off, ok)
    ensures WorthiestOf(w, base + pos, raw, ds, nice, len, off, ok)
  {
    hide Common, Gain;
    forall k | 0 <= k < |ds| ensures Common(w, base + pos, ds[k]) == Common(win, pos, cs[k]) {
      CommonInWindow(win, w, base, pos, cs[k]);
    }
    if ok {
      var k: nat :| Worthiest(win, pos, raw, cs, nice, k, len) && cs[k] == pos - off;
      assert Worthiest(w, base + pos, raw, ds, nice, k, len) && ds[k] == base + pos - off;
    }
  }

  /** The four bytes at two positions that repeat four bytes have the same hash. */
  lemma SameKey(all: seq<byte>, w: seq<byte>, at: nat, a: nat)
    requires w <= all && a < at <= |w| && Common(w, at, a) > 3
    ensures at + 4 <= |all| && Key(all, a) == Key(all, at)
  {
    hide Load, Hash17;
    var n := Common(w, at, a);
    CommonIs(w, at, a, n);
    assert all[at..at + 4] == w[at..at + n][..4] && all[a..a + 4] == w[a..a + n][..4];
    LoadEqual(all, at, all, a, 4);
  }

  /** If there was room for more candidates, and what was found is not nice, then no hashed position in reach repeats
      more bytes than were found. */
  lemma NothingMissed(all: seq<byte>, skipped: set<nat>, w: seq<byte>, at: nat, low: nat, n: nat, nice: int, len: nat,
                      off: nat, ok: bool, a: nat)
    requires w <= all && at <= |w| && at + 4 <= |all|
    requires BestOf(w, at, Recent(all, skipped, at, Key(all, at), low, n), nice, len, off, ok)
    requires |Recent(all, skipped, at, Key(all, at), low, n)| < n && (ok ==> len < nice)
    requires low <= a < at && Hashed(all, skipped, a)
    ensures Common(w, at, a) <= if ok then len else 3
  {
    hide Common, Recent, Hashed, Key;
    if Common(w, at, a) > 3 {
      var cs := Recent(all, skipped, at, Key(all, at), low, n);
      SameKey(all, w, at, a);
      RecentAll(all, skipped, at, Key(all, at), low, n, a);
      var j: nat :| j < |cs| && cs[j] == a;
      if ok {
        var k: nat :| Best(w, at, cs, nice, k, len) && cs[k] == at - off;
        assert j < k || j == k || k < j;
      }
    }
  }
}
