/** What the fast match finders look up: the position stored last under a key. Tables, position counters that start
    anew, and windows that move are ways to keep such a log. */
module FastLog {
  import opened Words
  import opened MatchLen
  import opened FastGen

  /** How many bytes are hashed: five (level 1), or four and seven (level 6). */
  datatype Kind = Four | Five | Seven

  function Width(kind: Kind): nat {
    match kind
    case Four => 4
    case Five => 5
    case Seven => 7
  }

  function HashOf(kind: Kind, u: nat): (k: nat)
    ensures k < TABLE_SIZE
  {
    match kind
    case Four => Hash4(u)
    case Five => Hash5(u)
    case Seven => Hash7(u)
  }

  /** The key of the bytes at p. */
  function Key(kind: Kind, d: seq<byte>, p: nat): (k: nat)
    requires p + Width(kind) <= |d|
    ensures k < TABLE_SIZE
  {
    HashOf(kind, Load(d, p, Width(kind)))
  }

  /** Only so many bytes count. */
  lemma HashLow(kind: Kind, u: nat)
    ensures Pow2(8 * Width(kind)) > 0 && HashOf(kind, u) == HashOf(kind, u % Pow2(8 * Width(kind)))
  {
    Pow2Widths();
    var w: nat := Pow2(8 * Width(kind));
    var q, r := u / w, u % w;
    match kind
    case Four => assert r % 0x1_0000_0000 == r;
    case Five =>
      assert u * 0x100_0000 == q * 0x1_0000_0000_0000_0000 + r * 0x100_0000;
      DivUnique(u * 0x100_0000, q, r * 0x100_0000, 0x1_0000_0000_0000_0000);
      DivUnique(r * 0x100_0000, 0, r * 0x100_0000, 0x1_0000_0000_0000_0000);
    case Seven =>
      assert u * 0x100 == q * 0x1_0000_0000_0000_0000 + r * 0x100;
      DivUnique(u * 0x100, q, r * 0x100, 0x1_0000_0000_0000_0000);
      DivUnique(r * 0x100, 0, r * 0x100, 0x1_0000_0000_0000_0000);
  }

  lemma Pow2Widths()
    ensures Pow2(32) == 0x1_0000_0000 && Pow2(40) == 0x100_0000_0000 && Pow2(56) == 0x100_0000_0000_0000
  {
    Pow2Values();
    Pow2Add(32, 8);
    Pow2Add(40, 16);
  }

  /** The low bytes of a loaded word. */
  lemma {:induction false} LoadLowBytes(b: seq<byte>, i: nat, n: nat, k: nat)
    requires k <= n && i + n <= |b|
    ensures Pow2(8 * k) > 0 && Load(b, i, n) % Pow2(8 * k) == Load(b, i, k)
    decreases k
  {
    if k > 0 {
      LoadLowBytes(b, i + 1, n - 1, k - 1);
      Pow2Byte(k - 1);
      var p := Pow2(8 * (k - 1));
      var z := Load(b, i + 1, n - 1);
      LowByte(b[i], z, p);
    }
  }

  lemma LowByte(x: nat, z: nat, p: nat)
    requires x < 0x100 && p > 0
    ensures (x + 0x100 * z) % (0x100 * p) == x + 0x100 * (z % p)
  {
    var q, r := z / p, z % p;
    MulAdd(0, 0x100, r);
    assert z == q * p + r;
    assert x + 0x100 * z == q * (0x100 * p) + (x + 0x100 * r);
    DivUnique(x + 0x100 * z, q, x + 0x100 * r, 0x100 * p);
  }

  /** The hash of a word is the key of the bytes that it starts with. */
  lemma WordKey(kind: Kind, b: seq<byte>, i: nat, n: nat)
    requires Width(kind) <= n && i + n <= |b|
    ensures HashOf(kind, Load(b, i, n)) == Key(kind, b, i)
  {
    hide HashOf, Load;
    LoadLowBytes(b, i, n, Width(kind));
    HashLow(kind, Load(b, i, n));
  }

  /** The key in the history is the key in all data. */
  lemma SameKey(kind: Kind, h: seq<byte>, s: nat, d: seq<byte>, base: nat)
    requires s + Width(kind) <= |h| && base + |h| == |d| && h == d[base..]
    ensures Key(kind, h, s) == Key(kind, d, base + s)
  {
    hide Load, HashOf;
    assert h[s..s + Width(kind)] == d[base + s..base + s + Width(kind)];
    LoadEqual(h, s, d, base + s, Width(kind));
  }

  /** The position stored last under k; -1 if there is none. */
  function Last(kind: Kind, d: seq<byte>, log: seq<nat>, k: nat): (p: int)
    ensures p == -1 || (p in log && p + Width(kind) <= |d| && Key(kind, d, p) == k)
  {
    if log == [] then -1
    else
      var p := log[|log| - 1];
      if p + Width(kind) <= |d| && Key(kind, d, p) == k then p else Last(kind, d, log[..|log| - 1], k)
  }

  /** The one stored before it under k. */
  function Before(kind: Kind, d: seq<byte>, log: seq<nat>, k: nat): (p: int)
    ensures p == -1 || p in log
  {
    if log == [] then -1
    else
      var p, rest := log[|log| - 1], log[..|log| - 1];
      if p + Width(kind) <= |d| && Key(kind, d, p) == k then Last(kind, d, rest, k) else Before(kind, d, rest, k)
  }

  lemma LastAdd(kind: Kind, d: seq<byte>, log: seq<nat>, p: nat, k: nat)
    ensures Last(kind, d, log + [p], k) ==
      if p + Width(kind) <= |d| && Key(kind, d, p) == k then p else Last(kind, d, log, k)
    ensures Before(kind, d, log + [p], k) ==
      if p + Width(kind) <= |d| && Key(kind, d, p) == k then Last(kind, d, log, k) else Before(kind, d, log, k)
  {
    assert (log + [p])[..|log|] == log;
  }

  /** Eight bytes are there at every position of the log. */
  predicate Inside(d: seq<byte>, log: seq<nat>) {
    forall i :: 0 <= i < |log| ==> log[i] + 8 <= |d|
  }

  lemma {:induction false} LastLonger(kind: Kind, d: seq<byte>, more: seq<byte>, log: seq<nat>, k: nat)
    requires Inside(d, log)
    ensures Last(kind, d + more, log, k) == Last(kind, d, log, k)
    ensures Before(kind, d + more, log, k) == Before(kind, d, log, k)
  {
    hide HashOf, Load;
    if log != [] {
      var p, w := log[|log| - 1], Width(kind);
      assert (d + more)[p..p + w] == d[p..p + w];
      LoadEqual(d + more, p, d, p, w);
      assert forall i :: 0 <= i < |log[..|log| - 1]| ==> log[..|log| - 1][i] == log[i];
      LastLonger(kind, d, more, log[..|log| - 1], k);
    }
  }

  /** The entries were stored at the positions that the log gives for their keys. */
  predicate Keyed(kind: Kind, at: seq<int>, d: seq<byte>, log: seq<nat>) {
    |at| == TABLE_SIZE && Inside(d, log) && forall k :: 0 <= k < TABLE_SIZE ==> at[k] == Last(kind, d, log, k)
  }

  lemma KeyedStore(kind: Kind, at: seq<int>, d: seq<byte>, log: seq<nat>, p: nat)
    requires Keyed(kind, at, d, log) && p + 8 <= |d|
    ensures Keyed(kind, at[Key(kind, d, p) := p], d, log + [p])
  {
    hide HashOf, Load;
    forall k | 0 <= k < TABLE_SIZE ensures at[Key(kind, d, p) := p][k] == Last(kind, d, log + [p], k) {
      LastAdd(kind, d, log, p, k);
    }
  }

  lemma KeyedLonger(kind: Kind, at: seq<int>, d: seq<byte>, more: seq<byte>, log: seq<nat>)
    requires Keyed(kind, at, d, log)
    ensures Keyed(kind, at, d + more, log)
  {
    hide Last;
    forall k | 0 <= k < TABLE_SIZE ensures at[k] == Last(kind, d + more, log, k) {
      LastLonger(kind, d, more, log, k);
    }
  }

  lemma KeyedNone(kind: Kind, at: seq<int>)
    requires |at| == TABLE_SIZE && forall k :: 0 <= k < TABLE_SIZE ==> at[k] == -1
    ensures Keyed(kind, at, [], [])
  {
  }

  /** Nothing has been stored that is not there. */
  lemma KeyedInside(kind: Kind, at: seq<int>, d: seq<byte>, log: seq<nat>, k: nat)
    requires Keyed(kind, at, d, log) && k < TABLE_SIZE
    ensures at[k] == Last(kind, d, log, k) < |d|
  {
  }

  // ---------------------------------------------------------------------------------------------
  // Entries and positions.
  // ---------------------------------------------------------------------------------------------

  /** The entry denotes the position where it was stored, or that is gone from the history, or too far back for anything
      after from. */
  predicate Mirror(v: int, at: int, cur: int, base: int, from: int) {
    if v - cur >= 0 then at == base + v - cur else at < base || at - base + MAX_OFFSET <= from
  }

  predicate Mirrors(table: seq<int>, at: seq<int>, cur: int, base: int, from: int) {
    |at| == |table| && forall k :: 0 <= k < |table| ==> Mirror(table[k], at[k], cur, base, from)
  }

  lemma MirrorsAt(table: seq<int>, at: seq<int>, cur: int, base: int, from: int, k: nat)
    requires Mirrors(table, at, cur, base, from) && k < |table|
    ensures Mirror(table[k], at[k], cur, base, from)
  {
  }

  lemma MirrorsStore(table: seq<int>, at: seq<int>, cur: int, base: int, from: int, k: nat, pos: nat)
    requires Mirrors(table, at, cur, base, from) && k < |table|
    ensures Mirrors(table[k := pos + cur], at[k := base + pos], cur, base, from)
  {
  }

  lemma MirrorsLater(table: seq<int>, at: seq<int>, cur: int, base: int, from: int, from': int)
    requires Mirrors(table, at, cur, base, from) && from <= from'
    ensures Mirrors(table, at, cur, base, from')
  {
  }

  /** The history loses d bytes in front. */
  lemma MirrorsMoved(table: seq<int>, at: seq<int>, cur: int, base: int, from: int, d: nat)
    requires Mirrors(table, at, cur, base, from)
    ensures Mirrors(table, at, cur + d, base + d, from - d)
  {
  }

  /** All that was stored lies in front of the history. */
  lemma MirrorsGone(table: seq<int>, at: seq<int>, cur: int, base: int, from: int)
    requires |at| == |table| && forall k :: 0 <= k < |table| ==> table[k] < cur && at[k] < base
    ensures Mirrors(table, at, cur, base, from)
  {
  }

  lemma MirrorRebased(v: int, at: int, cur: int, base: int, s: nat)
    requires Mirror(v, at, cur, base, s)
    ensures Mirror(Rebased(v, cur, s), at, MAX_OFFSET, base, s)
  {
  }

  lemma MirrorsRebased(was: seq<int>, now: seq<int>, at: seq<int>, cur: int, base: int, s: nat)
    requires Mirrors(was, at, cur, base, s) && |now| == |was|
    requires forall k :: 0 <= k < |now| ==> now[k] == Rebased(was[k], cur, s)
    ensures Mirrors(now, at, MAX_OFFSET, base, s)
  {
    hide Mirror, Rebased;
    forall k | 0 <= k < |now| ensures Mirror(now[k], at[k], MAX_OFFSET, base, s) {
      MirrorRebased(was[k], at[k], cur, base, s);
    }
  }

  /** Position t, counted from the history's first byte, can be copied from at s, and repeats four bytes there. */
  predicate Near(h: seq<byte>, s: nat, t: int, reach: nat) {
    s + 4 <= |h| && 0 <= t < s <= t + reach && h[s..s + 4] == h[t..t + 4]
  }

  lemma NearWider(h: seq<byte>, s: nat, t: int)
    requires Near(h, s, t, MAX_OFFSET - 1)
    ensures Near(h, s, t, MAX_OFFSET)
  {
  }

  lemma NearInside(h: seq<byte>, s: nat, t: int, reach: nat)
    requires Near(h, s, t, reach)
    ensures 0 <= t < s && s + 4 <= |h|
  {
  }
}
