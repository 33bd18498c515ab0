/** The most thorough of the fast match finders (level 6): a table keyed by four bytes, a table with two
    candidates keyed by seven, the last distance, and a second look at where a match ends. */
module Level6 {
  import opened Words
  import opened Lz
  import opened Tokens
  import opened TokenBuffer
  import opened MatchLen
  import opened Covering
  import opened FastGen
  import opened FastLog
  import opened FastMatch

  datatype Pair = Pair(cur: int, prev: int)

  /** Where in everything appended so far the entries of both tables were stored. */
  datatype Marks = Marks(short: seq<int>, long: seq<Pair>)

  /** Both entries of a bucket are harmless and in place. */
  predicate SoundPair(v: Pair, at: Pair, cur: int, base: int, s: int) {
    && Harmless(v.cur, cur, s) && Harmless(v.prev, cur, s)
    && Placed(v.cur, at.cur, cur, base) && Placed(v.prev, at.prev, cur, base)
  }

  predicate SoundPairs(table: seq<Pair>, at: seq<Pair>, cur: int, base: int, s: int) {
    |at| == |table| && forall k :: 0 <= k < |table| ==> SoundPair(table[k], at[k], cur, base, s)
  }

  /** Both tables of the match finder are sound. */
  predicate BothSound(short: seq<int>, long: seq<Pair>, at: Marks, cur: int, base: int, s: int) {
    Sound(short, at.short, cur, base, s) && SoundPairs(long, at.long, cur, base, s)
  }

  lemma BothLater(short: seq<int>, long: seq<Pair>, at: Marks, cur: int, base: int, s: int, s': int)
    requires BothSound(short, long, at, cur, base, s) && s <= s'
    ensures BothSound(short, long, at, cur, base, s')
  {
    SoundLater(short, at.short, cur, base, s, s');
    forall k | 0 <= k < |long| ensures SoundPair(long[k], at.long[k], cur, base, s') {
      assert SoundPair(long[k], at.long[k], cur, base, s);
    }
  }

  lemma BothAt(short: seq<int>, long: seq<Pair>, at: Marks, cur: int, base: int, s: int, i: nat, j: nat)
    requires BothSound(short, long, at, cur, base, s) && i < |short| && j < |long|
    ensures Harmless(short[i], cur, s) && Harmless(long[j].cur, cur, s) && Harmless(long[j].prev, cur, s)
  {
    assert SoundPair(long[j], at.long[j], cur, base, s);
  }

  lemma BothMoved(short: seq<int>, long: seq<Pair>, at: Marks, cur: int, base: int, s: nat, d: nat)
    requires BothSound(short, long, at, cur, base, s) && (d == 0 || s - d == MAX_OFFSET)
    ensures BothSound(short, long, at, cur + d, base + d, s - d)
  {
    SoundMoved(short, at.short, cur, base, s, d);
    forall k | 0 <= k < |long| ensures SoundPair(long[k], at.long[k], cur + d, base + d, s - d) {
      assert SoundPair(long[k], at.long[k], cur, base, s);
    }
  }

  lemma BothReset(short: seq<int>, long: seq<Pair>, at: Marks, cur: int, base: int, s: nat)
    requires BothSound(short, long, at, cur, base, s)
    ensures BothSound(short, long, at, cur + MAX_OFFSET + s, base + s, 0)
  {
    SoundReset(short, at.short, cur, base, s);
    forall k | 0 <= k < |long| ensures SoundPair(long[k], at.long[k], cur + MAX_OFFSET + s, base + s, 0) {
      assert SoundPair(long[k], at.long[k], cur, base, s);
    }
  }

  lemma PairsStore(table: seq<Pair>, at: seq<Pair>, cur: int, base: int, s: int, k: nat, pos: nat, s': int)
    requires SoundPairs(table, at, cur, base, s) && k < |table| && cur >= 0 && s <= s' && pos < s' &&
      pos + cur <= MAX_INT32
    ensures SoundPairs(table[k := Pair(pos + cur, table[k].cur)], at[k := Pair(base + pos, at[k].cur)], cur, base, s')
  {
    var t, a := table[k := Pair(pos + cur, table[k].cur)], at[k := Pair(base + pos, at[k].cur)];
    forall i | 0 <= i < |t| ensures SoundPair(t[i], a[i], cur, base, s') {
      assert SoundPair(table[i], at[i], cur, base, s);
      if i != k { assert t[i] == table[i] && a[i] == at[i]; }
    }
  }

  lemma NothingPairs(n: nat, table: seq<Pair>, at: seq<Pair>, base: int)
    requires |table| == |at| == n && forall k :: 0 <= k < n ==> table[k] == Pair(0, 0)
    ensures SoundPairs(table, at, MAX_STORE, base, 0) && SoundPairs(table, at, MAX_OFFSET, base, 0)
  {
  }

  function RebasedPair(v: Pair, cur: int, s: nat): Pair {
    var c := Rebased(v.cur, cur, s);
    Pair(c, if v.cur <= cur + s - MAX_OFFSET then 0 else Rebased(v.prev, cur, s))
  }

  // ---------------------------------------------------------------------------------------------
  // The matches, from the logs of the positions stored.
  // ---------------------------------------------------------------------------------------------

  /** The positions stored under keys of four and of seven bytes. */
  datatype Logs = Logs(short: seq<nat>, long: seq<nat>)

  function AddBoth(logs: Logs, p: nat): Logs {
    Logs(logs.short + [p], logs.long + [p])
  }

  /** The position stored last under the key of the four bytes at s, counted from the start of the history h, which is
      the end of d; */
  function ShortAt(h: seq<byte>, d: seq<byte>, base: nat, logs: Logs, s: nat): int
    requires s + 8 <= |h|
  {
    Last(Four, d, logs.short, Key(Four, h, s)) - base
  }

  /** the last one under the key of the seven bytes, */
  function LongAt(h: seq<byte>, d: seq<byte>, base: nat, logs: Logs, s: nat): int
    requires s + 8 <= |h|
  {
    Last(Seven, d, logs.long, Key(Seven, h, s)) - base
  }

  /** and the last but one. */
  function LongBefore(h: seq<byte>, d: seq<byte>, base: nat, logs: Logs, s: nat): int
    requires s + 8 <= |h|
  {
    Before(Seven, d, logs.long, Key(Seven, h, s)) - base
  }

  const REACH: nat := MAX_OFFSET - 1

  /** How long four bytes that agree go on, up to the longest match. */
  function Length(h: seq<byte>, s: nat, t: nat): (l: nat)
    requires Near(h, s, t, MAX_OFFSET)
    ensures 4 <= l <= MAX_MATCH
  {
    var n := Common(h, s + 4, t + 4);
    4 + if n < MAX_MATCH - 4 then n else MAX_MATCH - 4
  }

  /** A match; of length 0 if it has not been measured. */
  datatype Cand = Cand(s: nat, t: nat, l: nat)

  /** Four bytes agree, or as many as have been measured. */
  predicate Agreed(h: seq<byte>, m: Cand) {
    (m.l == 0 || m.l >= 4) && Match(h, m.s, m.t, if m.l == 0 then 4 else m.l)
  }

  /** The longer of a match and another candidate. */
  function LongerOf(h: seq<byte>, m: Cand, s: nat, t: int): Cand {
    if Near(h, s, t, REACH) && Length(h, s, t) > m.l then Cand(s, t, Length(h, s, t)) else m
  }

  /** With two candidates in the long table, the longer; a single one is not measured yet. */
  function OfLong(h: seq<byte>, s: nat, a: int, b: int): Cand
    requires Near(h, s, a, REACH)
  {
    if Near(h, s, b, REACH) then LongerOf(h, Cand(s, a, Length(h, s, a)), s, b) else Cand(s, a, 0)
  }

  /** A candidate of the short table. If the last distance gives a longer match one further on, that is taken; otherwise
      the longest among it and the long candidates at the next position. */
  function OfShort(h: seq<byte>, s: nat, c: int, repeat: nat, next: nat, a: int, b: int): Cand
    requires Near(h, s, c, REACH)
  {
    var m, r := Cand(s, c, Length(h, s, c)), s + 1 - repeat;
    if Near(h, s + 1, r, MAX_OFFSET) && Length(h, s + 1, r) > m.l then Cand(s + 1, r, Length(h, s + 1, r))
    else LongerOf(h, LongerOf(h, m, next, a), next, b)
  }

  datatype Probe = Hit(m: Cand, next: nat, logs: Logs) | Miss(logs: Logs)

  /** What is found at s: the long candidates come first, then the short one. Both positions are stored after a hit, and
      s otherwise. */
  function At(h: seq<byte>, d: seq<byte>, base: nat, logs: Logs, s: nat, next: nat, repeat: nat): Probe
    requires s + 8 <= |h| && next + 8 <= |h|
  {
    var a, b, c := LongAt(h, d, base, logs, s), LongBefore(h, d, base, logs, s), ShortAt(h, d, base, logs, s);
    var logs' := AddBoth(logs, base + s);
    if Near(h, s, a, REACH) then Hit(OfLong(h, s, a, b), next, AddBoth(logs', base + next))
    else if Near(h, s, b, REACH) then Hit(Cand(s, b, 0), next, AddBoth(logs', base + next))
    else if Near(h, s, c, REACH) then
      var a', b' := LongAt(h, d, base, logs', next), LongBefore(h, d, base, logs', next);
      Hit(OfShort(h, s, c, repeat, next, a', b'), next, AddBoth(logs', base + next))
    else Miss(logs')
  }

  /** The search from s on, in steps that grow the longer nothing is found. */
  function Probes(h: seq<byte>, d: seq<byte>, base: nat, logs: Logs, s: nat, emit: nat, repeat: nat): (r: Probe)
    requires emit <= s
    ensures r.Hit? && 1 <= repeat ==> Agreed(h, r.m) && s <= r.m.s <= r.next <= |h| - INPUT_MARGIN
    decreases |h| + INPUT_MARGIN - s
  {
    var next := s + 1 + (s - emit) / 128;
    if next > |h| - INPUT_MARGIN then Miss(logs)
    else
      AtAgrees(h, d, base, logs, s, next, repeat);
      match At(h, d, base, logs, s, next, repeat)
      case Hit(m, n, l) => Hit(m, n, l)
      case Miss(logs') => Probes(h, d, base, logs', next, emit, repeat)
  }

  lemma LengthAgrees(h: seq<byte>, s: nat, t: nat)
    requires Near(h, s, t, MAX_OFFSET)
    ensures Match(h, s, t, Length(h, s, t))
  {
    hide Common, Match;
    NearMatch(h, s, t);
    var n := Common(h, s + 4, t + 4);
    CommonIs(h, s + 4, t + 4, n);
    var m := Length(h, s, t) - 4;
    assert h[s + 4..s + 4 + m] == h[s + 4..s + 4 + n][..m] && h[t + 4..t + 4 + m] == h[t + 4..t + 4 + n][..m];
    MatchJoin(h, s, t, 4, m);
  }

  lemma LongerAgrees(h: seq<byte>, m: Cand, s: nat, t: int)
    requires Agreed(h, m) && m.l >= 4
    ensures var r := LongerOf(h, m, s, t); Agreed(h, r) && r.l >= 4 && (r == m || r.s == s)
  {
    hide Length, Match;
    if Near(h, s, t, REACH) { LengthAgrees(h, s, t); }
  }

  lemma AtAgrees(h: seq<byte>, d: seq<byte>, base: nat, logs: Logs, s: nat, next: nat, repeat: nat)
    requires s < next && next + 8 <= |h|
    ensures var r := At(h, d, base, logs, s, next, repeat);
      r.Hit? && 1 <= repeat ==> Agreed(h, r.m) && s <= r.m.s <= r.next == next
  {
    hide Length, Match, Near, LongAt, LongBefore, ShortAt, LongerOf;
    var a, b, c := LongAt(h, d, base, logs, s), LongBefore(h, d, base, logs, s), ShortAt(h, d, base, logs, s);
    if Near(h, s, a, REACH) {
      NearWider(h, s, a);
      NearMatch(h, s, a);
      LengthAgrees(h, s, a);
      LongerAgrees(h, Cand(s, a, Length(h, s, a)), s, b);
    } else if Near(h, s, b, REACH) {
      NearWider(h, s, b);
      NearMatch(h, s, b);
    } else if Near(h, s, c, REACH) {
      var logs' := AddBoth(logs, base + s);
      var a', b' := LongAt(h, d, base, logs', next), LongBefore(h, d, base, logs', next);
      NearWider(h, s, c);
      NearInside(h, s, c, MAX_OFFSET);
      LengthAgrees(h, s, c);
      var m, r := Cand(s, c, Length(h, s, c)), s + 1 - repeat;
      if Near(h, s + 1, r, MAX_OFFSET) {
        NearInside(h, s + 1, r, MAX_OFFSET);
        LengthAgrees(h, s + 1, r);
      }
      LongerAgrees(h, m, next, a');
      LongerAgrees(h, LongerOf(h, m, next, a'), next, b');
    }
  }

  /** A candidate for a match that ends where the present one does, or later. */
  function OneEnd(h: seq<byte>, m: Cand, s: nat, t: int): Cand {
    if 0 <= t < s < t + MAX_OFFSET && s <= |h| && Common(h, s, t) > m.l then Cand(s, t, Common(h, s, t)) else m
  }

  /** Both positions stored last under the key of what follows a match are tried, from two bytes into it on. */
  function BestEnd(h: seq<byte>, d: seq<byte>, base: nat, logs: Logs, m: Cand): Cand {
    var e := m.s + m.l;
    if e < |h| - INPUT_MARGIN then
      var m' := OneEnd(h, m, m.s + 2, LongAt(h, d, base, logs, e) - m.l + 2);
      OneEnd(h, m', m.s + 2, LongBefore(h, d, base, logs, e) - m'.l + 2)
    else m
  }

  /** A match as far as it goes. */
  function Measured(h: seq<byte>, m: Cand): Cand
    requires Agreed(h, m)
  {
    if m.l == 0 || m.l == MAX_MATCH then m.(l := 4 + Common(h, m.s + 4, m.t + 4)) else m
  }

  /** Every second position from i on that has eight bytes. */
  function Tail(logs: Logs, base: nat, i: nat, end: int): Logs
    decreases end - i
  {
    if i < end then Tail(AddBoth(logs, base + i), base, i + 2, end) else logs
  }

  /** Every position between i and s in the long log, and every second in the short one. */
  function Between(logs: Logs, base: nat, i: nat, s: nat): Logs
    decreases s - i
  {
    if i < s - 1 then
      Between(Logs(logs.short + [base + i], logs.long + [base + i] + [base + i + 1]), base, i + 2, s)
    else logs
  }

  datatype Run = Run(tokens: seq<nat>, more: bool, emit: nat, s: nat, repeat: nat, logs: Logs)

  /** A match is taken: its tokens, and where the search goes on. */
  function Taken(h: seq<byte>, d: seq<byte>, base: nat, logs: Logs, emit: nat, m: Cand, next: nat): (r: Run)
    requires Agreed(h, m) && emit <= m.s
    ensures r.tokens != [] && r.emit <= |h| && r.emit <= r.s && m.s < r.s && r.repeat >= 1
  {
    var n := BestEnd(h, d, base, logs, Measured(h, m));
    BestEndAgrees(h, d, base, logs, m);
    MatchTokensAny(h, emit, n.s, n.t, n.l);
    var e := n.s + n.l;
    var s := if next >= e then next + 1 else e;
    if s >= |h| - INPUT_MARGIN then
      Run(MatchTokens(h, emit, n.s, n.t, n.l), false, e, s, n.s - n.t, Tail(logs, base, next + 1, |h| - 8))
    else Run(MatchTokens(h, emit, n.s, n.t, n.l), true, e, s, n.s - n.t, Between(logs, base, next + 1, s))
  }

  /** What a block is turned into, and the logs. */
  datatype Result = Result(tokens: seq<nat>, logs: Logs)

  /** All the matches of a block from s on; what is left follows as literals, unless nothing was found at all. */
  function Encoded(h: seq<byte>, d: seq<byte>, base: nat, logs: Logs, emit: nat, s: nat, repeat: nat,
                   ts: seq<nat>): Result
    requires emit <= s && emit <= |h| && repeat >= 1
    decreases |h| + INPUT_MARGIN - s
  {
    match Probes(h, d, base, logs, s, emit, repeat)
    case Miss(logs') => Result(if ts == [] then [] else ts + Plain(h[emit..]), logs')
    case Hit(m, next, logs') =>
      var r := Taken(h, d, base, logs', emit, m, next);
      if r.more then Encoded(h, d, base, r.logs, r.emit, r.s, r.repeat, ts + r.tokens)
      else Result(ts + r.tokens + Plain(h[r.emit..]), r.logs)
  }

  lemma {:induction false} EncodedMore(h: seq<byte>, d: seq<byte>, base: nat, logs: Logs, emit: nat, s: nat,
                                       repeat: nat, ts: seq<nat>)
    requires emit <= s && emit <= |h| && repeat >= 1 && ts != []
    ensures Encoded(h, d, base, logs, emit, s, repeat, ts).tokens != []
    decreases |h| + INPUT_MARGIN - s
  {
    hide Probes, Taken, Agreed;
    var p := Probes(h, d, base, logs, s, emit, repeat);
    if p.Hit? {
      var r := Taken(h, d, base, p.logs, emit, p.m, p.next);
      if r.more { EncodedMore(h, d, base, r.logs, r.emit, r.s, r.repeat, ts + r.tokens); }
    }
  }

  /** In zeros something is found at the second position at the latest: the first. */
  lemma ZerosHit(h: seq<byte>, d: seq<byte>, base: nat, logs: Logs, s: nat)
    requires ZerosFrom(h, s) && s + MIN_BLOCK <= |h| && base + |h| == |d| && h == d[base..]
    ensures Encoded(h, d, base, logs, s, s, 1, []).tokens != []
  {
    hide Key, Taken, Agreed, OfLong, OfShort, At;
    var next, logs' := s + 1, AddBoth(logs, base + s);
    ZerosAt(h, d, base, logs, s);
    ProbesUnfold(h, d, base, logs, s, s, 1);
    ProbesUnfold(h, d, base, logs', next, s, 1);
    var p := Probes(h, d, base, logs, s, s, 1);
    var r := Taken(h, d, base, p.logs, s, p.m, p.next);
    assert [] + r.tokens == r.tokens;
    if r.more { EncodedMore(h, d, base, r.logs, r.emit, r.s, r.repeat, r.tokens); }
  }

  lemma ZerosAt(h: seq<byte>, d: seq<byte>, base: nat, logs: Logs, s: nat)
    requires ZerosFrom(h, s) && s + MIN_BLOCK <= |h| && base + |h| == |d| && h == d[base..]
    ensures var r := At(h, d, base, logs, s, s + 1, 1);
      r.Hit? || (r.logs == AddBoth(logs, base + s) && At(h, d, base, r.logs, s + 1, s + 2, 1).Hit?)
  {
    hide OfLong, OfShort, LongAt, LongBefore, ShortAt, Near;
    ZerosNear(h, d, base, logs, s);
    NearInside(h, s + 1, s, REACH);
  }

  lemma ZerosNear(h: seq<byte>, d: seq<byte>, base: nat, logs: Logs, s: nat)
    requires ZerosFrom(h, s) && s + MIN_BLOCK <= |h| && base + |h| == |d| && h == d[base..]
    ensures LongAt(h, d, base, AddBoth(logs, base + s), s + 1) == s && Near(h, s + 1, s, REACH)
  {
    hide HashOf, Load;
    var next := s + 1;
    ZeroWord(h, s, s, 7);
    ZeroWord(h, s, next, 7);
    SameKey(Seven, h, s, d, base);
    LastAdd(Seven, d, logs.long, base + s, Key(Seven, h, next));
    assert h[next..next + 4] == h[s..s + 4];
  }

  lemma ProbesUnfold(h: seq<byte>, d: seq<byte>, base: nat, logs: Logs, s: nat, emit: nat, repeat: nat)
    requires emit <= s
    ensures var next := s + 1 + (s - emit) / 128;
      if next > |h| - INPUT_MARGIN then Probes(h, d, base, logs, s, emit, repeat) == Miss(logs)
      else
        var r := At(h, d, base, logs, s, next, repeat);
        Probes(h, d, base, logs, s, emit, repeat) ==
          if r.Hit? then r else Probes(h, d, base, r.logs, next, emit, repeat)
  {
    hide Agreed;
    var next := s + 1 + (s - emit) / 128;
    if next <= |h| - INPUT_MARGIN { AtAgrees(h, d, base, logs, s, next, repeat); }
  }

  lemma TakenIs(h: seq<byte>, d: seq<byte>, base: nat, logs: Logs, emit: nat, m: Cand, next: nat)
    requires Agreed(h, m) && emit <= m.s
    ensures var n := BestEnd(h, d, base, logs, Measured(h, m));
      && n.l >= 4 && Match(h, n.s, n.t, n.l) && emit <= n.s && n.t < n.s <= n.t + MAX_OFFSET && n.s + n.l <= |h|
      && var e := n.s + n.l;
        var s := if next >= e then next + 1 else e;
        Taken(h, d, base, logs, emit, m, next) ==
          if s >= |h| - INPUT_MARGIN then
            Run(MatchTokens(h, emit, n.s, n.t, n.l), false, e, s, n.s - n.t, Tail(logs, base, next + 1, |h| - 8))
          else Run(MatchTokens(h, emit, n.s, n.t, n.l), true, e, s, n.s - n.t, Between(logs, base, next + 1, s))
  {
    hide BestEnd, Measured, MatchTokens, Tail, Between;
    BestEndAgrees(h, d, base, logs, m);
  }

  lemma MeasuredAgrees(h: seq<byte>, m: Cand)
    requires Agreed(h, m)
    ensures var n := Measured(h, m); n.l >= 4 && Match(h, n.s, n.t, n.l) && n.s == m.s && n.t == m.t
    ensures m.l == MAX_MATCH ==> Measured(h, m).l == m.l + Common(h, m.s + m.l, m.t + m.l)
  {
    hide Common, Match;
    MatchInside(h, m.s, m.t, if m.l == 0 then 4 else m.l);
    var n := Common(h, m.s + 4, m.t + 4);
    CommonIs(h, m.s + 4, m.t + 4, n);
    if m.l == 0 {
      MatchJoin(h, m.s, m.t, 4, n);
    } else if m.l == MAX_MATCH {
      MatchGoesOn(h, m.s, m.t, m.l);
    }
  }

  lemma MatchGoesOn(h: seq<byte>, s: nat, t: nat, l: nat)
    requires Match(h, s, t, l) && l >= 4
    ensures Common(h, s + 4, t + 4) == l - 4 + Common(h, s + l, t + l)
    ensures Match(h, s, t, l + Common(h, s + l, t + l))
  {
    hide Common;
    var r := Common(h, s + l, t + l);
    assert h[s + 4..s + l] == h[s..s + l][4..] && h[t + 4..t + l] == h[t..t + l][4..];
    CommonFrom(h, s + 4, t + 4, l - 4);
    CommonIs(h, s + l, t + l, r);
    MatchJoin(h, s, t, l, r);
  }

  // ---------------------------------------------------------------------------------------------
  // The tables that keep the logs.
  // ---------------------------------------------------------------------------------------------

  predicate MirrorPair(v: Pair, at: Pair, cur: int, base: int, from: int) {
    Mirror(v.cur, at.cur, cur, base, from) && Mirror(v.prev, at.prev, cur, base, from)
  }

  /** The entries denote the positions where they were stored, if these are in reach from from on. */
  predicate BothMirror(short: seq<int>, long: seq<Pair>, at: Marks, cur: int, base: int, from: int) {
    && Mirrors(short, at.short, cur, base, from)
    && |at.long| == |long| && forall k :: 0 <= k < |long| ==> MirrorPair(long[k], at.long[k], cur, base, from)
  }

  predicate Rising(log: seq<nat>, top: int) {
    (forall i, j :: 0 <= i < j < |log| ==> log[i] < log[j]) && forall i :: 0 <= i < |log| ==> log[i] < top
  }

  /** These positions are those stored last under their keys; in the long table, the last two. */
  predicate PairsKeyed(at: seq<Pair>, d: seq<byte>, log: seq<nat>) {
    && |at| == TABLE_SIZE && Inside(d, log)
    && forall k :: 0 <= k < TABLE_SIZE ==> at[k] == Pair(Last(Seven, d, log, k), Before(Seven, d, log, k))
  }

  predicate BothKeyed(at: Marks, d: seq<byte>, logs: Logs, top: int) {
    Keyed(Four, at.short, d, logs.short) && PairsKeyed(at.long, d, logs.long) && Rising(logs.long, top)
  }

  /** In a rising log, what was stored before comes before. */
  lemma {:induction false} BeforeLess(d: seq<byte>, log: seq<nat>, k: nat, top: int)
    requires Rising(log, top) && top >= 0
    ensures Before(Seven, d, log, k) <= Last(Seven, d, log, k) < top
  {
    hide Key;
    if log != [] {
      var p, rest := log[|log| - 1], log[..|log| - 1];
      assert forall i :: 0 <= i < |rest| ==> rest[i] == log[i];
      BeforeLess(d, rest, k, p);
    }
  }

  lemma PairsStored(at: seq<Pair>, d: seq<byte>, log: seq<nat>, p: nat)
    requires PairsKeyed(at, d, log) && p + 8 <= |d|
    ensures var k := Key(Seven, d, p); PairsKeyed(at[k := Pair(p, at[k].cur)], d, log + [p])
  {
    hide Key, Last, Before;
    var g := Key(Seven, d, p);
    var a := at[g := Pair(p, at[g].cur)];
    forall k | 0 <= k < TABLE_SIZE
      ensures a[k] == Pair(Last(Seven, d, log + [p], k), Before(Seven, d, log + [p], k))
    {
      LastAdd(Seven, d, log, p, k);
    }
  }

  lemma RisingAdd(log: seq<nat>, top: int, p: nat, top': int)
    requires Rising(log, top) && top <= p < top'
    ensures Rising(log + [p], top')
  {
  }

  lemma ShortKeyed(at: Marks, d: seq<byte>, logs: Logs, top: int, p: nat)
    requires BothKeyed(at, d, logs, top) && p + 8 <= |d|
    ensures |at.short| == TABLE_SIZE
    ensures BothKeyed(at.(short := at.short[Key(Four, d, p) := p]), d, logs.(short := logs.short + [p]), top)
  {
    hide Key;
    KeyedStore(Four, at.short, d, logs.short, p);
  }

  lemma LongKeyed(at: Marks, d: seq<byte>, logs: Logs, top: int, p: nat, top': int)
    requires BothKeyed(at, d, logs, top) && p + 8 <= |d| && top <= p < top'
    ensures |at.long| == TABLE_SIZE
    ensures var k := Key(Seven, d, p);
      BothKeyed(at.(long := at.long[k := Pair(p, at.long[k].cur)]), d, logs.(long := logs.long + [p]), top')
  {
    hide Key, Keyed;
    PairsStored(at.long, d, logs.long, p);
    RisingAdd(logs.long, top, p, top');
  }

  lemma BothKeyedLonger(at: Marks, d: seq<byte>, more: seq<byte>, logs: Logs, top: int)
    requires BothKeyed(at, d, logs, top)
    ensures BothKeyed(at, d + more, logs, top)
  {
    hide Last, Before;
    KeyedLonger(Four, at.short, d, more, logs.short);
    forall k | 0 <= k < TABLE_SIZE
      ensures at.long[k] == Pair(Last(Seven, d + more, logs.long, k), Before(Seven, d + more, logs.long, k))
    {
      LastLonger(Seven, d, more, logs.long, k);
    }
  }

  lemma BothKeyedLater(at: Marks, d: seq<byte>, logs: Logs, top: int, top': int)
    requires BothKeyed(at, d, logs, top) && top <= top'
    ensures BothKeyed(at, d, logs, top')
  {
  }

  lemma BothKeyedNone(at: Marks)
    requires |at.short| == TABLE_SIZE && forall k :: 0 <= k < TABLE_SIZE ==> at.short[k] == -1
    requires |at.long| == TABLE_SIZE && forall k :: 0 <= k < TABLE_SIZE ==> at.long[k] == Pair(-1, -1)
    ensures BothKeyed(at, [], Logs([], []), 0)
  {
    KeyedNone(Four, at.short);
  }

  lemma BothMirrorMoved(short: seq<int>, long: seq<Pair>, at: Marks, cur: int, base: int, from: int, d: nat)
    requires BothMirror(short, long, at, cur, base, from)
    ensures BothMirror(short, long, at, cur + d, base + d, from - d)
  {
    MirrorsMoved(short, at.short, cur, base, from, d);
    forall k | 0 <= k < |long| ensures MirrorPair(long[k], at.long[k], cur + d, base + d, from - d) {
      assert MirrorPair(long[k], at.long[k], cur, base, from);
    }
  }

  lemma BothMirrorLater(short: seq<int>, long: seq<Pair>, at: Marks, cur: int, base: int, from: int, from': int)
    requires BothMirror(short, long, at, cur, base, from) && from <= from'
    ensures BothMirror(short, long, at, cur, base, from')
  {
    MirrorsLater(short, at.short, cur, base, from, from');
    forall k | 0 <= k < |long| ensures MirrorPair(long[k], at.long[k], cur, base, from') {
      assert MirrorPair(long[k], at.long[k], cur, base, from);
    }
  }

  /** All that was stored lies in front of the history. */
  lemma BothMirrorGone(short: seq<int>, long: seq<Pair>, at: Marks, d: seq<byte>, logs: Logs, top: int, cur: int,
                       from: int)
    requires BothKeyed(at, d, logs, top) && |short| == |long| == TABLE_SIZE && 0 <= top <= |d|
    requires forall k :: 0 <= k < TABLE_SIZE ==> short[k] < cur && long[k].cur < cur && long[k].prev < cur
    ensures BothMirror(short, long, at, cur, |d|, from)
  {
    hide Last, Before, Key;
    forall k | 0 <= k < TABLE_SIZE ensures at.short[k] < |d| && MirrorPair(long[k], at.long[k], cur, |d|, from) {
      KeyedInside(Four, at.short, d, logs.short, k);
      BeforeLess(d, logs.long, k, top);
    }
    MirrorsGone(short, at.short, cur, |d|, from);
  }

  lemma PairMirrorRebased(v: Pair, at: Pair, cur: int, base: int, s: nat)
    requires MirrorPair(v, at, cur, base, s) && at.prev <= at.cur
    ensures MirrorPair(RebasedPair(v, cur, s), at, MAX_OFFSET, base, s)
  {
    MirrorRebased(v.cur, at.cur, cur, base, s);
    MirrorRebased(v.prev, at.prev, cur, base, s);
  }

  lemma BothMirrorRebased(short: seq<int>, long: seq<Pair>, short': seq<int>, long': seq<Pair>, at: Marks, cur: int,
                          base: int, s: nat, d: seq<byte>, logs: Logs, top: int)
    requires BothMirror(short, long, at, cur, base, s) && BothKeyed(at, d, logs, top) && top >= 0
    requires |short'| == |short| && forall k :: 0 <= k < |short| ==> short'[k] == Rebased(short[k], cur, s)
    requires |long'| == |long| && forall k :: 0 <= k < |long| ==> long'[k] == RebasedPair(long[k], cur, s)
    ensures BothMirror(short', long', at, MAX_OFFSET, base, s)
  {
    hide Mirror, Rebased, RebasedPair, Last, Before, Keyed;
    MirrorsRebased(short, short', at.short, cur, base, s);
    forall k | 0 <= k < |long| ensures MirrorPair(long'[k], at.long[k], MAX_OFFSET, base, s) {
      assert MirrorPair(long[k], at.long[k], cur, base, s);
      BeforeLess(d, logs.long, k, top);
      PairMirrorRebased(long[k], at.long[k], cur, base, s);
    }
  }

  lemma ShortMirror(short: seq<int>, long: seq<Pair>, at: Marks, cur: int, base: nat, from: int, k: nat, pos: nat)
    requires BothMirror(short, long, at, cur, base, from) && k < |short|
    ensures BothMirror(short[k := pos + cur], long, at.(short := at.short[k := base + pos]), cur, base, from)
  {
    hide MirrorPair;
    MirrorsStore(short, at.short, cur, base, from, k, pos);
  }

  lemma LongMirror(short: seq<int>, long: seq<Pair>, at: Marks, cur: int, base: nat, from: int, k: nat, pos: nat)
    requires BothMirror(short, long, at, cur, base, from) && k < |long|
    ensures BothMirror(short, long[k := Pair(pos + cur, long[k].cur)],
      at.(long := at.long[k := Pair(base + pos, at.long[k].cur)]), cur, base, from)
  {
    var l, a := long[k := Pair(pos + cur, long[k].cur)], at.long[k := Pair(base + pos, at.long[k].cur)];
    forall i | 0 <= i < |l| ensures MirrorPair(l[i], a[i], cur, base, from) {
      assert MirrorPair(long[i], at.long[i], cur, base, from);
    }
  }

  // ---------------------------------------------------------------------------------------------
  // Looking up.
  // ---------------------------------------------------------------------------------------------

  /** An entry of the long table is as good as the last two positions of the log, a and b. */
  predicate Fits(h: seq<byte>, s: nat, v: Pair, cur: int, a: int, b: int) {
    && (Near(h, s, v.cur - cur, REACH) <==> Near(h, s, a, REACH)) && (Near(h, s, a, REACH) ==> v.cur - cur == a)
    && (Near(h, s, v.prev - cur, REACH) <==> Near(h, s, b, REACH)) && (Near(h, s, b, REACH) ==> v.prev - cur == b)
    && (s - (v.cur - cur) >= MAX_OFFSET ==> !Near(h, s, a, REACH) && !Near(h, s, b, REACH))
  }

  lemma FitsNear(h: seq<byte>, s: nat, v: Pair, cur: int, a: int, b: int)
    requires Fits(h, s, v, cur, a, b)
    ensures Near(h, s, v.cur - cur, REACH) <==> Near(h, s, a, REACH)
    ensures Near(h, s, a, REACH) ==> v.cur - cur == a
    ensures Near(h, s, v.prev - cur, REACH) <==> Near(h, s, b, REACH)
    ensures Near(h, s, b, REACH) ==> v.prev - cur == b
    ensures s - (v.cur - cur) >= MAX_OFFSET ==> !Near(h, s, a, REACH) && !Near(h, s, b, REACH)
  {
  }

  lemma FitsIn(h: seq<byte>, s: nat, v: Pair, at: Pair, cur: int, base: int, from: int)
    requires MirrorPair(v, at, cur, base, from) && at.prev <= at.cur && from <= s
    ensures Fits(h, s, v, cur, at.cur - base, at.prev - base)
  {
  }

  lemma OneEndAgrees(h: seq<byte>, m: Cand, s: nat, t: int)
    requires m.l >= 4 && Match(h, m.s, m.t, m.l)
    ensures var n := OneEnd(h, m, s, t); n.l >= m.l && Match(h, n.s, n.t, n.l) && (n == m || n.s == s)
  {
    hide Common;
    if 0 <= t < s <= |h| { CommonIs(h, s, t, Common(h, s, t)); }
  }

  lemma BestEndAgrees(h: seq<byte>, d: seq<byte>, base: nat, logs: Logs, m: Cand)
    requires Agreed(h, m)
    ensures var n := BestEnd(h, d, base, logs, Measured(h, m));
      n.l >= 4 && Match(h, n.s, n.t, n.l) && (n.s == m.s || n.s == m.s + 2)
  {
    hide OneEnd, Match, LongAt, LongBefore;
    MeasuredAgrees(h, m);
    var n := Measured(h, m);
    var e := n.s + n.l;
    if e < |h| - INPUT_MARGIN {
      OneEndAgrees(h, n, n.s + 2, LongAt(h, d, base, logs, e) - n.l + 2);
      var n' := OneEnd(h, n, n.s + 2, LongAt(h, d, base, logs, e) - n.l + 2);
      OneEndAgrees(h, n', n.s + 2, LongBefore(h, d, base, logs, e) - n'.l + 2);
    }
  }

  /** The position for the end of a match, computed in 32 bits from the entry, gives what the log's gives. */
  lemma EndSame(h: seq<byte>, v: int, q: int, cur: int, base: int, from: int, m: Cand, s: nat)
    requires Mirror(v, base + q, cur, base, from) && 0 <= v <= MAX_INT32 && 0 <= cur && cur + |h| < MAX_INT32
    requires from <= s && 4 <= m.l <= |h| && s + 2 <= |h|
    ensures var t := Int32(v - cur - m.l + 2);
      -0x8000_0000 <= t <= MAX_INT32 && OneEnd(h, m, s + 2, t) == OneEnd(h, m, s + 2, q - m.l + 2)
  {
    hide Common;
  }

  /** Out of reach, neither of the last two positions is taken. */
  lemma EndNone(h: seq<byte>, v: int, a: int, b: int, cur: int, base: int, from: int, m: Cand)
    requires Mirror(v, base + a, cur, base, from) && 0 <= v <= MAX_INT32 && 0 <= cur && cur + |h| < MAX_INT32
    requires from <= m.s && 4 <= m.l <= |h| && m.s + 2 <= |h| && b <= a
    requires Int32(m.s + 2 - Int32(v - cur - m.l + 2)) >= MAX_OFFSET
    ensures OneEnd(h, m, m.s + 2, a - m.l + 2) == m && OneEnd(h, m, m.s + 2, b - m.l + 2) == m
  {
    hide Common;
  }

  /** Subtraction in a signed 32-bit word. */
  function Int32(x: int): (y: int)
    ensures -0x8000_0000 <= x <= MAX_INT32 ==> y == x
  {
    (x + 0x8000_0000) % 0x1_0000_0000 - 0x8000_0000
  }

  class FastEncL6 {
    const gen: History
    const table: array<int>
    const bTable: array<Pair>
    ghost var at: Marks
    /** All that has been stored, in order. */
    ghost var logs: Logs

    ghost predicate Valid()
      reads this, gen, table, bTable
    {
      && table.Length == TABLE_SIZE == |at.short| && bTable.Length == TABLE_SIZE == |at.long| && gen.Valid()
      && BothKeyed(at, gen.stream, logs, |gen.stream|)
      && (Ready(gen.cur, gen.Base(), |gen.hist|, |gen.hist|) || (gen.hist == [] && gen.cur >= BUFFER_RESET))
    }

    /** From position s on the entries are harmless, and keep the logs from from on. */
    ghost predicate Ready(cur: int, base: int, from: int, s: int)
      reads this`at, table, bTable
    {
      BothSound(table[..], bTable[..], at, cur, base, s) && BothMirror(table[..], bTable[..], at, cur, base, from)
    }

    /** What holds inside a block: h is the end of everything appended so far, d. */
    ghost predicate Looking(h: seq<byte>, cur: int, d: seq<byte>, base: nat, from: nat, s: nat)
      reads this, table, bTable
    {
      && Sized() && cur >= 0 && cur + |h| < MAX_INT32 && base + |h| == |d| && h == d[base..]
      && Ready(cur, base, from, s) && BothKeyed(at, d, logs, base + s)
    }

    /** At any time entries in reach denote the bytes that were at their positions when they were stored; was is
        everything that had been appended by then. */
    lemma EntriesHold(k: nat, was: seq<byte>)
      requires Valid() && gen.hist != [] && k < TABLE_SIZE && was <= gen.stream
      ensures |gen.hist| - (table[k] - gen.cur) < MAX_OFFSET && 0 <= at.short[k] <= |was| ==>
        0 <= table[k] - gen.cur < |gen.hist| && was[at.short[k]..] <= gen.hist[table[k] - gen.cur..]
      ensures |gen.hist| - (bTable[k].cur - gen.cur) < MAX_OFFSET && 0 <= at.long[k].cur <= |was| ==>
        0 <= bTable[k].cur - gen.cur < |gen.hist| && was[at.long[k].cur..] <= gen.hist[bTable[k].cur - gen.cur..]
      ensures |gen.hist| - (bTable[k].prev - gen.cur) < MAX_OFFSET && 0 <= at.long[k].prev <= |was| ==>
        0 <= bTable[k].prev - gen.cur < |gen.hist| && was[at.long[k].prev..] <= gen.hist[bTable[k].prev - gen.cur..]
    {
      SoundAt(table[..], at.short, gen.cur, gen.Base(), |gen.hist|, k);
      Held(was, table[..][k], at.short[k]);
      assert SoundPair(bTable[..][k], at.long[k], gen.cur, gen.Base(), |gen.hist|);
      Held(was, bTable[..][k].cur, at.long[k].cur);
      Held(was, bTable[..][k].prev, at.long[k].prev);
    }

    lemma Held(was: seq<byte>, v: int, a: int)
      requires gen.Valid() && was <= gen.stream
      requires Harmless(v, gen.cur, |gen.hist|) && Placed(v, a, gen.cur, gen.Base())
      ensures |gen.hist| - (v - gen.cur) < MAX_OFFSET && 0 <= a <= |was| ==>
        0 <= v - gen.cur < |gen.hist| && was[a..] <= gen.hist[v - gen.cur..]
    {
      if |gen.hist| - (v - gen.cur) < MAX_OFFSET && 0 <= a <= |was| {
        EntryBytes(was, gen.stream, gen.hist, v, a, gen.cur);
      }
    }

    constructor (blockSize: int)
      ensures Valid() && gen.hist == gen.stream == [] && logs == Logs([], [])
      ensures fresh(gen) && fresh(table) && fresh(bTable)
      ensures 0 < blockSize < MAX_STORE ==> blockSize + MAX_OFFSET <= gen.Want()
      ensures !(0 < blockSize < MAX_STORE) ==> gen.Want() == ALLOC_HISTORY
    {
      gen := new History(blockSize);
      table := new int[TABLE_SIZE](_ => 0);
      bTable := new Pair[TABLE_SIZE](_ => Pair(0, 0));
      at, logs := Marks(seq(TABLE_SIZE, _ => -1), seq(TABLE_SIZE, _ => Pair(-1, -1))), Logs([], []);
      new;
      hide BothKeyed;
      NothingPairs(TABLE_SIZE, bTable[..], at.long, 0);
      BothKeyedNone(at);
      BothMirrorGone(table[..], bTable[..], at, [], logs, 0, MAX_STORE, 0);
    }

    predicate Sized()
      reads this
    {
      table.Length == TABLE_SIZE && bTable.Length == TABLE_SIZE
    }

    lemma LookingLater(h: seq<byte>, cur: int, d: seq<byte>, base: nat, from: nat, s: nat, s': nat)
      requires Looking(h, cur, d, base, from, s) && s <= s'
      ensures Looking(h, cur, d, base, from, s')
    {
      hide BothSound, BothMirror, BothKeyed;
      BothLater(table[..], bTable[..], at, cur, base, s, s');
      BothKeyedLater(at, d, logs, base + s, base + s');
    }

    lemma LookingParts(h: seq<byte>, cur: int, d: seq<byte>, base: nat, from: nat, s: nat)
      requires Looking(h, cur, d, base, from, s)
      ensures Sized() && base + |h| == |d| && h == d[base..] && BothKeyed(at, d, logs, base + s)
      ensures cur >= 0 && cur + |h| < MAX_INT32
    {
    }

    /** Stores position pos in the short table. */
    method PutShort(h: seq<byte>, cur: int, k: nat, pos: nat, ghost d: seq<byte>, ghost base: nat, ghost from: nat,
            ghost was: nat, ghost top: nat)
      requires Looking(h, cur, d, base, from, was) && pos + 8 <= |h| && k == Key(Four, h, pos)
      requires was <= top && pos < top
      modifies this`at, this`logs, table
      ensures Looking(h, cur, d, base, from, top) && BothKeyed(at, d, logs, base + was)
      ensures logs == Logs(old(logs).short + [base + pos], old(logs).long)
    {
      hide Sound, SoundPairs, BothMirror, BothKeyed, Key;
      SameKey(Four, h, pos, d, base);
      BothLater(table[..], bTable[..], at, cur, base, was, top);
      ShortMirror(table[..], bTable[..], at, cur, base, from, k, pos);
      ShortKeyed(at, d, logs, base + was, base + pos);
      ghost var q, short := table[..], at.short;
      short := Put(table, short, cur, base, k, pos, was, top);
      at := at.(short := short);
      logs := logs.(short := logs.short + [base + pos]);
      BothKeyedLater(at, d, logs, base + was, base + top);
    }

    /** Stores position pos in the long table, in front of the last one there. */
    method PutLong(h: seq<byte>, cur: int, k: nat, pos: nat, ghost d: seq<byte>, ghost base: nat, ghost from: nat,
            ghost was: nat, ghost top: nat)
      requires Looking(h, cur, d, base, from, was) && BothKeyed(at, d, logs, base + pos)
      requires pos + 8 <= |h| && k == Key(Seven, h, pos) && was <= top && pos < top
      modifies this`at, this`logs, bTable
      ensures Looking(h, cur, d, base, from, top) && BothKeyed(at, d, logs, base + pos + 1)
      ensures logs == Logs(old(logs).short, old(logs).long + [base + pos])
    {
      hide Sound, SoundPairs, BothMirror, BothKeyed, Key;
      SameKey(Seven, h, pos, d, base);
      BothLater(table[..], bTable[..], at, cur, base, was, top);
      PairsStore(bTable[..], at.long, cur, base, was, k, pos, top);
      LongMirror(table[..], bTable[..], at, cur, base, from, k, pos);
      LongKeyed(at, d, logs, base + pos, base + pos, base + pos + 1);
      ghost var q, long := bTable[..], at.long[k := Pair(base + pos, at.long[k].cur)];
      bTable[k] := Pair(pos + cur, bTable[k].cur);
      at := at.(long := long);
      logs := logs.(long := logs.long + [base + pos]);
      assert bTable[..] == q[k := Pair(pos + cur, q[k].cur)];
      BothKeyedLater(at, d, logs, base + pos + 1, base + top);
    }

    /** Stores position pos in both tables. */
    method PutBoth(h: seq<byte>, cur: int, i: nat, j: nat, pos: nat, ghost d: seq<byte>, ghost base: nat,
            ghost from: nat)
      requires Looking(h, cur, d, base, from, pos) && pos + 8 <= |h|
      requires i == Key(Four, h, pos) && j == Key(Seven, h, pos)
      modifies this`at, this`logs, table, bTable
      ensures Looking(h, cur, d, base, from, pos + 1) && logs == AddBoth(old(logs), base + pos)
    {
      hide Looking, Key, BothKeyed;
      PutShort(h, cur, i, pos, d, base, from, pos, pos + 1);
      PutLong(h, cur, j, pos, d, base, from, pos + 1, pos + 1);
    }

    /** The keys of a word. */
    lemma WordKeys(h: seq<byte>, s: nat)
      requires s + 8 <= |h|
      ensures Hash4(Load(h, s, 8)) == Key(Four, h, s) && Hash7(Load(h, s, 8)) == Key(Seven, h, s)
      ensures s + 9 <= |h| ==> Hash7(Load(h, s, 8) / 0x100) == Key(Seven, h, s + 1)
    {
      hide Load, Hash4, Hash7;
      WordKey(Four, h, s, 8);
      WordKey(Seven, h, s, 8);
      LoadShift(h, s, 8);
      WordKey(Seven, h, s + 1, 7);
    }

    /** What the short table gives is what the log gives, */
    lemma ShortFits(h: seq<byte>, cur: int, d: seq<byte>, base: nat, from: nat, s: nat)
      requires Looking(h, cur, d, base, from, s) && from <= s && s + 8 <= |h|
      ensures var v, c := table[Key(Four, h, s)], ShortAt(h, d, base, logs, s);
        && Harmless(v, cur, s) && (Near(h, s, v - cur, REACH) <==> Near(h, s, c, REACH))
        && (Near(h, s, c, REACH) ==> v - cur == c)
    {
      hide Sound, SoundPairs, Key, Last, Before, PairsKeyed, Rising;
      var k := Key(Four, h, s);
      BothAt(table[..], bTable[..], at, cur, base, s, k, 0);
      MirrorsAt(table[..], at.short, cur, base, from, k);
      assert at.short[k] == Last(Four, d, logs.short, k);
    }

    /** and so is what the long one gives. */
    lemma LongFits(h: seq<byte>, cur: int, d: seq<byte>, base: nat, from: nat, s: nat, p: nat)
      requires Looking(h, cur, d, base, from, s) && from <= p && p + 8 <= |h|
      ensures var v := bTable[Key(Seven, h, p)];
        var a, b := LongAt(h, d, base, logs, p), LongBefore(h, d, base, logs, p);
        && Harmless(v.cur, cur, s) && Harmless(v.prev, cur, s) && Fits(h, p, v, cur, a, b)
        && MirrorPair(v, Pair(base + a, base + b), cur, base, from) && b <= a
    {
      hide Sound, SoundPairs, Key, Last, Before, Keyed, Mirrors, Fits, MirrorPair;
      var k := Key(Seven, h, p);
      BothAt(table[..], bTable[..], at, cur, base, s, 0, k);
      assert at.long[k] == Pair(Last(Seven, d, logs.long, k), Before(Seven, d, logs.long, k));
      BeforeLess(d, logs.long, k, base + s);
      assert MirrorPair(bTable[..][k], at.long[k], cur, base, from);
      FitsIn(h, p, bTable[k], at.long[k], cur, base, from);
    }

    /** A four-byte match of the short table: the last distance one further on, or the long candidates
        one further on, may be longer. */
    method PickShort(h: seq<byte>, cur: int, s0: nat, t0: nat, cv: nat, next: nat, nextS: nat, repeat: nat,
            lCandidate: Pair, ghost a: int, ghost b: int)
      returns (s: nat, t: nat, l: nat)
      requires cur >= 0 && s0 < nextS <= |h| - INPUT_MARGIN && Near(h, s0, t0, REACH)
      requires cv == Load(h, s0, 8) && next == Load(h, nextS, 8)
      requires 1 <= repeat <= s0 + 1 && repeat <= MAX_OFFSET
      requires Harmless(lCandidate.cur, cur, nextS) && Harmless(lCandidate.prev, cur, nextS)
      requires Fits(h, nextS, lCandidate, cur, a, b)
      ensures s0 <= s <= nextS && l >= 4 && Match(h, s, t, l)
      ensures Cand(s, t, l) == OfShort(h, s0, t0, repeat, nextS, a, b)
    {
      hide Harmless, Load, Loaded, Match, Agrees, Near, Length;
      s, t := s0, t0;
      NearWider(h, s, t);
      l := Measure4(h, s, t);
      LoadedWord(h, s);
      var t2 := s + 1 - repeat;
      RepeatAgrees(h, s + 1, t2, cv / 0x100);
      if Load(h, t2, 4) == cv / 0x100 % 0x1_0000_0000 {
        var ml := Measure4(h, s + 1, t2);
        if ml > l {
          return s + 1, t2, ml;
        }
      }
      LoadedWord(h, nextS);
      FitsNear(h, nextS, lCandidate, cur, a, b);
      if nextS - (lCandidate.cur - cur) < MAX_OFFSET {
        if Agrees(h, cur, nextS, next, lCandidate.cur) {
          s, t, l := Longer(h, s, t, l, nextS, lCandidate.cur - cur);
        }
        if Agrees(h, cur, nextS, next, lCandidate.prev) {
          s, t, l := Longer(h, s, t, l, nextS, lCandidate.prev - cur);
        }
      }
    }

    /** How long four bytes that agree go on, up to the longest match. */
    method Measure4(h: seq<byte>, s: nat, t: nat) returns (l: nat)
      requires Near(h, s, t, MAX_OFFSET)
      ensures l == Length(h, s, t) && Match(h, s, t, l)
    {
      hide Match, Common;
      NearMatch(h, s, t);
      var more := CappedAgreement(h, s + 4, t + 4);
      MatchJoin(h, s, t, 4, more);
      l := more + 4;
    }

    /** The longer of a match and another one. */
    method Longer(h: seq<byte>, s0: nat, t0: nat, l0: nat, s2: nat, t2: nat) returns (s: nat, t: nat, l: nat)
      requires Match(h, s0, t0, l0) && l0 >= 4 && s0 <= s2 && Near(h, s2, t2, REACH)
      ensures s0 <= s <= s2 && l >= l0 && Match(h, s, t, l)
      ensures Cand(s, t, l) == LongerOf(h, Cand(s0, t0, l0), s2, t2)
    {
      hide Match, Near, Length;
      NearWider(h, s2, t2);
      var ml := Measure4(h, s2, t2);
      if ml > l0 {
        return s2, t2, ml;
      }
      return s0, t0, l0;
    }

    /** The longer of the two candidates of the long table; length 0 stands for "not measured". */
    method PickLong(h: seq<byte>, cur: int, s: nat, cv: nat, v: Pair, ghost a: int, ghost b: int)
      returns (t: nat, l: nat)
      requires Harmless(v.cur, cur, s) && Harmless(v.prev, cur, s) && s + 8 <= |h| && cv == Load(h, s, 8)
      requires Fits(h, s, v, cur, a, b) && Near(h, s, a, REACH)
      ensures Agreed(h, Cand(s, t, l)) && Cand(s, t, l) == OfLong(h, s, a, b)
    {
      hide Harmless, Load, Loaded, Match, Agrees, Near, Length;
      LoadedWord(h, s);
      FitsNear(h, s, v, cur, a, b);
      NearWider(h, s, a);
      NearMatch(h, s, a);
      t, l := v.cur - cur, 0;
      if Agrees(h, cur, s, cv, v.prev) {
        l := Measure4(h, s, t);
        var s';
        s', t, l := Longer(h, s, t, l, s, v.prev - cur);
      }
    }

    /** Looks for a match. */
    method Search(h: seq<byte>, cur: int, s0: nat, nextEmit: nat, repeat: nat, ghost d: seq<byte>, ghost base: nat,
            ghost from: nat)
      returns (found: bool, s: nat, t: nat, l: nat, nextS: nat)
      requires Looking(h, cur, d, base, from, s0) && from <= nextEmit <= s0 <= |h| - INPUT_MARGIN
      requires 1 <= repeat <= s0 + 1 && repeat <= MAX_OFFSET
      modifies this`at, this`logs, table, bTable
      ensures found ==>
        && s0 <= s <= nextS <= |h| - INPUT_MARGIN && Agreed(h, Cand(s, t, l))
        && Looking(h, cur, d, base, from, nextS + 1)
      ensures !found ==> Looking(h, cur, d, base, from, |h|)
      ensures Probes(h, d, base, old(logs), s0, nextEmit, repeat) ==
        if found then Hit(Cand(s, t, l), nextS, logs) else Miss(logs)
    {
      hide Harmless, Hash4, Hash7, Load, Match, Agreed, Looking, Key, Near, Probes, ShortAt, LongAt, LongBefore, OfLong,
           OfShort, Fits;
      var sLimit := |h| - INPUT_MARGIN;
      var cv := Load(h, s0, 8);
      s, t, l, nextS := s0, 0, 0, s0;
      found := false;
      while true
        invariant s0 <= nextS <= sLimit && cv == Load(h, nextS, 8) && l == 0
        invariant Looking(h, cur, d, base, from, nextS)
        invariant Probes(h, d, base, logs, nextS, nextEmit, repeat) ==
          Probes(h, d, base, old(logs), s0, nextEmit, repeat)
        decreases sLimit - nextS
      {
        s := nextS;
        nextS := s + 1 + (s - nextEmit) / 128;
        ProbesUnfold(h, d, base, logs, s, nextEmit, repeat);
        if nextS > sLimit {
          LookingLater(h, cur, d, base, from, s, |h|);
          return;
        }
        var next := Load(h, nextS, 8);
        found, s, t, l := Try(h, cur, s, cv, next, nextS, repeat, d, base, from);
        if found {
          return;
        }
        cv := next;
      }
    }

    /** One position of the search. */
    method Try(h: seq<byte>, cur: int, s0: nat, cv: nat, next: nat, nextS: nat, repeat: nat, ghost d: seq<byte>,
            ghost base: nat, ghost from: nat)
      returns (found: bool, s: nat, t: nat, l: nat)
      requires Looking(h, cur, d, base, from, s0) && from <= s0 < nextS <= |h| - INPUT_MARGIN
      requires cv == Load(h, s0, 8) && next == Load(h, nextS, 8) && 1 <= repeat <= s0 + 1 && repeat <= MAX_OFFSET
      modifies this`at, this`logs, table, bTable
      ensures found ==> s0 <= s <= nextS && Agreed(h, Cand(s, t, l)) && Looking(h, cur, d, base, from, nextS + 1)
      ensures !found ==> l == 0 && Looking(h, cur, d, base, from, nextS)
      ensures At(h, d, base, old(logs), s0, nextS, repeat) ==
        if found then Hit(Cand(s, t, l), nextS, logs) else Miss(logs)
    {
      hide Harmless, Hash4, Hash7, Load, Match, Looking, Key, Near, ShortAt, LongAt, LongBefore, Length, Fits, Agrees;
      ghost var a, b := LongAt(h, d, base, logs, s0), LongBefore(h, d, base, logs, s0);
      s, t, l, found := s0, 0, 0, false;
      LookingParts(h, cur, d, base, from, s0);
      var nextHashS, nextHashL := Hash4(cv), Hash7(cv);
      WordKeys(h, s);
      WordKeys(h, nextS);
      var sCandidate, lCandidate := table[nextHashS], bTable[nextHashL];
      ShortFits(h, cur, d, base, from, s);
      LongFits(h, cur, d, base, from, s, s);
      FitsNear(h, s, lCandidate, cur, a, b);
      LoadedWord(h, s);
      PutBoth(h, cur, nextHashS, nextHashL, s, d, base, from);
      LookingLater(h, cur, d, base, from, s + 1, nextS);
      nextHashS, nextHashL := Hash4(next), Hash7(next);
      if s - (lCandidate.cur - cur) < MAX_OFFSET {
        if Agrees(h, cur, s, cv, lCandidate.cur) {
          PutBoth(h, cur, nextHashS, nextHashL, nextS, d, base, from);
          t, l := PickLong(h, cur, s, cv, lCandidate, a, b);
          found := true;
          return;
        }
        if Agrees(h, cur, s, cv, lCandidate.prev) {
          t := lCandidate.prev - cur;
          PutBoth(h, cur, nextHashS, nextHashL, nextS, d, base, from);
          NearWider(h, s, t);
          NearMatch(h, s, t);
          found := true;
          return;
        }
      }
      if Agrees(h, cur, s, cv, sCandidate) {
        t := sCandidate - cur;
        LongFits(h, cur, d, base, from, nextS, nextS);
        a, b := LongAt(h, d, base, logs, nextS), LongBefore(h, d, base, logs, nextS);
        LookingParts(h, cur, d, base, from, nextS);
        lCandidate := bTable[nextHashL];
        PutBoth(h, cur, nextHashS, nextHashL, nextS, d, base, from);
        s, t, l := PickShort(h, cur, s, t, cv, next, nextS, repeat, lCandidate, a, b);
        found := true;
      }
    }

    /** Measures a match as far as it goes. */
    method Measure(h: seq<byte>, s: nat, t: nat, l0: nat) returns (l: nat)
      requires Agreed(h, Cand(s, t, l0))
      ensures l >= 4 && Match(h, s, t, l) && Cand(s, t, l) == Measured(h, Cand(s, t, l0))
    {
      hide Match, Common;
      l := l0;
      MeasuredAgrees(h, Cand(s, t, l0));
      MatchInside(h, s, t, if l0 == 0 then 4 else l0);
      if l == 0 {
        var more := LongestAgreement(h, s + 4, t + 4);
        CommonIs(h, s + 4, t + 4, more);
        l := more + 4;
      } else if l == MAX_MATCH {
        var more := LongestAgreement(h, s + l, t + l);
        CommonIs(h, s + l, t + l, more);
        l := l + more;
      }
    }

    /** One candidate for a match that ends where the present one does: whatever the entry is, only what
        is found to agree is taken. */
    method TryEnd(h: seq<byte>, s0: nat, t0: nat, l0: nat, s2: nat, t2: int, off: int) returns (s: nat, t: nat, l: nat)
      requires l0 >= 4 && Match(h, s0, t0, l0) && s0 <= s2 <= |h| && off == Int32(s2 - t2) && |h| <= MAX_INT32
      requires -0x8000_0000 <= t2 <= MAX_INT32
      ensures s0 <= s && l >= l0 && Match(h, s, t, l) && (s == s0 || s == s2)
      ensures Cand(s, t, l) == OneEnd(h, Cand(s0, t0, l0), s2, t2)
    {
      hide Match, Common;
      s, t, l := s0, t0, l0;
      if off > 0 && off < MAX_OFFSET && t2 >= 0 {
        assert off == s2 - t2;
        var l2 := LongestAgreement(h, s2, t2);
        CommonIs(h, s2, t2, l2);
        FromAgreement(h, s2, t2, l2);
        if l2 > l {
          s, t, l := s2, t2, l2;
        }
      }
    }

    /** Looks for a longer match among those that would end where this one does. */
    method CheckEnd(h: seq<byte>, cur: int, s0: nat, t0: nat, l0: nat, ghost d: seq<byte>, ghost base: nat,
            ghost from: nat, ghost top: nat)
      returns (s: nat, t: nat, l: nat)
      requires Looking(h, cur, d, base, from, top) && l0 >= 4 && Match(h, s0, t0, l0) && |h| <= MAX_INT32 && from <= s0
      ensures s0 <= s && l >= l0 && Match(h, s, t, l)
      ensures Cand(s, t, l) == BestEnd(h, d, base, logs, Cand(s0, t0, l0))
    {
      hide Match, Hash7, Load, Looking, Key, OneEnd, Int32, LongAt, LongBefore, Fits, Mirror, Near;
      MatchInside(h, s0, t0, l0);
      s, t, l := s0, t0, l0;
      var sAt := s + l;
      if sAt < |h| - INPUT_MARGIN {
        LookingParts(h, cur, d, base, from, top);
        WordKeys(h, sAt);
        LongFits(h, cur, d, base, from, top, sAt);
        var e := bTable[Hash7(Load(h, sAt, 8))];
        var s2 := s + 2;
        var t2 := Int32(e.cur - cur - l + 2);
        var off := Int32(s2 - t2);
        ghost var a, b := LongAt(h, d, base, logs, sAt), LongBefore(h, d, base, logs, sAt);
        if off < MAX_OFFSET {
          EndSame(h, e.cur, a, cur, base, from, Cand(s, t, l), s0);
          s, t, l := TryEnd(h, s, t, l, s2, t2, off);
          MatchInside(h, s, t, l);
          EndSame(h, e.prev, b, cur, base, from, Cand(s, t, l), s0);
          t2 := Int32(e.prev - cur - l + 2);
          s, t, l := TryEnd(h, s, t, l, s2, t2, Int32(s2 - t2));
        } else {
          EndNone(h, e.cur, a, b, cur, base, from, Cand(s, t, l));
        }
      }
    }

    /** Stores every second position from i0 up to end in both tables. */
    method IndexTail(h: seq<byte>, cur: int, i0: nat, ghost d: seq<byte>, ghost base: nat, ghost from: nat)
      requires Looking(h, cur, d, base, from, i0) && i0 <= |h|
      modifies this`at, this`logs, table, bTable
      ensures Looking(h, cur, d, base, from, |h|) && logs == Tail(old(logs), base, i0, |h| - 8)
    {
      hide Looking, Hash4, Hash7, Load, Key, AddBoth;
      var i := i0;
      while i < |h| - 8
        invariant i <= |h| && Looking(h, cur, d, base, from, i)
        invariant Tail(logs, base, i, |h| - 8) == Tail(old(logs), base, i0, |h| - 8)
      {
        var cv := Load(h, i, 8);
        WordKeys(h, i);
        PutBoth(h, cur, Hash4(cv), Hash7(cv), i, d, base, from);
        LookingLater(h, cur, d, base, from, i + 1, i + 2);
        i := i + 2;
      }
      LookingLater(h, cur, d, base, from, i, |h|);
    }

    /** Stores every long hash in between, and every second short one. */
    method IndexBetween(h: seq<byte>, cur: int, i0: nat, s: nat, ghost d: seq<byte>, ghost base: nat, ghost from: nat)
      requires Looking(h, cur, d, base, from, i0) && i0 <= s && s + 8 <= |h|
      modifies this`at, this`logs, table, bTable
      ensures Looking(h, cur, d, base, from, s) && logs == Between(old(logs), base, i0, s)
    {
      hide Looking, Hash4, Hash7, Load, Key, BothKeyed;
      var i := i0;
      while i < s - 1
        invariant i <= s && Looking(h, cur, d, base, from, i)
        invariant Between(logs, base, i, s) == Between(old(logs), base, i0, s)
      {
        var cv := Load(h, i, 8);
        WordKeys(h, i);
        PutBoth(h, cur, Hash4(cv), Hash7(cv), i, d, base, from);
        LookingParts(h, cur, d, base, from, i + 1);
        PutLong(h, cur, Hash7(cv / 0x100), i + 1, d, base, from, i + 1, i + 2);
        i := i + 2;
      }
      LookingLater(h, cur, d, base, from, i, s);
    }

    /** Emits the match found at s and moves on. */
    method TakeMatch(dst: Buffer, h: seq<byte>, cur: int, nextEmit0: nat, s0: nat, t0: nat, l0: nat, nextS: nat,
            ghost d: seq<byte>, ghost base: nat, ghost from: nat)
      returns (more: bool, nextEmit: nat, s: nat, repeat: nat, ghost r: Run)
      requires Looking(h, cur, d, base, from, nextS + 1) && table !in dst.Repr() && bTable !in dst.Repr()
      requires dst.Valid() && Covered(h, from, dst.Slice(), nextEmit0)
      requires |h| - from <= MAX_BLOCK && |h| - from <= dst.tokens.Length
      requires from <= nextEmit0 <= s0 <= nextS <= |h| - INPUT_MARGIN && Agreed(h, Cand(s0, t0, l0))
      modifies this`at, this`logs, table, bTable, dst`n, dst.Repr()
      ensures dst.Valid() && dst.n <= dst.tokens.Length && Covered(h, from, dst.Slice(), nextEmit) && dst.n > 0
      ensures from <= nextEmit <= |h|
      ensures more ==>
        && nextS < s && nextEmit <= s <= |h| - INPUT_MARGIN && 1 <= repeat <= s && repeat <= MAX_OFFSET
        && Looking(h, cur, d, base, from, s)
      ensures !more ==> Looking(h, cur, d, base, from, |h|)
      ensures r == Taken(h, d, base, old(logs), nextEmit0, Cand(s0, t0, l0), nextS)
      ensures dst.Slice() == old(dst.Slice()) + r.tokens && logs == r.logs && more == r.more && nextEmit == r.emit
      ensures more ==> s == r.s && repeat == r.repeat
    {
      hide Looking, Match, Covered, Buffer.Valid, Agreed, BestEnd, Measured, MatchTokens, Tail, Between, Taken, Plain,
           LongTokens, Back, Buffer.Slice;
      LookingParts(h, cur, d, base, from, nextS + 1);
      ghost var n := BestEnd(h, d, base, logs, Measured(h, Cand(s0, t0, l0)));
      r := Taken(h, d, base, logs, nextEmit0, Cand(s0, t0, l0), nextS);
      TakenIs(h, d, base, logs, nextEmit0, Cand(s0, t0, l0), nextS);
      dst.Sizes();
      ghost var was := dst.Slice();
      var l := Measure(h, s0, t0, l0);
      var t;
      s, t, l := CheckEnd(h, cur, s0, t0, l, d, base, from, nextS + 1);
      s, t, l := ExtendBack(h, s, t, l, nextEmit0);
      MatchInside(h, s, t, l);
      EmitMatch(dst, h, from, nextEmit0, s, t, l);
      TokensAre(h, nextEmit0, n.s, n.t, n.l, s);
      Assoc(was, Plain(h[nextEmit0..s]), LongTokens(l, s - t - 1));
      repeat := s - t;
      s := s + l;
      nextEmit := s;
      if nextS >= s {
        s := nextS + 1;
      }
      if s >= |h| - INPUT_MARGIN {
        IndexTail(h, cur, nextS + 1, d, base, from);
        return false, nextEmit, s, repeat, r;
      }
      IndexBetween(h, cur, nextS + 1, s, d, base, from);
      return true, nextEmit, s, repeat, r;
    }

    /** Finds matches in h from position from on. */
    method FindMatches(dst: Buffer, h: seq<byte>, cur: int, from: nat, ghost d: seq<byte>, ghost base: nat)
      requires Looking(h, cur, d, base, from, from) && table !in dst.Repr() && bTable !in dst.Repr()
      requires dst.Valid() && dst.Slice() == [] && from + MIN_BLOCK <= |h|
      requires |h| - from <= MAX_BLOCK && |h| - from <= dst.tokens.Length
      modifies this`at, this`logs, table, bTable, dst`n, dst.Repr()
      ensures Looking(h, cur, d, base, from, |h|) && dst.Valid() && AllTokens(dst.Slice())
      ensures dst.n == 0 || Covered(h, from, dst.Slice(), |h|)
      ensures dst.n == |dst.Slice()| && Encoded(h, d, base, old(logs), from, from, 1, []) == Result(dst.Slice(), logs)
    {
      hide Looking, Match, Covered, Buffer.Valid, Probes, Taken, Agreed;
      var nextEmit: nat, s: nat, repeat: nat := from, from, 1;
      CoveredNone(h, from);
      dst.Sizes();
      while true
        invariant dst.Valid() && dst.n <= dst.tokens.Length && Covered(h, from, dst.Slice(), nextEmit) &&
          nextEmit <= |h|
        invariant from <= nextEmit <= s <= |h| - INPUT_MARGIN && Looking(h, cur, d, base, from, s)
        invariant 1 <= repeat <= s + 1 && repeat <= MAX_OFFSET
        invariant Encoded(h, d, base, logs, nextEmit, s, repeat, dst.Slice()) ==
          Encoded(h, d, base, old(logs), from, from, 1, [])
        decreases |h| - s
      {
        var found, pos, t, l, nextS := Search(h, cur, s, nextEmit, repeat, d, base, from);
        if !found {
          break;
        }
        var more;
        ghost var r;
        more, nextEmit, s, repeat, r := TakeMatch(dst, h, cur, nextEmit, pos, t, l, nextS, d, base, from);
        if !more {
          break;
        }
      }
      EmitRemainder(dst, h, from, nextEmit);
    }

    method RebasePairs(cur: int, ghost base: int, s: nat)
      requires SoundPairs(bTable[..], at.long, cur, base, s) && 0 < s < MAX_INT32 - MAX_OFFSET
      modifies bTable
      ensures SoundPairs(bTable[..], at.long, MAX_OFFSET, base, s)
      ensures forall k :: 0 <= k < bTable.Length ==> bTable[k] == RebasedPair(old(bTable[k]), cur, s)
    {
      hide Harmless, Rebased;
      var minOff := cur + s - MAX_OFFSET;
      for i := 0 to bTable.Length
        invariant forall k :: 0 <= k < i ==> bTable[k] == RebasedPair(old(bTable[k]), cur, s)
        invariant forall k :: i <= k < bTable.Length ==> bTable[k] == old(bTable[k])
      {
        var v := bTable[i];
        RebasedEither(v.cur, cur, s);
        RebasedEither(v.prev, cur, s);
        if v.cur <= minOff {
          v := Pair(0, 0);
        } else {
          v := v.(cur := v.cur - cur + MAX_OFFSET);
          if v.prev <= minOff {
            v := v.(prev := 0);
          } else {
            v := v.(prev := v.prev - cur + MAX_OFFSET);
          }
        }
        bTable[i] := v;
      }
      ghost var q := old(bTable[..]);
      forall k | 0 <= k < bTable.Length
        ensures SoundPair(bTable[..][k], at.long[k], MAX_OFFSET, base, s)
      {
        assert SoundPair(q[k], at.long[k], cur, base, s);
        PairRebased(q[k], at.long[k], cur, base, s);
      }
    }

    method ClearPairs()
      modifies bTable
      ensures forall k :: 0 <= k < bTable.Length ==> bTable[k] == Pair(0, 0)
      ensures forall a: seq<Pair>, base: int :: |a| == bTable.Length ==> SoundPairs(bTable[..], a, MAX_OFFSET, base, 0)
    {
      for i := 0 to bTable.Length
        invariant forall k :: 0 <= k < i ==> bTable[k] == Pair(0, 0)
      {
        bTable[i] := Pair(0, 0);
      }
    }

    /** Makes room in the position counter. */
    method ProtectWraparound()
      requires Valid()
      modifies gen`cur, table, bTable
      ensures Valid() && gen.cur < BUFFER_RESET && gen.hist == old(gen.hist)
      ensures Ready(gen.cur, gen.Base(), |gen.hist|, |gen.hist|)
    {
      hide Sound, SoundPairs, BothKeyed, BothMirror;
      while gen.cur >= BUFFER_RESET
        invariant Valid() && gen.hist == old(gen.hist)
        decreases gen.cur
      {
        if |gen.hist| == 0 {
          Clear(table);
          ClearPairs();
          BothMirrorGone(table[..], bTable[..], at, gen.stream, logs, |gen.stream|, MAX_OFFSET, 0);
          gen.cur := MAX_OFFSET;
          break;
        }
        RebaseBoth();
        gen.cur := MAX_OFFSET;
      }
    }

    method RebaseBoth()
      requires Valid() && gen.hist != [] && gen.cur >= BUFFER_RESET
      modifies table, bTable
      ensures Ready(MAX_OFFSET, gen.Base(), |gen.hist|, |gen.hist|)
    {
      hide Sound, SoundPairs, BothKeyed, BothMirror;
      ghost var q, q2 := table[..], bTable[..];
      Rebase(table, at.short, gen.cur, gen.Base(), |gen.hist|);
      RebasePairs(gen.cur, gen.Base(), |gen.hist|);
      BothMirrorRebased(q, q2, table[..], bTable[..], at, gen.cur, gen.Base(), |gen.hist|, gen.stream, logs,
                        |gen.stream|);
    }

    /** Adds a block to the history. */
    method Grow(src: seq<byte>) returns (s: nat, ghost kept: seq<byte>)
      requires Valid() && |src| <= MAX_STORE && |src| + MAX_OFFSET <= gen.Want()
      modifies gen, table, bTable
      ensures gen.Valid() && gen.hist == kept + src && |kept| == s && Ready(gen.cur, gen.Base(), s, s)
      ensures s <= |old(gen.hist)| && kept == old(gen.hist)[|old(gen.hist)| - s..]
      ensures s == |old(gen.hist)| || s == MAX_OFFSET
      ensures gen.stream == old(gen.stream) + src && BothKeyed(at, gen.stream, logs, gen.Base() + s)
    {
      hide BothSound, BothKeyed, BothMirror;
      ProtectWraparound();
      ghost var was, cur, base := gen.hist, gen.cur, gen.Base();
      BothKeyedLonger(at, gen.stream, src, logs, |gen.stream|);
      s := gen.AddBlock(src);
      kept := was[|was| - s..];
      BothMoved(table[..], bTable[..], at, cur, base, |was|, |was| - s);
      BothMirrorMoved(table[..], bTable[..], at, cur, base, |was|, |was| - s);
    }

    /** Encodes a block. With no tokens afterwards nothing was found; otherwise the tokens, expanded
        after the history kept, give the block. */
    method Encode(dst: Buffer, src: seq<byte>) returns (ghost kept: seq<byte>)
      requires Valid() && dst.Valid() && dst.Slice() == [] && table !in dst.Repr() && bTable !in dst.Repr()
      requires |src| <= MAX_STORE && |src| + MAX_OFFSET <= gen.Want() && |src| <= dst.tokens.Length
      modifies gen, this`at, this`logs, table, bTable, dst`n, dst.Repr()
      ensures Valid() && gen.hist == kept + src && gen.stream == old(gen.stream) + src
      ensures |kept| <= |old(gen.hist)| && kept == old(gen.hist)[|old(gen.hist)| - |kept|..]
      ensures |kept| == |old(gen.hist)| || |kept| == MAX_OFFSET
      ensures |src| < MIN_BLOCK ==>
        dst.n == |src| && dst.tokens[..] == old(dst.tokens[..]) && dst.Tallied([]) && logs == old(logs)
      ensures |src| == 0 ==> dst.Valid() && dst.Slice() == []
      ensures |src| >= MIN_BLOCK ==>
        && dst.Valid() && AllTokens(dst.Slice())
        && (dst.n == 0 || Covered(gen.hist, |kept|, dst.Slice(), |gen.hist|))
      ensures |src| >= MIN_BLOCK && ZerosFrom(src, 0) ==> dst.n > 0
      ensures |src| >= MIN_BLOCK ==>
        && dst.n == |dst.Slice()| && gen.Base() >= 0
        && Encoded(gen.hist, gen.stream, gen.Base(), old(logs), |kept|, |kept|, 1, []) == Result(dst.Slice(), logs)
    {
      hide BothSound, BothKeyed, BothMirror, Buffer.Valid, Covered, Encoded, Ready, Looking, ZerosFrom, Suffix;
      var s;
      s, kept := Grow(src);
      if |src| < MIN_BLOCK {
        dst.Sizes();
        dst.Counts();
        dst.n := |src|;
        BothKeyedLater(at, gen.stream, logs, gen.Base() + s, |gen.stream|);
        KeyedSizes(|gen.stream|);
        LaterReady(s, s, |gen.hist|);
        return;
      }
      ghost var d, base := gen.stream, gen.Base();
      LooksNow(s);
      if ZerosFrom(src, 0) {
        AfterKept(src, kept);
        ZerosHit(gen.hist, d, base, logs, s);
      }
      FindMatches(dst, gen.hist, gen.cur, s, d, base);
      LookedOver(s);
    }

    lemma KeyedSizes(top: int)
      requires BothKeyed(at, gen.stream, logs, top)
      ensures |at.short| == TABLE_SIZE == |at.long|
    {
    }

    lemma LooksNow(s: nat)
      requires gen.Valid() && s <= |gen.hist| && Ready(gen.cur, gen.Base(), s, s) && Sized()
      requires BothKeyed(at, gen.stream, logs, gen.Base() + s)
      ensures gen.Base() >= 0 && Looking(gen.hist, gen.cur, gen.stream, gen.Base(), s, s)
      ensures gen.hist == gen.stream[gen.Base()..]
    {
    }

    lemma LookedOver(from: nat)
      requires gen.Valid() && from <= |gen.hist| && gen.Base() >= 0
      requires Looking(gen.hist, gen.cur, gen.stream, gen.Base(), from, |gen.hist|)
      ensures Valid()
    {
      hide BothSound, BothKeyed, BothMirror;
      KeyedSizes(|gen.stream|);
      LaterReady(from, |gen.hist|, |gen.hist|);
    }

    lemma LaterReady(from: nat, s: nat, s': nat)
      requires Ready(gen.cur, gen.Base(), from, s) && from <= s' && s <= s'
      ensures Ready(gen.cur, gen.Base(), s', s')
    {
      hide BothSound, BothMirror;
      BothLater(table[..], bTable[..], at, gen.cur, gen.Base(), s, s');
      BothMirrorLater(table[..], bTable[..], at, gen.cur, gen.Base(), from, s');
    }

    lemma AfterKept(src: seq<byte>, kept: seq<byte>)
      requires ZerosFrom(src, 0)
      ensures ZerosFrom(kept + src, |kept|)
    {
    }

    /** Forgets the history. */
    method Reset()
      requires Valid()
      modifies gen
      ensures Valid() && gen.hist == [] && gen.stream == old(gen.stream)
    {
      hide BothMirror, BothKeyed;
      if gen.cur <= BUFFER_RESET && Ready(gen.cur, gen.Base(), |gen.hist|, |gen.hist|) {
        BothReset(table[..], bTable[..], at, gen.cur, gen.Base(), |gen.hist|);
        AllBelow();
        BothMirrorGone(table[..], bTable[..], at, gen.stream, logs, |gen.stream|,
                       gen.cur + MAX_OFFSET + |gen.hist|, 0);
      }
      gen.Reset();
    }

    lemma AllBelow()
      requires BothSound(table[..], bTable[..], at, gen.cur, gen.Base(), |gen.hist|) && Sized()
      ensures var top := gen.cur + MAX_OFFSET + |gen.hist|;
        forall k :: 0 <= k < TABLE_SIZE ==> table[k] < top && bTable[k].cur < top && bTable[k].prev < top
    {
      forall k | 0 <= k < TABLE_SIZE
        ensures table[k] < gen.cur + MAX_OFFSET + |gen.hist| && bTable[k].cur < gen.cur + MAX_OFFSET + |gen.hist| &&
          bTable[k].prev < gen.cur + MAX_OFFSET + |gen.hist|
      {
        BothAt(table[..], bTable[..], at, gen.cur, gen.Base(), |gen.hist|, k, k);
      }
    }
  }

  lemma PairRebased(v: Pair, at: Pair, cur: int, base: int, s: nat)
    requires SoundPair(v, at, cur, base, s) && 0 < s < MAX_INT32 - MAX_OFFSET
    ensures SoundPair(RebasedPair(v, cur, s), at, MAX_OFFSET, base, s)
  {
    RebasedHarmless(v.cur, cur, s);
    RebasedHarmless(v.prev, cur, s);
    ClearedLater(s);
  }

  lemma RebasedEither(v: int, cur: int, s: nat)
    ensures Rebased(v, cur, s) == if v <= cur + s - MAX_OFFSET then 0 else v - cur + MAX_OFFSET
  {
  }

  lemma ClearedLater(s: nat)
    ensures Harmless(0, MAX_OFFSET, s)
  {
  }

  lemma FromAgreement(h: seq<byte>, s: nat, t: nat, l: nat)
    requires t < s <= t + MAX_DIST && s + l <= |h| && h[s..s + l] == h[t..t + l]
    ensures Match(h, s, t, l)
  {
  }

  /** The four bytes at s are those at t. */
  lemma RepeatAgrees(h: seq<byte>, s: nat, t: nat, cv: nat)
    requires Loaded(h, s, cv) && t < s <= t + MAX_OFFSET
    ensures t + 4 <= |h| && (Load(h, t, 4) == cv % 0x1_0000_0000 <==> Near(h, s, t, MAX_OFFSET))
  {
    Found(h, s, t, cv);
  }
}
