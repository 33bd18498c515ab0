/** The simplest match finder (level 1): one table of positions, keyed by a hash of five bytes. */
module Level1 {
  import opened Words
  import opened Lz
  import opened Tokens
  import opened TokenBuffer
  import opened MatchLen
  import opened Covering
  import opened FastGen
  import opened FastLog
  import opened FastMatch

  // ---------------------------------------------------------------------------------------------
  // The matches, from the log of the positions stored.
  // ---------------------------------------------------------------------------------------------

  /** The position stored last under the key of the bytes at s, counted like s from the start of the history h, which
      is the end of d. */
  function Stored(h: seq<byte>, d: seq<byte>, base: nat, log: seq<nat>, s: nat): int
    requires s + 5 <= |h|
  {
    Last(Five, d, log, Key(Five, h, s)) - base
  }

  /** Where a search ends, and the log afterwards. */
  datatype Probe = Hit(s: nat, t: nat, next: nat, log: seq<nat>) | Miss(log: seq<nat>)

  /** The search from s on: two positions at a time, further apart the longer nothing is found. Each is stored after it
      has been looked up, and the one after a hit as well. */
  function Probes(h: seq<byte>, d: seq<byte>, base: nat, log: seq<nat>, s: nat, emit: nat): (r: Probe)
    requires emit <= s
    ensures r.Hit? ==> s <= r.s < r.next <= |h| - INPUT_MARGIN + 1 && Near(h, r.s, r.t, MAX_OFFSET)
    decreases |h| + INPUT_MARGIN - s
  {
    var next := s + 2 + (s - emit) / 32;
    if next > |h| - INPUT_MARGIN then Miss(log)
    else if Near(h, s, Stored(h, d, base, log, s), MAX_OFFSET - 1) then
      Hit(s, Stored(h, d, base, log, s), next, log + [base + s] + [base + next])
    else
      var log' := log + [base + s];
      var c := Stored(h, d, base, log', next);
      if Near(h, next, c, MAX_OFFSET - 1) then Hit(next, c, next + 1, log' + [base + next] + [base + next + 1])
      else Probes(h, d, base, log' + [base + next], next + 1, emit)
  }

  lemma ProbesUnfold(h: seq<byte>, d: seq<byte>, base: nat, log: seq<nat>, s: nat, emit: nat)
    requires emit <= s && s + 5 <= |h|
    ensures var next := s + 2 + (s - emit) / 32;
      if next > |h| - INPUT_MARGIN then Probes(h, d, base, log, s, emit) == Miss(log)
      else
        var c, log' := Stored(h, d, base, log, s), log + [base + s];
        if Near(h, s, c, MAX_OFFSET - 1) then
          Probes(h, d, base, log, s, emit) == Hit(s, c, next, log' + [base + next])
        else
          var c' := Stored(h, d, base, log', next);
          Probes(h, d, base, log, s, emit) ==
            if Near(h, next, c', MAX_OFFSET - 1) then Hit(next, c', next + 1, log' + [base + next] + [base + next + 1])
            else Probes(h, d, base, log' + [base + next], next + 1, emit)
  {
  }

  /** The tokens of matches that follow one another, where the search goes on, if it does, and the log. */
  datatype Run = Run(tokens: seq<nat>, more: bool, emit: nat, s: nat, log: seq<nat>)

  function Runs(h: seq<byte>, d: seq<byte>, base: nat, log: seq<nat>, emit: nat, s: nat, t: nat, next: nat): (r: Run)
    requires emit <= s && Near(h, s, t, MAX_OFFSET)
    ensures r.tokens != [] && r.emit <= |h| && s < r.s && r.emit <= r.s
    ensures r.more ==> r.s <= |h| - INPUT_MARGIN
    decreases |h| - s, 1
  {
    MatchTokensAny(h, emit, s, t, 4 + Common(h, s + 4, t + 4));
    Prepend(LongestTokens(h, emit, s, t), Following(h, d, base, log, s, s + 4 + Common(h, s + 4, t + 4), next))
  }

  /** Tokens in front of a run. */
  function Prepend(ts: seq<nat>, r: Run): Run {
    r.(tokens := ts + r.tokens)
  }

  lemma PrependTwice(ts: seq<nat>, us: seq<nat>, r: Run)
    ensures Prepend(ts, Prepend(us, r)) == Prepend(ts + us, r)
  {
    assert ts + (us + r.tokens) == ts + us + r.tokens;
  }

  /** What follows a match whose end is e. */
  function Following(h: seq<byte>, d: seq<byte>, base: nat, log: seq<nat>, s: nat, e: nat, next: nat): (r: Run)
    requires s < e <= |h| && e >= 2
    ensures e <= r.emit <= |h| && s < r.s && r.emit <= r.s && (r.more ==> r.s <= |h| - INPUT_MARGIN)
    decreases |h| - s, 0
  {
    var s' := if next >= e then next + 1 else e;
    if s' >= |h| - INPUT_MARGIN then Run([], false, e, s', log)
    else
      var log' := log + [base + s' - 2];
      var c := Stored(h, d, base, log', s');
      if Near(h, s', c, MAX_OFFSET) then Runs(h, d, base, log' + [base + s'], e, s', c, next)
      else Run([], true, e, s' + 1, log' + [base + s'])
  }

  lemma RunsIs(h: seq<byte>, d: seq<byte>, base: nat, log: seq<nat>, emit: nat, s: nat, t: nat, next: nat)
    requires emit <= s && Near(h, s, t, MAX_OFFSET)
    ensures Runs(h, d, base, log, emit, s, t, next) ==
      Prepend(LongestTokens(h, emit, s, t), Following(h, d, base, log, s, s + 4 + Common(h, s + 4, t + 4), next))
  {
  }

  lemma FollowingIs(h: seq<byte>, d: seq<byte>, base: nat, log: seq<nat>, s: nat, e: nat, next: nat)
    requires s < e <= |h| && e >= 2
    ensures var s' := if next >= e then next + 1 else e;
      if s' >= |h| - INPUT_MARGIN then Following(h, d, base, log, s, e, next) == Run([], false, e, s', log)
      else
        var c := Stored(h, d, base, log + [base + s' - 2], s');
        var log' := log + [base + s' - 2] + [base + s'];
        Following(h, d, base, log, s, e, next) ==
          if Near(h, s', c, MAX_OFFSET) then Runs(h, d, base, log', e, s', c, next) else Run([], true, e, s' + 1, log')
  {
    hide Runs;
  }

  /** The run from what has been seen after a match. */
  function AfterMatch(h: seq<byte>, d: seq<byte>, base: nat, log: seq<nat>, emit: nat, s: nat, t: nat, next: nat,
                      over: bool, again: bool): Run
    requires emit <= s && (!over && again ==> Near(h, s, t, MAX_OFFSET))
  {
    if over then Run([], false, emit, s, log)
    else if again then Runs(h, d, base, log, emit, s, t, next)
    else Run([], true, emit, s + 1, log)
  }

  lemma PrependNone(ts: seq<nat>, r: Run)
    ensures Prepend([], r) == r && Prepend(ts, r).tokens == ts + r.tokens
    ensures var p := Prepend(ts, r); p.more == r.more && p.emit == r.emit && p.s == r.s && p.log == r.log
  {
  }

  /** What a block is turned into, and the log. */
  datatype Result = Result(tokens: seq<nat>, log: seq<nat>)

  /** All the matches of a block from s on; what is left follows as literals, unless nothing was found at all. */
  function Encoded(h: seq<byte>, d: seq<byte>, base: nat, log: seq<nat>, emit: nat, s: nat, ts: seq<nat>): Result
    requires emit <= s && emit <= |h|
    decreases |h| + INPUT_MARGIN - s
  {
    match Probes(h, d, base, log, s, emit)
    case Miss(log') => Result(if ts == [] then [] else ts + Plain(h[emit..]), log')
    case Hit(p, t, next, log') =>
      var r := Runs(h, d, base, log', emit, p, t, next);
      if r.more then Encoded(h, d, base, r.log, r.emit, r.s, ts + r.tokens)
      else Result(ts + r.tokens + Plain(h[r.emit..]), r.log)
  }

  lemma {:induction false} ZeroKey(h: seq<byte>, from: nat, s: nat)
    requires ZerosFrom(h, from) && from <= s && s + 5 <= |h|
    ensures Key(Five, h, s) == Hash5(0)
  {
    hide Hash5;
    ZeroWord(h, from, s, 5);
  }

  /** In zeros something is found at once: the position stored just before. */
  lemma ZerosHit(h: seq<byte>, d: seq<byte>, base: nat, log: seq<nat>, s: nat)
    requires ZerosFrom(h, s) && s + MIN_BLOCK <= |h| && base + |h| == |d| && h == d[base..]
    ensures Probes(h, d, base, log, s, s).Hit?
    ensures Encoded(h, d, base, log, s, s, []).tokens != []
  {
    hide Key, Runs;
    var next := s + 2;
    ZeroKey(h, s, s);
    ZeroKey(h, s, next);
    SameKey(Five, h, s, d, base);
    LastAdd(Five, d, log, base + s, Key(Five, h, next));
    assert h[next..next + 4] == h[s..s + 4];
    var p := Probes(h, d, base, log, s, s);
    var r := Runs(h, d, base, p.log, s, p.s, p.t, p.next);
    assert [] + r.tokens == r.tokens;
    if r.more { EncodedMore(h, d, base, r.log, r.emit, r.s, r.tokens); }
  }

  lemma {:induction false} EncodedMore(h: seq<byte>, d: seq<byte>, base: nat, log: seq<nat>, emit: nat, s: nat,
                                       ts: seq<nat>)
    requires emit <= s && emit <= |h| && ts != []
    ensures Encoded(h, d, base, log, emit, s, ts).tokens != []
    decreases |h| + INPUT_MARGIN - s
  {
    hide Probes, Runs;
    var p := Probes(h, d, base, log, s, emit);
    if p.Hit? {
      var r := Runs(h, d, base, p.log, emit, p.s, p.t, p.next);
      if r.more { EncodedMore(h, d, base, r.log, r.emit, r.s, ts + r.tokens); }
    }
  }

  // ---------------------------------------------------------------------------------------------
  // The table that keeps the log.
  // ---------------------------------------------------------------------------------------------

  /** The table keeps the log: every entry denotes the position stored last under its key, unless that is out of reach
      from from on. */
  predicate Keeps(table: seq<int>, at: seq<int>, cur: int, base: int, from: int, d: seq<byte>, log: seq<nat>) {
    |table| == TABLE_SIZE && Mirrors(table, at, cur, base, from) && Keyed(Five, at, d, log)
  }

  lemma KeepsStore(table: seq<int>, at: seq<int>, cur: int, base: nat, from: int, d: seq<byte>, log: seq<nat>, k: nat,
                   pos: nat)
    requires Keeps(table, at, cur, base, from, d, log) && base + pos + 8 <= |d| && k == Key(Five, d, base + pos)
    ensures Keeps(table[k := pos + cur], at[k := base + pos], cur, base, from, d, log + [base + pos])
  {
    hide Keyed, Key;
    KeyedSize(at, d, log);
    MirrorsStore(table, at, cur, base, from, k, pos);
    KeyedStore(Five, at, d, log, base + pos);
  }

  lemma KeyedSize(at: seq<int>, d: seq<byte>, log: seq<nat>)
    requires Keyed(Five, at, d, log)
    ensures |at| == TABLE_SIZE
  {
  }

  /** Looking up in the table is looking up in the log. */
  lemma KeepsNear(table: seq<int>, at: seq<int>, cur: int, base: nat, from: nat, h: seq<byte>, d: seq<byte>,
                  log: seq<nat>, s: nat, reach: nat)
    requires Keeps(table, at, cur, base, from, d, log) && base + |h| == |d| && h == d[base..] && s + 5 <= |h|
    requires reach <= MAX_OFFSET && (if reach < MAX_OFFSET then from <= s else from < s)
    ensures Near(h, s, table[Key(Five, h, s)] - cur, reach) <==> Near(h, s, Stored(h, d, base, log, s), reach)
    ensures Near(h, s, table[Key(Five, h, s)] - cur, reach) ==>
      table[Key(Five, h, s)] - cur == Stored(h, d, base, log, s)
  {
    hide Key, Last;
    MirrorsAt(table, at, cur, base, from, Key(Five, h, s));
    assert at[Key(Five, h, s)] == Last(Five, d, log, Key(Five, h, s));
  }

  class FastEncL1 {
    const gen: History
    const table: array<int>
    /** Where in everything appended so far the entries were stored, */
    ghost var at: seq<int>
    /** and all that has been stored, in order. */
    ghost var log: seq<nat>

    ghost predicate Valid()
      reads this, gen, table
    {
      && table.Length == TABLE_SIZE == |at| && gen.Valid() && Keyed(Five, at, gen.stream, log)
      && (Ready(gen.cur, gen.Base(), |gen.hist|, |gen.hist|) || (gen.hist == [] && gen.cur >= BUFFER_RESET))
    }

    /** From position s on the table's entries are harmless, and keep the log from from on. */
    ghost predicate Ready(cur: int, base: int, from: int, s: int)
      reads this`at, table
    {
      Sound(table[..], at, cur, base, s) && Mirrors(table[..], at, cur, base, from)
    }

    /** At any time an entry in reach denotes the bytes that were at its position when it was stored; was is
        everything that had been appended by then. */
    lemma EntryHolds(k: nat, was: seq<byte>)
      requires Valid() && gen.hist != [] && k < table.Length
      requires |gen.hist| - (table[k] - gen.cur) < MAX_OFFSET && was <= gen.stream && 0 <= at[k] <= |was|
      ensures 0 <= table[k] - gen.cur < |gen.hist| && was[at[k]..] <= gen.hist[table[k] - gen.cur..]
    {
      assert table[..][k] == table[k];
      SoundAt(table[..], at, gen.cur, gen.Base(), |gen.hist|, k);
      EntryBytes(was, gen.stream, gen.hist, table[k], at[k], gen.cur);
    }

    constructor (blockSize: int)
      ensures Valid() && gen.hist == gen.stream == [] && log == [] && fresh(gen) && fresh(table)
      ensures 0 < blockSize < MAX_STORE ==> blockSize + MAX_OFFSET <= gen.Want()
      ensures !(0 < blockSize < MAX_STORE) ==> gen.Want() == ALLOC_HISTORY
    {
      gen := new History(blockSize);
      table := new int[TABLE_SIZE](_ => 0);
      at, log := seq(TABLE_SIZE, _ => -1), [];
      new;
      KeyedNone(Five, at);
      MirrorsGone(table[..], at, gen.cur, 0, 0);
    }

    /** What holds inside a block: h is the end of everything appended so far, d. */
    ghost predicate Looking(h: seq<byte>, cur: int, d: seq<byte>, base: nat, from: nat, s: nat)
      reads this`at, this`log, table
    {
      && cur >= 0 && cur + |h| < MAX_INT32 && base + |h| == |d| && h == d[base..]
      && Sound(table[..], at, cur, base, s) && Keeps(table[..], at, cur, base, from, d, log)
    }

    /** Stores position pos. */
    method Store(h: seq<byte>, cur: int, k: nat, pos: nat, ghost d: seq<byte>, ghost base: nat, ghost from: nat,
            ghost was: nat, ghost top: nat)
      requires table.Length == TABLE_SIZE && Looking(h, cur, d, base, from, was)
      requires pos + 8 <= |h| && k == Key(Five, h, pos) && was <= top && pos < top
      modifies this`at, this`log, table
      ensures Looking(h, cur, d, base, from, top) && log == old(log) + [base + pos]
      ensures table[..] == old(table[..])[k := pos + cur]
    {
      hide Sound, Keeps, Key;
      SameKey(Five, h, pos, d, base);
      ghost var t, a := table[..], at;
      at := Put(table, at, cur, base, k, pos, was, top);
      KeepsStore(t, a, cur, base, from, d, log, k, pos);
      log := log + [base + pos];
    }

    /** The entry for the bytes at s is what the log gives. */
    method LookUp(h: seq<byte>, cur: int, cv: nat, s: nat, ghost d: seq<byte>, ghost base: nat, ghost from: nat)
      returns (k: nat, v: int)
      requires table.Length == TABLE_SIZE && Looking(h, cur, d, base, from, s) && Loaded(h, s, cv) && from <= s
      ensures k == Hash5(cv) == Key(Five, h, s) && k < TABLE_SIZE && v == table[k] && Harmless(v, cur, s)
      ensures Near(h, s, v - cur, MAX_OFFSET - 1) <==> Near(h, s, Stored(h, d, base, log, s), MAX_OFFSET - 1)
      ensures Near(h, s, v - cur, MAX_OFFSET - 1) ==> v - cur == Stored(h, d, base, log, s)
      ensures from < s ==> (Near(h, s, v - cur, MAX_OFFSET) <==> Near(h, s, Stored(h, d, base, log, s), MAX_OFFSET))
      ensures from < s && Near(h, s, v - cur, MAX_OFFSET) ==> v - cur == Stored(h, d, base, log, s)
    {
      hide Sound, Keeps, Key, Hash5, Harmless, Near, Loaded, Stored;
      LoadedInside(h, s, cv);
      LoadedKey(h, s, cv, d, base);
      k := Hash5(cv);
      v := table[k];
      SoundAt(table[..], at, cur, base, s, k);
      KeepsNear(table[..], at, cur, base, from, h, d, log, s, MAX_OFFSET - 1);
      if from < s { KeepsNear(table[..], at, cur, base, from, h, d, log, s, MAX_OFFSET); }
    }

    lemma KeyAt(h: seq<byte>, cur: int, s: nat, cv: nat, d: seq<byte>, base: nat, from: nat, top: nat)
      requires Looking(h, cur, d, base, from, top) && Loaded(h, s, cv)
      ensures Hash5(cv) == Key(Five, h, s)
    {
      LoadedKey(h, s, cv, d, base);
    }

    lemma LookingLater(h: seq<byte>, cur: int, d: seq<byte>, base: nat, from: nat, s: nat, s': nat)
      requires Looking(h, cur, d, base, from, s) && s <= s'
      ensures Looking(h, cur, d, base, from, s')
    {
      hide Sound, Keeps;
      SoundLater(table[..], at, cur, base, s, s');
    }

    /** Looks for four bytes that agree with earlier ones, in ever larger steps. */
    method Search(h: seq<byte>, cur: int, s0: nat, cv0: nat, nextEmit: nat, ghost d: seq<byte>, ghost base: nat,
            ghost from: nat)
      returns (found: bool, s: nat, t: nat, nextS: nat)
      requires table.Length == TABLE_SIZE && Looking(h, cur, d, base, from, s0)
      requires from <= nextEmit <= s0 <= |h| - INPUT_MARGIN && Loaded(h, s0, cv0)
      modifies this`at, this`log, table
      ensures found ==>
        s0 <= s < nextS <= |h| - INPUT_MARGIN + 1 && Near(h, s, t, MAX_OFFSET) &&
        Looking(h, cur, d, base, from, nextS + 1)
      ensures !found ==> Looking(h, cur, d, base, from, |h|)
      ensures Probes(h, d, base, old(log), s0, nextEmit) == if found then Hit(s, t, nextS, log) else Miss(log)
    {
      hide Harmless, Hash5, Load, Loaded, Match, Agrees, Looking, Key, Near, Stored, Probes;
      var sLimit := |h| - INPUT_MARGIN;
      var cv := cv0;
      s, t, nextS := s0, 0, s0;
      while true
        invariant s0 <= s <= sLimit + 1 && Loaded(h, s, cv) && Looking(h, cur, d, base, from, s)
        invariant Probes(h, d, base, log, s, nextEmit) == Probes(h, d, base, old(log), s0, nextEmit)
        decreases sLimit + 1 - s
      {
        LoadedInside(h, s, cv);
        ProbesUnfold(h, d, base, log, s, nextEmit);
        var nextHash, candidate := LookUp(h, cur, cv, s, d, base, from);
        nextS := s + 2 + (s - nextEmit) / 32;
        if nextS > sLimit {
          LookingLater(h, cur, d, base, from, s, |h|);
          return false, s, t, nextS;
        }
        var now := Load(h, nextS, 8);
        LoadedWord(h, nextS);
        Store(h, cur, nextHash, s, d, base, from, s, s + 1);
        nextHash := Hash5(now);
        KeyAt(h, cur, nextS, now, d, base, from, s + 1);
        if Agrees(h, cur, s, cv, candidate) {
          NearWider(h, s, candidate - cur);
          Store(h, cur, nextHash, nextS, d, base, from, s + 1, nextS + 1);
          return true, s, candidate - cur, nextS;
        }
        LookingLater(h, cur, d, base, from, s + 1, nextS);
        cv, s := now, nextS;
        nextS := nextS + 1;
        nextHash, candidate := LookUp(h, cur, cv, s, d, base, from);
        now := now / 0x100;
        Store(h, cur, nextHash, s, d, base, from, s, s + 1);
        if Agrees(h, cur, s, cv, candidate) {
          NearWider(h, s, candidate - cur);
          nextHash := Hash5(now);
          KeyAt(h, cur, nextS, now, d, base, from, s + 1);
          Store(h, cur, nextHash, nextS, d, base, from, s + 1, nextS + 1);
          return true, s, candidate - cur, nextS;
        }
        cv, s := now, nextS;
      }
    }

    /** Stores the position two bytes in front of s and s itself, and gives the entry that was there. */
    method NextCandidate(h: seq<byte>, cur: int, s: nat, ghost d: seq<byte>, ghost base: nat, ghost from: nat)
      returns (x: nat, candidate: int)
      requires table.Length == TABLE_SIZE && Looking(h, cur, d, base, from, s)
      requires from < s && 2 <= s <= |h| - INPUT_MARGIN
      modifies this`at, this`log, table
      ensures Loaded(h, s, x) && Loaded(h, s + 1, x / 0x100) && Harmless(candidate, cur, s)
      ensures Looking(h, cur, d, base, from, s + 1)
      ensures log == old(log) + [base + s - 2] + [base + s]
      ensures var c := Stored(h, d, base, old(log) + [base + s - 2], s);
        && (Near(h, s, candidate - cur, MAX_OFFSET) <==> Near(h, s, c, MAX_OFFSET))
        && (Near(h, s, candidate - cur, MAX_OFFSET) ==> candidate - cur == c)
    {
      hide Harmless, Hash5, Load, Loaded, Looking, Key, Near, Stored;
      x := Load(h, s - 2, 8);
      LoadedWord(h, s - 2);
      KeyAt(h, cur, s - 2, x, d, base, from, s);
      Store(h, cur, Hash5(x), s - 2, d, base, from, s, s);
      x := x / 0x1_0000;
      var currHash;
      currHash, candidate := LookUp(h, cur, x, s, d, base, from);
      Store(h, cur, currHash, s, d, base, from, s, s + 1);
    }

    /** Whether another match starts at s. */
    method NextMatch(h: seq<byte>, cur: int, s: nat, ghost d: seq<byte>, ghost base: nat, ghost from: nat)
      returns (again: bool, t: nat, x: nat)
      requires table.Length == TABLE_SIZE && Looking(h, cur, d, base, from, s)
      requires from < s && 2 <= s <= |h| - INPUT_MARGIN
      modifies this`at, this`log, table
      ensures Loaded(h, s + 1, x / 0x100) && Looking(h, cur, d, base, from, s + 1)
      ensures log == old(log) + [base + s - 2] + [base + s]
      ensures var c := Stored(h, d, base, old(log) + [base + s - 2], s);
        again == Near(h, s, c, MAX_OFFSET) && (again ==> t == c)
    {
      hide Harmless, Hash5, Load, Loaded, AgreesAfter, Looking, Key, Near, Stored;
      var candidate;
      x, candidate := NextCandidate(h, cur, s, d, base, from);
      again := AgreesAfter(h, cur, s, x, candidate);
      t := if again then candidate - cur else 0;
    }

    /** Emits matches one after the other, as long as the next starts where the last one ended. */
    method MatchChain(dst: Buffer, h: seq<byte>, cur: int, nextEmit0: nat, s0: nat, t0: nat, nextS: nat,
            ghost d: seq<byte>, ghost base: nat, ghost from: nat)
      returns (more: bool, nextEmit: nat, s: nat, cv: nat, ghost r: Run)
      requires table.Length == TABLE_SIZE && Looking(h, cur, d, base, from, nextS + 1) && table !in dst.Repr()
      requires dst.Valid() && Covered(h, from, dst.Slice(), nextEmit0)
      requires |h| - from <= MAX_BLOCK && |h| - from <= dst.tokens.Length
      requires from <= nextEmit0 <= s0 < nextS <= |h| - INPUT_MARGIN + 1 && Near(h, s0, t0, MAX_OFFSET)
      modifies this`at, this`log, table, dst`n, dst.Repr()
      ensures dst.Valid() && dst.n <= dst.tokens.Length && Covered(h, from, dst.Slice(), nextEmit) && dst.n > 0
      ensures from <= nextEmit <= |h|
      ensures more ==>
        s0 < s && nextEmit <= s <= |h| - INPUT_MARGIN && Loaded(h, s, cv) && Looking(h, cur, d, base, from, s)
      ensures !more ==> Looking(h, cur, d, base, from, |h|)
      ensures r == Runs(h, d, base, old(log), nextEmit0, s0, t0, nextS)
      ensures dst.Slice() == old(dst.Slice()) + r.tokens && log == r.log && more == r.more && nextEmit == r.emit
      ensures more ==> s == r.s
    {
      hide Harmless, Hash5, Load, Loaded, AgreesAfter, Covered, Buffer.Valid, Looking, Key, Near, Stored,
           LongestTokens, Following, Runs, Common, Prepend, Plain, Buffer.Slice;
      var sLimit := |h| - INPUT_MARGIN;
      nextEmit, s, cv := nextEmit0, s0, 0;
      var t: nat := t0;
      ghost var top: nat := nextS + 1;
      dst.Sizes();
      r := Runs(h, d, base, log, nextEmit, s, t, nextS);
      PrependNone([], r);
      ghost var ts: seq<nat> := [];
      while true
        invariant dst.Valid() && dst.n <= dst.tokens.Length && Covered(h, from, dst.Slice(), nextEmit)
        invariant s0 <= s && from <= nextEmit <= s <= sLimit + 1 && Near(h, s, t, MAX_OFFSET)
        invariant Looking(h, cur, d, base, from, top) && (top == nextS + 1 || top == s + 1)
        invariant dst.Slice() == old(dst.Slice()) + ts
        invariant r == Prepend(ts, Runs(h, d, base, log, nextEmit, s, t, nextS))
        decreases sLimit + 1 - s
      {
        ghost var now := LongestTokens(h, nextEmit, s, t);
        RunsIs(h, d, base, log, nextEmit, s, t, nextS);
        var over, again, x;
        over, again, nextEmit, s, t, x := MatchOnce(dst, h, cur, nextEmit, s, t, nextS, d, base, from, top);
        PrependTwice(ts, now, AfterMatch(h, d, base, log, nextEmit, s, t, nextS, over, again));
        Assoc(old(dst.Slice()), ts, now);
        ts := ts + now;
        PrependNone(ts, AfterMatch(h, d, base, log, nextEmit, s, t, nextS, over, again));
        if over {
          return false, nextEmit, s, cv, r;
        }
        top := s + 1;
        if !again {
          return true, nextEmit, s + 1, x / 0x100, r;
        }
      }
    }

    /** One match, and a look at what follows it. */
    method MatchOnce(dst: Buffer, h: seq<byte>, cur: int, nextEmit0: nat, s0: nat, t0: nat, nextS: nat,
            ghost d: seq<byte>, ghost base: nat, ghost from: nat, ghost top: nat)
      returns (over: bool, again: bool, nextEmit: nat, s: nat, t: nat, x: nat)
      requires table.Length == TABLE_SIZE && Looking(h, cur, d, base, from, top) && table !in dst.Repr()
      requires top == nextS + 1 || top == s0 + 1
      requires dst.Valid() && Covered(h, from, dst.Slice(), nextEmit0)
      requires |h| - from <= MAX_BLOCK && |h| - from <= dst.tokens.Length
      requires from <= nextEmit0 <= s0 && nextS <= |h| - INPUT_MARGIN + 1 && Near(h, s0, t0, MAX_OFFSET)
      modifies this`at, this`log, table, dst`n, dst.Repr()
      ensures dst.Valid() && dst.n <= dst.tokens.Length && Covered(h, from, dst.Slice(), nextEmit) && dst.n > 0
      ensures dst.Slice() == old(dst.Slice()) + LongestTokens(h, nextEmit0, s0, t0)
      ensures nextEmit == s0 + 4 + Common(h, s0 + 4, t0 + 4)
      ensures s0 < nextEmit <= s && nextEmit <= |h| && (over <==> s >= |h| - INPUT_MARGIN)
      ensures if over then Looking(h, cur, d, base, from, |h|)
        else Looking(h, cur, d, base, from, s + 1) && Loaded(h, s + 1, x / 0x100)
      ensures !over && again ==> Near(h, s, t, MAX_OFFSET)
      ensures Following(h, d, base, old(log), s0, nextEmit, nextS) ==
        AfterMatch(h, d, base, log, nextEmit, s, t, nextS, over, again)
    {
      hide Harmless, Hash5, Load, Loaded, Covered, Buffer.Valid, Looking, Key, Near, Stored, LongestTokens, Following,
           Runs, Common;
      NearMatch(h, s0, t0);
      nextEmit := EmitLongest(dst, h, from, nextEmit0, s0, t0);
      FollowingIs(h, d, base, log, s0, nextEmit, nextS);
      s, t, x, over, again := nextEmit, 0, 0, true, false;
      CoveredSize(h, from, dst.Slice(), nextEmit);
      if nextS >= s {
        s := nextS + 1;
      }
      if s >= |h| - INPUT_MARGIN {
        // The store guarded by s + l + 8 < |h| at this place is never made.
        assert s + 4 + 8 > |h|;
        LookingLater(h, cur, d, base, from, top, if top <= |h| then |h| else top);
        return;
      }
      over := false;
      LookingLater(h, cur, d, base, from, top, s);
      again, t, x := NextMatch(h, cur, s, d, base, from);
    }

    /** Emits the longest match there is between s and t, and what is in front of it. */
    method EmitLongest(dst: Buffer, h: seq<byte>, ghost from: nat, nextEmit: nat, s0: nat, t0: nat) returns (end: nat)
      requires dst.Valid() && Covered(h, from, dst.Slice(), nextEmit) && nextEmit <= s0 && Near(h, s0, t0, MAX_OFFSET)
      requires |h| - from <= MAX_BLOCK && |h| - from <= dst.tokens.Length
      modifies dst`n, dst.Repr()
      ensures dst.Valid() && dst.n <= dst.tokens.Length && Covered(h, from, dst.Slice(), end) && dst.n > 0
      ensures end == s0 + 4 + Common(h, s0 + 4, t0 + 4)
      ensures dst.Slice() == old(dst.Slice()) + LongestTokens(h, nextEmit, s0, t0)
    {
      hide Covered, Buffer.Valid, Common, Back, Match, Near, MatchTokens, LongTokens, Plain;
      NearMatch(h, s0, t0);
      dst.Sizes();
      ghost var was := dst.Slice();
      var l := LongestAgreement(h, s0 + 4, t0 + 4);
      CommonIs(h, s0 + 4, t0 + 4, l);
      MatchJoin(h, s0, t0, 4, l);
      var s, t;
      s, t, l := ExtendBack(h, s0, t0, l + 4, nextEmit);
      EmitMatch(dst, h, from, nextEmit, s, t, l);
      TokensAre(h, nextEmit, s0, t0, l - (s0 - s), s);
      Assoc(was, Plain(h[nextEmit..s]), LongTokens(l, s - t - 1));
      end := s + l;
    }

    /** Finds matches in h from position from on. */
    method FindMatches(dst: Buffer, h: seq<byte>, cur: int, from: nat, ghost d: seq<byte>, ghost base: nat)
      requires table.Length == TABLE_SIZE && Looking(h, cur, d, base, from, from) && table !in dst.Repr()
      requires dst.Valid() && dst.Slice() == [] && from + MIN_BLOCK <= |h|
      requires |h| - from <= MAX_BLOCK && |h| - from <= dst.tokens.Length
      modifies this`at, this`log, table, dst`n, dst.Repr()
      ensures Looking(h, cur, d, base, from, |h|) && dst.Valid() && AllTokens(dst.Slice())
      ensures dst.n == 0 || Covered(h, from, dst.Slice(), |h|)
      ensures dst.n == |dst.Slice()| && Encoded(h, d, base, old(log), from, from, []) == Result(dst.Slice(), log)
    {
      hide Harmless, Load, Loaded, Match, Covered, Buffer.Valid, Looking, Near, Probes, Runs;
      var nextEmit: nat, s: nat, cv: nat := from, from, Load(h, from, 8);
      LoadedWord(h, from);
      CoveredNone(h, from);
      dst.Sizes();
      while true
        invariant dst.Valid() && dst.n <= dst.tokens.Length && Covered(h, from, dst.Slice(), nextEmit) &&
          nextEmit <= |h|
        invariant from <= nextEmit <= s <= |h| - INPUT_MARGIN && Loaded(h, s, cv) && Looking(h, cur, d, base, from, s)
        invariant Encoded(h, d, base, log, nextEmit, s, dst.Slice()) == Encoded(h, d, base, old(log), from, from, [])
        decreases |h| - s
      {
        var found, pos, t, nextS := Search(h, cur, s, cv, nextEmit, d, base, from);
        if !found {
          break;
        }
        var more;
        ghost var r;
        more, nextEmit, s, cv, r := MatchChain(dst, h, cur, nextEmit, pos, t, nextS, d, base, from);
        if !more {
          break;
        }
      }
      EmitRemainder(dst, h, from, nextEmit);
    }

    /** Makes room in the position counter. */
    method ProtectWraparound()
      requires Valid()
      modifies gen`cur, table
      ensures Valid() && gen.cur < BUFFER_RESET && gen.hist == old(gen.hist)
      ensures Ready(gen.cur, gen.Base(), |gen.hist|, |gen.hist|)
    {
      hide Sound, Mirrors, Keyed;
      while gen.cur >= BUFFER_RESET
        invariant Valid() && gen.hist == old(gen.hist)
        decreases gen.cur
      {
        if |gen.hist| == 0 {
          Clear(table);
          AllGone(MAX_OFFSET);
          gen.cur := MAX_OFFSET;
          break;
        }
        ghost var q := table[..];
        Rebase(table, at, gen.cur, gen.Base(), |gen.hist|);
        MirrorsRebased(q, table[..], at, gen.cur, gen.Base(), |gen.hist|);
        gen.cur := MAX_OFFSET;
      }
    }

    /** With no history, nothing that was stored is left. */
    lemma AllGone(cur: int)
      requires table.Length == TABLE_SIZE && Keyed(Five, at, gen.stream, log)
      requires forall k :: 0 <= k < table.Length ==> table[k] < cur
      ensures Mirrors(table[..], at, cur, |gen.stream|, 0)
    {
      hide Last, Mirrors;
      forall k | 0 <= k < TABLE_SIZE ensures at[k] < |gen.stream| {
        KeyedInside(Five, at, gen.stream, log, k);
      }
      MirrorsGone(table[..], at, cur, |gen.stream|, 0);
    }

    /** Adds a block to the history. */
    method Grow(src: seq<byte>) returns (s: nat, ghost kept: seq<byte>)
      requires Valid() && |src| <= MAX_STORE && |src| + MAX_OFFSET <= gen.Want()
      modifies gen, table
      ensures gen.Valid() && gen.hist == kept + src && |kept| == s && Ready(gen.cur, gen.Base(), s, s)
      ensures s <= |old(gen.hist)| && kept == old(gen.hist)[|old(gen.hist)| - s..]
      ensures s == |old(gen.hist)| || s == MAX_OFFSET
      ensures gen.stream == old(gen.stream) + src && Keyed(Five, at, gen.stream, log)
    {
      hide Sound, Mirrors, Keyed;
      ProtectWraparound();
      ghost var was, cur, base := gen.hist, gen.cur, gen.Base();
      KeyedLonger(Five, at, gen.stream, src, log);
      s := gen.AddBlock(src);
      kept := was[|was| - s..];
      SoundMoved(table[..], at, cur, base, |was|, |was| - s);
      MirrorsMoved(table[..], at, cur, base, |was|, |was| - s);
    }

    /** Encodes a block. With no tokens afterwards nothing was found; otherwise the tokens, expanded
        after the history kept, give the block. */
    method Encode(dst: Buffer, src: seq<byte>) returns (ghost kept: seq<byte>)
      requires Valid() && dst.Valid() && dst.Slice() == [] && table !in dst.Repr()
      requires |src| <= MAX_STORE && |src| + MAX_OFFSET <= gen.Want() && |src| <= dst.tokens.Length
      modifies gen, this`at, this`log, table, dst`n, dst.Repr()
      ensures Valid() && gen.hist == kept + src && gen.stream == old(gen.stream) + src
      ensures |kept| <= |old(gen.hist)| && kept == old(gen.hist)[|old(gen.hist)| - |kept|..]
      ensures |kept| == |old(gen.hist)| || |kept| == MAX_OFFSET
      ensures |src| < MIN_BLOCK ==>
        dst.n == |src| && dst.tokens[..] == old(dst.tokens[..]) && dst.Tallied([]) && log == old(log)
      ensures |src| == 0 ==> dst.Valid() && dst.Slice() == []
      ensures |src| >= MIN_BLOCK ==>
        && dst.Valid() && AllTokens(dst.Slice())
        && (dst.n == 0 || Covered(gen.hist, |kept|, dst.Slice(), |gen.hist|))
      ensures |src| >= MIN_BLOCK && ZerosFrom(src, 0) ==> dst.n > 0
      ensures |src| >= MIN_BLOCK ==>
        && dst.n == |dst.Slice()| && gen.Base() >= 0
        && Encoded(gen.hist, gen.stream, gen.Base(), old(log), |kept|, |kept|, []) == Result(dst.Slice(), log)
    {
      hide Sound, Mirrors, Keyed, Buffer.Valid, Covered, Encoded, Ready, Looking, ZerosFrom, Suffix;
      var s;
      s, kept := Grow(src);
      KeyedSize(at, gen.stream, log);
      if |src| < MIN_BLOCK {
        dst.Sizes();
        dst.Counts();
        dst.n := |src|;
        LaterReady(s, s, |gen.hist|);
        return;
      }
      ghost var d, base := gen.stream, gen.Base();
      LooksNow(s);
      if ZerosFrom(src, 0) {
        AfterKept(src, kept);
        ZerosHit(gen.hist, d, base, log, s);
      }
      FindMatches(dst, gen.hist, gen.cur, s, d, base);
      LookedOver(s);
    }

    lemma LooksNow(s: nat)
      requires gen.Valid() && s <= |gen.hist| && Ready(gen.cur, gen.Base(), s, s) && Keyed(Five, at, gen.stream, log)
      requires table.Length == TABLE_SIZE
      ensures gen.Base() >= 0 && Looking(gen.hist, gen.cur, gen.stream, gen.Base(), s, s)
      ensures gen.hist == gen.stream[gen.Base()..]
    {
    }

    lemma LookedOver(from: nat)
      requires gen.Valid() && from <= |gen.hist| && table.Length == TABLE_SIZE && gen.Base() >= 0
      requires Looking(gen.hist, gen.cur, gen.stream, gen.Base(), from, |gen.hist|)
      ensures Valid()
    {
      hide Sound, Mirrors, Keyed;
      KeyedSize(at, gen.stream, log);
      LaterReady(from, |gen.hist|, |gen.hist|);
    }

    lemma LaterReady(from: nat, s: nat, s': nat)
      requires Ready(gen.cur, gen.Base(), from, s) && from <= s'  && s <= s'
      ensures Ready(gen.cur, gen.Base(), s', s')
    {
      hide Sound, Mirrors;
      SoundLater(table[..], at, gen.cur, gen.Base(), s, s');
      MirrorsLater(table[..], at, gen.cur, gen.Base(), from, s');
    }

    lemma AfterKept(src: seq<byte>, kept: seq<byte>)
      requires ZerosFrom(src, 0)
      ensures ZerosFrom(kept + src, |kept|)
    {
    }

    /** Forgets the history. */
    method Reset()
      requires Valid()
      modifies gen
      ensures Valid() && gen.hist == [] && gen.stream == old(gen.stream)
    {
      hide Mirrors, Keyed;
      if gen.cur <= BUFFER_RESET && Ready(gen.cur, gen.Base(), |gen.hist|, |gen.hist|) {
        SoundReset(table[..], at, gen.cur, gen.Base(), |gen.hist|);
        AllBelow();
        AllGone(gen.cur + MAX_OFFSET + |gen.hist|);
      }
      gen.Reset();
    }

    lemma AllBelow()
      requires Sound(table[..], at, gen.cur, gen.Base(), |gen.hist|)
      ensures forall k :: 0 <= k < table.Length ==> table[k] < gen.cur + MAX_OFFSET + |gen.hist|
    {
      forall k | 0 <= k < table.Length ensures table[k] < gen.cur + MAX_OFFSET + |gen.hist| {
        SoundAt(table[..], at, gen.cur, gen.Base(), |gen.hist|, k);
      }
    }
  }
}
