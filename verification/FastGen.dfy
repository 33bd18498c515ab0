/** The history buffer of the fast match finders, and why stale table entries are harmless. */
module FastGen {
  import opened Words
  import opened Lz
  import opened MatchLen

  const MAX_OFFSET: nat := 0x8000
  const MAX_STORE: nat := 65535
  const ALLOC_HISTORY: nat := 5 * MAX_STORE
  const BUFFER_RESET: nat := 0x8000_0000 - ALLOC_HISTORY - MAX_STORE - 1
  const MAX_INT32: nat := 0x7FFF_FFFF
  const MIN_BLOCK: nat := 13
  const INPUT_MARGIN: nat := 11

  // ---------------------------------------------------------------------------------------------
  // Table entries.
  // ---------------------------------------------------------------------------------------------

  /** Seen from position s or later, the entry v either points at earlier history or is out of reach. */
  predicate Harmless(v: int, cur: int, s: int) {
    && 0 <= v <= MAX_INT32 && v - cur < s
    && (v - cur >= 0 || v - cur + MAX_OFFSET < s || v - cur + MAX_OFFSET <= 0)
  }

  /** An entry that points into the history does so at the absolute position where it was stored; base is the
      absolute position of the history's first byte. */
  predicate Placed(v: int, at: int, cur: int, base: int) {
    v - cur >= 0 ==> at == base + v - cur
  }

  /** Every entry of the table is harmless and in place. */
  predicate Sound(table: seq<int>, at: seq<int>, cur: int, base: int, s: int) {
    && |at| == |table|
    && forall k :: 0 <= k < |table| ==> Harmless(table[k], cur, s) && Placed(table[k], at[k], cur, base)
  }

  /** An entry that passes the distance test points into the history. */
  lemma PassesTest(v: int, cur: int, s: nat)
    requires Harmless(v, cur, s)
    ensures s - (v - cur) < MAX_OFFSET ==> 0 <= v - cur < s
    ensures s > 0 && s - (v - cur) <= MAX_OFFSET ==> 0 <= v - cur < s
  {
  }

  lemma SoundAt(table: seq<int>, at: seq<int>, cur: int, base: int, s: int, k: nat)
    requires Sound(table, at, cur, base, s) && k < |table|
    ensures Harmless(table[k], cur, s) && Placed(table[k], at[k], cur, base)
  {
  }

  lemma SoundLater(table: seq<int>, at: seq<int>, cur: int, base: int, s: int, s': int)
    requires Sound(table, at, cur, base, s) && s <= s'
    ensures Sound(table, at, cur, base, s')
  {
  }

  lemma SoundStore(table: seq<int>, at: seq<int>, cur: int, base: int, s: int, k: nat, pos: nat, s': int)
    requires Sound(table, at, cur, base, s) && k < |table| && cur >= 0 && s <= s' && pos < s' && pos + cur <= MAX_INT32
    ensures Sound(table[k := pos + cur], at[k := base + pos], cur, base, s')
  {
    var t, a := table[k := pos + cur], at[k := base + pos];
    forall i | 0 <= i < |t| ensures Harmless(t[i], cur, s') && Placed(t[i], a[i], cur, base) {
      if i != k { assert t[i] == table[i] && a[i] == at[i]; }
    }
  }

  /** Dropping d bytes from the front of the history and raising cur by d: what was in reach is still in
      place, and what is gone is out of reach. */
  lemma SoundMoved(table: seq<int>, at: seq<int>, cur: int, base: int, s: nat, d: nat)
    requires Sound(table, at, cur, base, s) && (d == 0 || s - d == MAX_OFFSET)
    ensures Sound(table, at, cur + d, base + d, s - d)
  {
  }

  /** Raising cur past everything stored puts every entry out of reach. */
  lemma SoundReset(table: seq<int>, at: seq<int>, cur: int, base: int, s: nat)
    requires Sound(table, at, cur, base, s)
    ensures Sound(table, at, cur + MAX_OFFSET + s, base + s, 0)
  {
  }

  /** The history is the end of everything appended so far. */
  predicate Suffix(hist: seq<byte>, stream: seq<byte>) {
    |hist| <= |stream| && hist == stream[|stream| - |hist|..]
  }

  /** An entry that passes the distance test denotes the bytes that were at its position when it was stored:
      they are in the stream at that absolute position, and the stream only grows. */
  lemma EntryBytes(was: seq<byte>, stream: seq<byte>, hist: seq<byte>, v: int, at: int, cur: int)
    requires was <= stream && Suffix(hist, stream) && Harmless(v, cur, |hist|)
    requires Placed(v, at, cur, |stream| - |hist|) && |hist| - (v - cur) < MAX_OFFSET && 0 <= at <= |was|
    ensures 0 <= v - cur < |hist| && was[at..] <= hist[v - cur..]
  {
    PassesTest(v, cur, |hist|);
    assert hist[v - cur..] == stream[at..];
    assert was == stream[..|was|];
  }

  /** An entry after rebasing to cur = 32768. */
  function Rebased(v: int, cur: int, s: nat): int {
    if v <= cur + s - MAX_OFFSET then 0 else v - cur + MAX_OFFSET
  }

  lemma RebasedHarmless(v: int, cur: int, s: nat)
    requires Harmless(v, cur, s) && 0 < s < MAX_INT32 - MAX_OFFSET
    ensures Harmless(Rebased(v, cur, s), MAX_OFFSET, s)
    ensures v - cur > s - MAX_OFFSET ==> Rebased(v, cur, s) - MAX_OFFSET == v - cur
  {
  }

  /** Stores position pos under k. */
  method Put(table: array<int>, ghost at: seq<int>, cur: int, ghost base: int, k: nat, pos: nat, ghost was: int,
          ghost top: int)
    returns (ghost at': seq<int>)
    requires Sound(table[..], at, cur, base, was) && k < table.Length && cur >= 0
    requires was <= top && pos < top && pos + cur <= MAX_INT32
    modifies table
    ensures Sound(table[..], at', cur, base, top) && table[..] == old(table[..])[k := pos + cur]
    ensures k < |at| && at' == at[k := base + pos]
  {
    SoundStore(table[..], at, cur, base, was, k, pos, top);
    ghost var q := table[..];
    table[k] := pos + cur;
    assert table[..] == q[k := pos + cur];
    at' := at[k := base + pos];
  }

  /** Shifts down everything in a table that is not already too far away. */
  method Rebase(table: array<int>, ghost at: seq<int>, cur: int, ghost base: int, s: nat)
    requires Sound(table[..], at, cur, base, s) && 0 < s < MAX_INT32 - MAX_OFFSET
    modifies table
    ensures Sound(table[..], at, MAX_OFFSET, base, s)
    ensures forall k :: 0 <= k < table.Length ==> table[k] == Rebased(old(table[k]), cur, s)
  {
    var minOff := cur + s - MAX_OFFSET;
    for i := 0 to table.Length
      invariant forall k :: 0 <= k < i ==> table[k] == Rebased(old(table[k]), cur, s)
      invariant forall k :: i <= k < table.Length ==> table[k] == old(table[k])
    {
      var v := table[i];
      if v <= minOff {
        v := 0;
      } else {
        v := v - cur + MAX_OFFSET;
      }
      table[i] := v;
    }
    ghost var q := old(table[..]);
    forall k | 0 <= k < table.Length
      ensures Harmless(table[..][k], MAX_OFFSET, s) && Placed(table[..][k], at[k], MAX_OFFSET, base)
    {
      assert Harmless(q[k], cur, s) && Placed(q[k], at[k], cur, base);
      RebasedHarmless(q[k], cur, s);
    }
  }

  method Clear(table: array<int>)
    modifies table
    ensures forall k :: 0 <= k < table.Length ==> table[k] == 0
    ensures forall at: seq<int>, base: int :: |at| == table.Length ==> Sound(table[..], at, MAX_OFFSET, base, 0)
  {
    for i := 0 to table.Length
      invariant forall k :: 0 <= k < i ==> table[k] == 0
    {
      table[i] := 0;
    }
  }

  // ---------------------------------------------------------------------------------------------
  // The history.
  // ---------------------------------------------------------------------------------------------

  class History {
    var hist: seq<byte>
    var cap: nat
    var cur: int
    const histSize: nat
    /** Everything appended so far, whatever has been dropped from the history since. */
    ghost var stream: seq<byte>

    /** Capacity wanted for the history. */
    function Want(): nat {
      if histSize > 0 then histSize else ALLOC_HISTORY
    }

    ghost predicate Valid()
      reads this
    {
      && 2 * MAX_OFFSET <= Want() <= ALLOC_HISTORY
      && (cap == 0 || cap == Want()) && |hist| <= cap
      && cur >= 0 && cur + |hist| < MAX_INT32 && Suffix(hist, stream)
    }

    /** Absolute position of the history's first byte. */
    ghost function Base(): int
      reads this
    {
      |stream| - |hist|
    }

    /** A history sized for blocks of blockSize bytes; 0 or at least 65535 for the default. */
    constructor (blockSize: int)
      ensures Valid() && hist == [] && stream == [] && cur == MAX_STORE
      ensures 0 < blockSize < MAX_STORE ==> blockSize + MAX_OFFSET <= Want()
      ensures !(0 < blockSize < MAX_STORE) ==> Want() == ALLOC_HISTORY
      ensures fresh(this)
    {
      hist, cap, cur, stream := [], 0, MAX_STORE, [];
      if blockSize <= 0 || blockSize >= MAX_STORE {
        histSize := 0;
      } else {
        var n := MAX_OFFSET + blockSize;
        if n < 2 * MAX_OFFSET {
          n := 2 * MAX_OFFSET;
        }
        histSize := n;
      }
    }

    /** Appends a block, first moving the last 32768 bytes to the front if the block does not fit.
        The buffer is allocated once, and positions stay within 31 bits. */
    method AddBlock(src: seq<byte>) returns (s: nat)
      requires Valid() && cur < BUFFER_RESET && |src| <= MAX_STORE && |src| + MAX_OFFSET <= Want()
      modifies this
      ensures Valid() && s <= |old(hist)| && hist == old(hist)[|old(hist)| - s..] + src && |hist| == s + |src|
      ensures s == |old(hist)| || s == MAX_OFFSET
      ensures cur == old(cur) + (|old(hist)| - s) && stream == old(stream) + src
      ensures cap == old(cap) || (old(cap) == 0 && cap == Want())
    {
      if |hist| + |src| > cap {
        if cap == 0 {
          hist, cap := [], Want();
        } else {
          var offset := |hist| - MAX_OFFSET;
          hist := hist[offset..offset + MAX_OFFSET];
          cur := cur + offset;
        }
      }
      s := |hist|;
      cap := if |hist| + |src| <= cap then cap else |hist| + |src|;
      hist := hist + src;
      stream := stream + src;
    }

    /** Moves the position base so that everything stored is out of reach, and empties the history. */
    method Reset()
      requires Valid()
      modifies this
      ensures Valid() && hist == [] && stream == old(stream)
      ensures cur == if old(cur) <= BUFFER_RESET then old(cur) + MAX_OFFSET + |old(hist)| else old(cur)
    {
      if cap < Want() {
        hist, cap := [], Want();
      }
      if cur <= BUFFER_RESET {
        cur := cur + MAX_OFFSET + |hist|;
      }
      hist := [];
    }
  }
}
