/** The decoder's sliding window: a ring buffer that stands for the unbounded history. */
module DictDecoder {
  import opened Words
  import opened Lz

  /** The last n bytes. */
  function Last(s: seq<byte>, n: nat): (r: seq<byte>)
    requires n <= |s|
    ensures |r| == n
  {
    s[|s| - n..]
  }

  /** hist, written up to wrPos, holds the end of the history. */
  predicate Window(hist: seq<byte>, wrPos: nat, full: bool, all: seq<byte>) {
    && wrPos <= |hist|
    && if full then |hist| <= |all| && hist[wrPos..] + hist[..wrPos] == Last(all, |hist|)
       else wrPos == |all| && hist[..wrPos] == all
  }

  function Min(a: nat, b: nat): nat {
    if a <= b then a else b
  }

  /** Bytes stored at the write position go to the end of the history; in a full window they take the
      place of the oldest ones. */
  lemma Store(hist: seq<byte>, wrPos: nat, full: bool, all: seq<byte>, data: seq<byte>, r: seq<byte>)
    requires Window(hist, wrPos, full, all) && wrPos + |data| <= |hist| == |r|
    requires r[..wrPos] == hist[..wrPos] && r[wrPos..wrPos + |data|] == data
    requires r[wrPos + |data|..] == hist[wrPos + |data|..]
    ensures Window(r, wrPos + |data|, full, all + data)
  {
    var n := |hist|;
    var p := wrPos + |data|;
    assert r[..p] == hist[..wrPos] + data;
    if full {
      var was := hist[wrPos..] + hist[..wrPos];
      assert was[|data|..] == hist[p..] + hist[..wrPos];
      assert Last(all + data, n) == Last(all, n)[|data|..] + data;
      assert r[p..] + r[..p] == was[|data|..] + data;
    }
  }

  /** A byte dist places back in the history, before the write position. */
  lemma Behind(hist: seq<byte>, wrPos: nat, full: bool, all: seq<byte>, k: nat)
    requires Window(hist, wrPos, full, all) && k < wrPos
    ensures wrPos <= |all| && all[|all| - wrPos + k] == hist[k]
  {
    if full {
      var w := hist[wrPos..] + hist[..wrPos];
      assert w[|hist| - wrPos + k] == hist[k];
      assert Last(all, |hist|)[|hist| - wrPos + k] == all[|all| - wrPos + k];
    }
  }

  /** A byte that lies after the write position in a full window. */
  lemma Ahead(hist: seq<byte>, wrPos: nat, all: seq<byte>, k: nat)
    requires Window(hist, wrPos, true, all) && wrPos <= k < |hist|
    ensures |hist| + wrPos <= |all| + k && all[|all| - |hist| - wrPos + k] == hist[k]
  {
    var w := hist[wrPos..] + hist[..wrPos];
    assert w[k - wrPos] == hist[k];
    assert Last(all, |hist|)[k - wrPos] == all[|all| - |hist| + (k - wrPos)];
  }

  /** The end of the history repeats itself with this period. */
  predicate Repeats(all: seq<byte>, len: nat, dist: nat) {
    && 1 <= dist <= len <= |all| && len % dist == 0
    && forall k :: |all| - len + dist <= k < |all| ==> all[k] == all[k - dist]
  }

  lemma {:induction false} RepeatsBack(all: seq<byte>, len: nat, dist: nat, k: nat, q: nat)
    requires Repeats(all, len, dist) && |all| - len <= k && k + q * dist < |all|
    ensures all[k + q * dist] == all[k]
    decreases q
  {
    if q > 0 {
      RepeatStep(q, dist);
      RepeatsBack(all, len, dist, k, q - 1);
      var j := k + q * dist;
      assert j - dist == k + (q - 1) * dist;
    }
  }

  lemma RepeatStep(q: nat, dist: nat)
    requires q > 0
    ensures q * dist == (q - 1) * dist + dist && (q - 1) * dist >= 0
  {
  }

  /** Repeating bytes from the start of a repeating end copies at its period: the doubling copy. */
  lemma DoublingCopy(all: seq<byte>, len: nat, dist: nat, m: nat)
    requires Repeats(all, len, dist) && m <= len
    ensures all + Last(all, len)[..m] == Extend(all, m, dist)
    ensures m == len ==> Repeats(all + Last(all, len)[..m], len + m, dist)
  {
    var r := all + Last(all, len)[..m];
    var q := len / dist - 1;
    assert q * dist == len - dist by { Whole(len, dist); }
    forall k | |all| <= k < |r| ensures r[k] == r[k - dist] {
      if k - dist < |all| {
        RepeatsBack(all, len, dist, k - len, q);
        assert r[k] == all[k - len] == all[k - len + q * dist] == all[k - dist];
      } else {
        assert r[k] == all[k - len] && r[k - dist] == all[k - dist - len];
      }
    }
    assert r[..|all|] == all;
    ExtendUnique(all, m, dist, r);
    if m == len {
      TwiceWhole(len, dist);
      forall k | |r| - (len + m) + dist <= k < |r| ensures r[k] == r[k - dist] {
        if k < |all| { assert r[k] == all[k] && r[k - dist] == all[k - dist]; }
      }
    }
  }

  lemma Whole(len: nat, dist: nat)
    requires 1 <= dist <= len && len % dist == 0
    ensures len / dist >= 1 && (len / dist - 1) * dist == len - dist
  {
    DivBracket(len, dist, 1);
    MulAdd(len / dist, -1, dist);
  }

  lemma TwiceWhole(len: nat, dist: nat)
    requires 1 <= dist && len % dist == 0
    ensures (len + len) % dist == 0
  {
    var q := len / dist;
    MulAdd(q, q, dist);
    DivUnique(len + len, q + q, 0, dist);
  }

  /** Bytes that all lie within the last dist, copied once. */
  lemma PlainCopy(all: seq<byte>, dist: nat, m: nat)
    requires 1 <= dist <= |all| && m <= dist
    ensures all + Last(all, dist)[..m] == Extend(all, m, dist)
  {
    var r := all + Last(all, dist)[..m];
    forall k | |all| <= k < |r| ensures r[k] == r[k - dist] {
      assert r[k] == all[k - dist];
    }
    assert r[..|all|] == all;
    ExtendUnique(all, m, dist, r);
  }

  lemma RepeatsSize(all: seq<byte>, len: nat, dist: nat)
    requires Repeats(all, len, dist)
    ensures 1 <= dist <= len <= |all|
  {
  }

  lemma OneRepeat(all: seq<byte>, dist: nat)
    requires 1 <= dist <= |all|
    ensures Repeats(all, dist, dist)
  {
  }

  class Dict {
    var hist: array<byte>
    var wrPos: nat
    var rdPos: nat
    var flushed: nat
    var full: bool

    /** Everything written, preset dictionary included. */
    ghost var all: seq<byte>
    ghost var preset: seq<byte>
    /** Everything handed out by readFlush. */
    ghost var given: seq<byte>

    ghost predicate Valid()
      reads this, hist
    {
      && rdPos <= wrPos <= hist.Length && hist.Length > 0
      && Window(hist[..], wrPos, full, all)
      && all == preset + given + hist[rdPos..wrPos] && flushed == |given|
    }

    /** Bytes written and not handed out. */
    function Pending(): seq<byte>
      requires rdPos <= wrPos <= hist.Length
      reads this, hist
    {
      hist[rdPos..wrPos]
    }

    constructor ()
      ensures hist.Length == 0 && fresh(hist)
    {
      hist := new byte[0];
      wrPos, rdPos, flushed, full, all, preset, given := 0, 0, 0, false, [], [], [];
    }

    /** Copies the dictionary to the front of the window. */
    method Preload(d: seq<byte>)
      requires |d| <= hist.Length
      modifies hist
      ensures hist[..|d|] == d
    {
      for i := 0 to |d|
        invariant forall k :: 0 <= k < i ==> hist[k] == d[k]
      {
        hist[i] := d[i];
      }
    }

    /** Puts the end of a preset dictionary into a window of the given size. */
    method TakeLast(size: nat, dict: seq<byte>) returns (d: seq<byte>)
      requires size > 0
      modifies this, hist
      ensures hist.Length == size && (hist == old(hist) || fresh(hist))
      ensures d == Last(dict, Min(size, |dict|)) && |d| <= size && Window(hist[..], |d|, false, d)
    {
      wrPos, rdPos, flushed, full := 0, 0, 0, false;
      if hist.Length != size {
        hist := new byte[size];
      }
      d := dict;
      if |d| > size {
        d := d[|d| - size..];
      }
      Preload(d);
      Started(hist[..], d);
    }

    /** Starts with the end of a preset dictionary. */
    method Init(size: nat, dict: seq<byte>)
      requires size > 0
      modifies this, hist
      ensures Valid() && hist.Length == size && (hist == old(hist) || fresh(hist))
      ensures all == preset == Last(dict, Min(size, |dict|)) && given == [] && rdPos == wrPos
      ensures AvailWrite() > 0
    {
      hide Window;
      var d := TakeLast(size, dict);
      wrPos, full := |d|, false;
      rdPos, flushed := 0, 0;
      if wrPos == hist.Length {
        StartOver(hist[..], false, d);
        wrPos := 0;
        full := true;
      }
      rdPos := wrPos;
      all, preset, given := d, d, [];
      assert hist[rdPos..wrPos] == [];
      assert d + [] + [] == d;
    }

    function HistSize(): (n: nat)
      requires hist.Length > 0
      reads this
    {
      if full then hist.Length else wrPos
    }

    function AvailRead(): nat
      requires rdPos <= wrPos
      reads this
    {
      wrPos - rdPos
    }

    function AvailWrite(): nat
      requires wrPos <= hist.Length
      reads this
    {
      hist.Length - wrPos
    }

    /** How far back the window reaches. */
    lemma HistSizeIs()
      requires Valid()
      ensures HistSize() == Min(|all|, hist.Length) || (full && HistSize() == hist.Length <= |all|)
      ensures HistSize() <= |all| && (|all| <= hist.Length ==> HistSize() == |all|)
      ensures HistSize() < hist.Length ==> HistSize() == |all|
    {
    }

    /** Stores data at the write position and moves it on: writeSlice filled, then writeMark. */
    method WriteSlice(data: seq<byte>)
      requires Valid() && |data| <= AvailWrite()
      modifies this`wrPos, this`all, hist
      ensures Valid() && all == old(all) + data && wrPos == old(wrPos) + |data|
    {
      hide Window;
      ghost var q, p, pending := hist[..], wrPos, hist[rdPos..wrPos];
      for i := 0 to |data|
        invariant hist[..p] == q[..p] && hist[p + i..] == q[p + i..] && wrPos == p
        invariant all == old(all)
        invariant forall k :: 0 <= k < i ==> hist[p + k] == data[k]
      {
        hist[wrPos + i] := data[i];
      }
      wrPos := wrPos + |data|;
      assert hist[p..p + |data|] == data;
      Store(q, p, full, all, data, hist[..]);
      all := all + data;
      assert hist[rdPos..p] == pending;
      assert hist[rdPos..wrPos] == pending + data;
      Assoc(preset + given, pending, data);
    }

    method WriteByte(c: byte)
      requires Valid() && AvailWrite() > 0
      modifies this`wrPos, this`all, hist
      ensures Valid() && all == old(all) + [c] && wrPos == old(wrPos) + 1
    {
      ghost var q, p, pending := hist[..], wrPos, hist[rdPos..wrPos];
      hist[wrPos] := c;
      wrPos := wrPos + 1;
      assert hist[p..p + 1] == [c];
      Store(q, p, full, all, [c], hist[..]);
      all := all + [c];
      assert hist[rdPos..wrPos] == pending + [c];
      Assoc(preset + given, pending, [c]);
    }

    /** copy(hist[dst:end], hist[src:limit]): the bytes as they were before. Returns how many. */
    method CopyWithin(dst: nat, end: nat, src: nat, limit: nat) returns (n: nat)
      requires dst <= end <= hist.Length && src <= limit <= hist.Length
      modifies hist
      ensures n == Min(end - dst, limit - src)
      ensures hist[..dst] == old(hist[..dst]) && hist[dst + n..] == old(hist[dst + n..])
      ensures hist[dst..dst + n] == old(hist[src..src + n])
    {
      n := Min(end - dst, limit - src);
      var s := hist[src..src + n];
      for i := 0 to n
        invariant hist[..dst] == old(hist[..dst]) && hist[dst + i..] == old(hist[dst + i..])
        invariant forall k :: 0 <= k < i ==> hist[dst + k] == s[k]
      {
        hist[dst + i] := s[i];
      }
    }

    /** One step of the copy: bytes from before the write position, as many as there are from src. */
    method CopyStep(dst: nat, end: nat, src: nat, ghost dist: nat, ghost len: nat) returns (dst': nat)
      requires Window(hist[..], dst, full, all) && src < dst < end <= hist.Length
      requires len == dst - src && Repeats(all, len, dist)
      modifies this`all, hist
      ensures dst < dst' <= end && Window(hist[..], dst', full, all)
      ensures all == Extend(old(all), dst' - dst, dist) && hist[..dst] == old(hist[..dst])
      ensures dst' < end ==> Repeats(all, dst' - src, dist)
    {
      hide Window, Repeats, Extend;
      ghost var q := hist[..];
      ghost var m := Min(end - dst, dst - src);
      RepeatsSize(all, len, dist);
      SourceBytes(q, dst, full, all, src, m);
      DoublingCopy(all, len, dist, m);
      var n := CopyWithin(dst, end, src, dst);
      Store(q, dst, full, all, q[src..src + n], hist[..]);
      all := all + q[src..src + n];
      dst' := dst + n;
    }

    /** Copies up to end from src, each step twice as much as the one before. */
    method CopyForward(dst: nat, end: nat, src: nat, ghost dist: nat) returns (dst': nat)
      requires Window(hist[..], dst, full, all) && 1 <= dist <= |all| && dst <= end <= hist.Length
      requires dst < end ==> src + dist == dst
      modifies this`all, hist
      ensures dst' == end && Window(hist[..], end, full, all) && all == Extend(old(all), end - dst, dist)
      ensures hist[..dst] == old(hist[..dst])
    {
      hide Window, Repeats;
      ghost var h0 := all;
      dst' := dst;
      OneRepeat(all, dist);
      ExtendNone(h0, dist);
      while dst' < end
        invariant dst <= dst' <= end && hist[..dst] == old(hist[..dst])
        invariant Window(hist[..], dst', full, all) && all == Extend(h0, dst' - dst, dist)
        invariant dst' < end ==> src < dst' && Repeats(all, dst' - src, dist)
        decreases end - dst'
      {
        ghost var before, q := dst', hist[..];
        dst' := CopyStep(dst', end, src, dist, dst' - src);
        ExtendSplit(h0, before - dst, dst' - before, dist);
        assert hist[..dst] == hist[..before][..dst] == q[..before][..dst];
      }
    }

    /** The bytes of a copy up to end, around the end of the buffer first when they start there. */
    method CopyBytes(dist: nat, endPos: nat) returns (dstPos: nat)
      requires Valid() && 1 <= dist <= HistSize() && wrPos <= endPos <= hist.Length
      modifies this`all, hist
      ensures dstPos == endPos && Window(hist[..], endPos, full, all) && old(dist <= |all|)
      ensures all == Extend(old(all), endPos - wrPos, dist) && hist[rdPos..wrPos] == old(hist[rdPos..wrPos])
    {
      hide Window, Extend;
      HistSizeIs();
      ghost var h0 := all;
      WindowSize();
      dstPos := wrPos;
      var srcPos: int := dstPos - dist;
      ExtendNone(h0, dist);
      if srcPos < 0 {
        srcPos := srcPos + hist.Length;
        dstPos := WrapCopy(dist, endPos, srcPos);
        srcPos := 0;
      }
      ghost var mid, q := dstPos, hist[..];
      dstPos := CopyForward(dstPos, endPos, srcPos, dist);
      ExtendSplit(h0, mid - wrPos, endPos - mid, dist);
      SamePart(q, hist[..], mid, rdPos, wrPos);
    }

    /** Copies up to length bytes from dist back, as many as there is room for. */
    method WriteCopy(dist: nat, length: nat) returns (cnt: nat)
      requires Valid() && 1 <= dist <= HistSize()
      modifies this`wrPos, this`all, hist
      ensures Valid() && cnt == Min(length, old(AvailWrite())) && wrPos == old(wrPos) + cnt
      ensures old(dist <= |all|) && all == Extend(old(all), cnt, dist)
    {
      hide Window;
      HistSizeIs();
      ghost var h0, pending := all, hist[rdPos..wrPos];
      var dstBase := wrPos;
      var endPos := Min(dstBase + length, hist.Length);
      var dstPos := CopyBytes(dist, endPos);
      wrPos := dstPos;
      cnt := dstPos - dstBase;
      WrittenPart(hist[..], wrPos, full, all, h0, rdPos, dstBase, preset + given, pending);
    }

    lemma WindowSize()
      requires Valid()
      ensures Window(hist[..], wrPos, full, all) && |all| >= wrPos
    {
      if full { assert |hist[..]| <= |all|; }
    }

    /** Only a full window reaches back beyond its write position. */
    lemma WrapsFull()
      requires Valid()
      ensures HistSize() > wrPos ==> full
      ensures Window(hist[..], wrPos, full, all)
    {
    }

    /** The first part of a copy whose source wraps around the end of the buffer. */
    method WrapCopy(dist: nat, endPos: nat, srcPos: nat) returns (dstPos: nat)
      requires Valid() && wrPos < dist <= HistSize() && wrPos <= endPos <= hist.Length &&
        srcPos == wrPos + hist.Length - dist
      modifies this`all, hist
      ensures wrPos <= dstPos <= endPos && Window(hist[..], dstPos, full, all) && old(dist <= |all|)
      ensures all == Extend(old(all), dstPos - wrPos, dist) && hist[rdPos..wrPos] == old(hist[rdPos..wrPos])
      ensures dstPos < endPos ==> dstPos == dist
    {
      hide Window, Extend;
      HistSizeIs();
      ghost var q := hist[..];
      ghost var m := Min(endPos - wrPos, hist.Length - srcPos);
      WrapsFull();
      WrapBytes(q, wrPos, all, dist, m);
      PlainCopy(all, dist, m);
      var n := CopyWithin(wrPos, endPos, srcPos, hist.Length);
      Store(q, wrPos, full, all, q[srcPos..srcPos + n], hist[..]);
      all := all + q[srcPos..srcPos + n];
      dstPos := wrPos + n;
      SamePart(q, hist[..], wrPos, rdPos, wrPos);
    }

    /** Copies all of length at once when neither end wraps around; else does nothing. */
    method TryWriteCopy(dist: nat, length: nat) returns (cnt: nat)
      requires Valid() && 1 <= dist <= HistSize()
      modifies this`wrPos, this`all, hist
      ensures Valid() && (cnt == 0 || cnt == length) && wrPos == old(wrPos) + cnt
      ensures cnt == 0 ==> all == old(all)
      ensures old(dist <= |all|) && all == Extend(old(all), cnt, dist)
      ensures old(wrPos) >= dist && length <= old(AvailWrite()) ==> cnt == length
    {
      hide Window;
      HistSizeIs();
      ghost var h0, pending, q := all, hist[rdPos..wrPos], hist[..];
      WindowSize();
      ExtendNone(h0, dist);
      var dstPos := wrPos;
      var endPos := dstPos + length;
      if dstPos < dist || endPos > hist.Length {
        return 0;
      }
      var dstBase := dstPos;
      var srcPos := dstPos - dist;
      dstPos := CopyForward(dstPos, endPos, srcPos, dist);
      SamePart(q, hist[..], dstBase, rdPos, dstBase);
      wrPos := dstPos;
      cnt := dstPos - dstBase;
      WrittenPart(hist[..], wrPos, full, all, h0, rdPos, dstBase, preset + given, pending);
    }

    /** The window, oldest byte first, after what is in dst. */
    method AppendWindow(dst: seq<byte>) returns (r: seq<byte>)
      requires Valid()
      ensures HistSize() <= |all| && r == dst + Last(all, HistSize())
    {
      if full {
        r := dst + hist[wrPos..] + hist[..wrPos];
        assert hist[..][wrPos..] == hist[wrPos..] && hist[..][..wrPos] == hist[..wrPos];
      } else {
        r := dst + hist[..wrPos];
        assert hist[..][..wrPos] == hist[..wrPos];
      }
    }

    /** Hands out what has been written since the last time. A window written to its end starts over. */
    method ReadFlush() returns (toRead: seq<byte>)
      requires Valid()
      modifies this`rdPos, this`wrPos, this`flushed, this`full, this`given
      ensures Valid() && toRead == old(Pending()) && given == old(given) + toRead && Pending() == []
      ensures all == preset + given && AvailWrite() > 0 && HistSize() == old(HistSize())
      ensures old(AvailWrite()) > 0 ==> wrPos == old(wrPos)
    {
      hide Window;
      toRead := hist[rdPos..wrPos];
      given := given + toRead;
      flushed := flushed + |toRead|;
      rdPos := wrPos;
      if wrPos == hist.Length {
        StartOver(hist[..], full, all);
        wrPos, rdPos := 0, 0;
        full := true;
      }
      assert hist[rdPos..wrPos] == [];
      Assoc(preset, old(given), toRead);
      assert preset + given + [] == preset + given;
    }

    /** Bytes decoded since init, preset dictionary excluded. */
    method Decoded() returns (n: nat)
      requires Valid()
      ensures n == |all| - |preset|
    {
      n := flushed + (wrPos - rdPos);
    }
  }

  // ---------------------------------------------------------------------------------------------
  // Steps of the copies.
  // ---------------------------------------------------------------------------------------------

  /** A window filled from its start. */
  lemma Started(q: seq<byte>, d: seq<byte>)
    requires |d| <= |q| && q[..|d|] == d
    ensures Window(q, |d|, false, d)
  {
  }

  /** A window written to its end is a full one to be written from its start. */
  lemma StartOver(q: seq<byte>, full: bool, all: seq<byte>)
    requires Window(q, |q|, full, all)
    ensures Window(q, 0, true, all)
  {
    assert q[|q|..] + q[..|q|] == q && q[0..] + q[..0] == q;
    assert q[..|q|] == q;
  }

  lemma ExtendNone(h: seq<byte>, dist: nat)
    requires 1 <= dist <= |h|
    ensures Extend(h, 0, dist) == h
  {
  }

  /** Bytes before the write position are the end of the history. */
  lemma SourceBytes(q: seq<byte>, dst: nat, full: bool, all: seq<byte>, src: nat, m: nat)
    requires Window(q, dst, full, all) && src < dst && m <= dst - src
    ensures dst <= |all| && q[src..src + m] == Last(all, dst - src)[..m]
  {
    Behind(q, dst, full, all, src);
    var t := q[src..src + m];
    forall k | 0 <= k < m ensures t[k] == Last(all, dst - src)[k] {
      Behind(q, dst, full, all, src + k);
    }
  }

  /** Bytes after the write position of a full window are older ones. */
  lemma WrapBytes(q: seq<byte>, wrPos: nat, all: seq<byte>, dist: nat, m: nat)
    requires Window(q, wrPos, true, all) && wrPos < dist <= |q| && m <= dist - wrPos
    ensures dist <= |all| && var s := wrPos + |q| - dist; q[s..s + m] == Last(all, dist)[..m]
  {
    var s := wrPos + |q| - dist;
    var t := q[s..s + m];
    forall k | 0 <= k < m ensures t[k] == Last(all, dist)[k] {
      Ahead(q, wrPos, all, s + k);
    }
  }

  lemma SamePart(q: seq<byte>, r: seq<byte>, n: nat, i: nat, j: nat)
    requires i <= j <= n <= |q| == |r| && r[..n] == q[..n]
    ensures r[i..j] == q[i..j]
  {
    assert r[i..j] == r[..n][i..j] && q[i..j] == q[..n][i..j];
  }

  /** The pending bytes grow by what the copy added. */
  lemma WrittenPart(q: seq<byte>, wrPos: nat, full: bool, all: seq<byte>, h0: seq<byte>, rdPos: nat, base: nat,
                    before: seq<byte>, pending: seq<byte>)
    requires Window(q, wrPos, full, all) && rdPos <= base <= wrPos && h0 <= all && |all| == |h0| + (wrPos - base)
    requires h0 == before + pending && q[rdPos..base] == pending
    ensures wrPos <= |q| && all == before + q[rdPos..wrPos]
  {
    assert all == h0 + all[|h0|..];
    forall k | base <= k < wrPos ensures q[k] == all[|h0|..][k - base] { Behind(q, wrPos, full, all, k); }
    assert q[base..wrPos] == all[|h0|..];
    assert q[rdPos..wrPos] == q[rdPos..base] + q[base..wrPos];
    Assoc(before, pending, all[|h0|..]);
  }
}
