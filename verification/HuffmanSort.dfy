/** Sorting the used symbols by frequency and then by value: where the counting sort puts each
    symbol, and why the result is in order. */
module HuffmanSort {
  import opened Words
  import opened Canon
  import opened HuffmanTree

  const SYMBOL_SPAN: nat := 1024

  /** A number in the high bits above a 10-bit symbol. */
  function Pack(hi: nat, sym: nat): (w: nat)
    requires sym < SYMBOL_SPAN
    ensures High(w) == hi && Symbol(w) == sym
  {
    hi * SYMBOL_SPAN + sym
  }

  function High(w: nat): nat { w / SYMBOL_SPAN }

  function Symbol(w: nat): nat { w % SYMBOL_SPAN }

  /** Storing into an unsigned word: the value must fit, so nothing wraps. */
  function U32(x: nat): nat
    requires x < 0x1_0000_0000
  {
    x
  }

  function U16(x: nat): nat
    requires x < 0x1_0000
  {
    x
  }

  /** Frequencies are 16-bit, every symbol fits in 10 bits, and the total fits in the other 22. */
  predicate ValidFreq(freq: seq<nat>) {
    && 3 <= |freq| <= SYMBOL_SPAN
    && (forall s :: 0 <= s < |freq| ==> freq[s] < 0x1_0000)
    && Sum(freq) < 0x40_0000
  }

  /** The entry q stands for a used symbol with its frequency. */
  predicate IsEntry(freq: seq<nat>, q: nat) {
    Symbol(q) < |freq| && freq[Symbol(q)] > 0 && High(q) == freq[Symbol(q)]
  }

  function Entry(freq: seq<nat>, s: nat): nat
    requires s < |freq| <= SYMBOL_SPAN
  {
    Pack(freq[s], s)
  }

  predicate StrictlyAscending(q: seq<nat>) {
    forall j, k :: 0 <= j < k < |q| ==> q[j] < q[k]
  }

  /** The used symbols, each exactly once, by frequency and then by value. */
  predicate SortedEntries(freq: seq<nat>, q: seq<nat>) {
    && |freq| <= SYMBOL_SPAN
    && StrictlyAscending(q)
    && (forall k :: 0 <= k < |q| ==> IsEntry(freq, q[k]))
    && (forall s :: 0 <= s < |freq| && freq[s] > 0 ==> Entry(freq, s) in q)
  }

  // ---------------------------------------------------------------------------------------------
  // Slots of the counting sort.
  // ---------------------------------------------------------------------------------------------

  /** Frequencies capped at the last counter. */
  function Buckets(freq: seq<nat>): (b: seq<nat>)
    requires |freq| >= 1
    ensures |b| == |freq|
    ensures forall s :: 0 <= s < |b| ==> b[s] == if freq[s] > |freq| - 1 then |freq| - 1 else freq[s]
  {
    seq(|freq|, s requires 0 <= s < |freq| => if freq[s] > |freq| - 1 then |freq| - 1 else freq[s])
  }

  /** How many symbols lie in buckets 1 to c - 1. */
  function Base(b: seq<nat>, c: nat): nat
    requires c >= 1
  {
    if c == 1 then 0 else Base(b, c - 1) + Count(b, c - 1)
  }

  function Slot(b: seq<nat>, s: nat): nat
    requires s < |b| && b[s] >= 1
  {
    Base(b, b[s]) + CountTo(b, b[s], s)
  }

  lemma {:induction false} BaseOrder(b: seq<nat>, c: nat, d: nat)
    requires 1 <= c <= d
    ensures Base(b, c) <= Base(b, d)
    ensures c < d ==> Base(b, c) + Count(b, c) <= Base(b, d)
  {
    if c < d { BaseOrder(b, c, d - 1); }
  }

  lemma SlotInside(b: seq<nat>, s: nat)
    requires s < |b| && b[s] >= 1
    ensures Base(b, b[s]) <= Slot(b, s) < Base(b, b[s]) + Count(b, b[s]) == Base(b, b[s] + 1)
  {
    CountToMono(b, b[s], s, |b|);
  }

  /** Slots follow the order of buckets, then of symbols. */
  lemma SlotOrder(b: seq<nat>, s: nat, t: nat)
    requires s < |b| && t < |b| && 1 <= b[s] <= b[t] && (b[s] == b[t] ==> s < t)
    ensures Slot(b, s) < Slot(b, t)
  {
    if b[s] == b[t] {
      CountToMono(b, b[s], s, t);
    } else {
      SlotInside(b, s);
      BaseOrder(b, b[s] + 1, b[t]);
    }
  }

  lemma SlotInjective(b: seq<nat>, s: nat, t: nat)
    requires s < |b| && t < |b| && b[s] >= 1 && b[t] >= 1 && s != t
    ensures Slot(b, s) != Slot(b, t)
  {
    if b[s] < b[t] || (b[s] == b[t] && s < t) { SlotOrder(b, s, t); } else { SlotOrder(b, t, s); }
  }

  /** Every slot below the total belongs to a symbol. */
  lemma {:induction false} SlotOwner(b: seq<nat>, c: nat, p: nat) returns (s: nat)
    requires c >= 1 && p < Base(b, c)
    ensures s < |b| && 1 <= b[s] < c && Slot(b, s) == p
  {
    if p < Base(b, c - 1) {
      s := SlotOwner(b, c - 1, p);
    } else {
      s := FindNth(b, c - 1, p - Base(b, c - 1), |b|);
    }
  }

  /** All used symbols counted once. */
  lemma {:induction false} BaseBound(b: seq<nat>, c: nat, k: nat)
    requires c >= 1 && k <= |b|
    ensures BaseTo(b, c, k) <= k
  {
    if k > 0 {
      BaseBound(b, c, k - 1);
      BaseToStep(b, c, k);
    } else {
      BaseToZero(b, c);
    }
  }

  function BaseTo(b: seq<nat>, c: nat, k: nat): nat
    requires c >= 1 && k <= |b|
  {
    if c == 1 then 0 else BaseTo(b, c - 1, k) + CountTo(b, c - 1, k)
  }

  lemma {:induction false} BaseToZero(b: seq<nat>, c: nat)
    requires c >= 1
    ensures BaseTo(b, c, 0) == 0
  {
    if c > 1 { BaseToZero(b, c - 1); }
  }

  lemma {:induction false} BaseToStep(b: seq<nat>, c: nat, k: nat)
    requires c >= 1 && 0 < k <= |b|
    ensures BaseTo(b, c, k) == BaseTo(b, c, k - 1) + if 1 <= b[k - 1] < c then 1 else 0
  {
    if c > 1 { BaseToStep(b, c - 1, k); }
  }

  lemma {:induction false} BaseIsBaseTo(b: seq<nat>, c: nat)
    requires c >= 1
    ensures Base(b, c) == BaseTo(b, c, |b|)
  {
    if c > 1 { BaseIsBaseTo(b, c - 1); }
  }

  lemma SlotsFit(b: seq<nat>, c: nat)
    requires c >= 1
    ensures Base(b, c) <= |b|
  {
    BaseIsBaseTo(b, c);
    BaseBound(b, c, |b|);
  }

  /** The first k symbols have been placed. */
  predicate Placed(freq: seq<nat>, q: seq<nat>, k: nat) {
    && 1 <= |freq| <= SYMBOL_SPAN && k <= |freq|
    && forall s :: 0 <= s < k && freq[s] > 0 && |freq| >= 2 ==>
      Slot(Buckets(freq), s) < |q| && q[Slot(Buckets(freq), s)] == Entry(freq, s)
  }

  /** Once all symbols are placed, the slots below the saturated bucket are in order, and every
      slot of that bucket comes after them. */
  lemma PlacedOrder(freq: seq<nat>, q: seq<nat>, j: nat, k: nat)
    requires 2 <= |freq| && Placed(freq, q, |freq|)
    requires j < k < Base(Buckets(freq), |freq|) <= |q|
    ensures j < Base(Buckets(freq), |freq| - 1) ==> q[j] < q[k]
    ensures q[j] != q[k]
  {
    hide Base, CountTo, Slot, Placed;
    var b, n := Buckets(freq), |freq|;
    var s := PlacedOwner(freq, q, j);
    var t := PlacedOwner(freq, q, k);
    assert b[s] < b[t] || (b[s] == b[t] && s < t) by {
      if b[t] < b[s] || (b[t] == b[s] && t < s) { SlotOrder(b, t, s); }
    }
    if j < Base(b, n - 1) {
      Unsaturated(b, s, n - 1);
      assert freq[s] < freq[t] || (freq[s] == freq[t] && s < t);
    }
    EntriesCompare(freq, s, t);
  }

  lemma EntriesCompare(freq: seq<nat>, s: nat, t: nat)
    requires s < |freq| <= SYMBOL_SPAN && t < |freq|
    ensures Entry(freq, s) == Entry(freq, t) <==> s == t
    ensures freq[s] < freq[t] || (freq[s] == freq[t] && s < t) ==> Entry(freq, s) < Entry(freq, t)
  {
  }

  lemma PlacedOwner(freq: seq<nat>, q: seq<nat>, j: nat) returns (s: nat)
    requires 2 <= |freq| && Placed(freq, q, |freq|) && j < Base(Buckets(freq), |freq|) <= |q|
    ensures s < |freq| <= SYMBOL_SPAN && freq[s] > 0
    ensures Slot(Buckets(freq), s) == j && q[j] == Entry(freq, s)
  {
    s := SlotOwner(Buckets(freq), |freq|, j);
  }

  lemma Unsaturated(b: seq<nat>, s: nat, c: nat)
    requires s < |b| && 1 <= b[s] && c >= 1 && Slot(b, s) < Base(b, c)
    ensures b[s] < c
  {
    SlotInside(b, s);
    if c <= b[s] { BaseOrder(b, c, b[s]); }
  }

  /** Only the saturated span has been rearranged, and it is now in order. */
  predicate SpanResult(freq: seq<nat>, q: seq<nat>, r: seq<nat>, lo: nat, hi: nat) {
    && 3 <= |freq| && Placed(freq, q, |freq|) && |q| == |r|
    && lo == Base(Buckets(freq), |freq| - 1) && hi == Base(Buckets(freq), |freq|)
    && lo <= hi <= |q|
    && r[..lo] == q[..lo] && multiset(r[lo..hi]) == multiset(q[lo..hi])
    && forall j, k :: lo <= j <= k < hi ==> r[j] <= r[k]
  }

  /** Every entry of the span was in the span before, and every entry before it stays put. */
  lemma CameFrom(freq: seq<nat>, q: seq<nat>, r: seq<nat>, lo: nat, hi: nat, k: nat) returns (x: nat)
    requires SpanResult(freq, q, r, lo, hi) && k < hi
    ensures x < hi && r[k] == q[x] && (k < lo ==> x == k) && (k >= lo ==> x >= lo)
  {
    hide Placed, Base, Buckets;
    if k < lo {
      x := k;
      assert r[k] == r[..lo][k] == q[..lo][k];
    } else {
      assert r[lo..hi][k - lo] == r[k];
      assert r[k] in multiset(r[lo..hi]);
      x := PickFrom(q, lo, hi, r[k]);
    }
  }

  lemma WentTo(freq: seq<nat>, q: seq<nat>, r: seq<nat>, lo: nat, hi: nat, x: nat) returns (k: nat)
    requires SpanResult(freq, q, r, lo, hi) && x < hi
    ensures k < hi && r[k] == q[x]
  {
    hide Placed, Base, Buckets;
    if x < lo {
      k := x;
      assert q[k] == r[..lo][k] == q[..lo][k];
    } else {
      assert q[lo..hi][x - lo] == q[x];
      assert q[x] in multiset(q[lo..hi]);
      k := PickFrom(r, lo, hi, q[x]);
    }
  }

  lemma SpanOrder(freq: seq<nat>, q: seq<nat>, r: seq<nat>, lo: nat, hi: nat, j: nat, k: nat)
    requires SpanResult(freq, q, r, lo, hi) && j < k < hi
    ensures r[j] < r[k]
  {
    hide Placed, Base, Buckets;
    if j < lo {
      var y := CameFrom(freq, q, r, lo, hi, j);
      var x := CameFrom(freq, q, r, lo, hi, k);
      PlacedOrder(freq, q, j, x);
    } else {
      SpanDistinct(freq, q, r, lo, hi, j, k);
    }
  }

  /** Sorting the saturated span finishes the job. */
  lemma SpanSorted(freq: seq<nat>, q: seq<nat>, r: seq<nat>, lo: nat, hi: nat)
    requires SpanResult(freq, q, r, lo, hi) && |freq| <= SYMBOL_SPAN
    ensures SortedEntries(freq, r[..hi])
  {
    hide SpanResult;
    assert hi <= |r| by { SpanSize(freq, q, r, lo, hi); }
    forall k | 0 <= k < hi
      ensures IsEntry(freq, r[k])
    {
      var x := CameFrom(freq, q, r, lo, hi, k);
      SpanSize(freq, q, r, lo, hi);
      EntryAt(freq, q, x);
    }
    forall j, k | 0 <= j < k < hi
      ensures r[j] < r[k]
    {
      SpanOrder(freq, q, r, lo, hi, j, k);
    }
    forall s | 0 <= s < |freq| && freq[s] > 0
      ensures Entry(freq, s) in r[..hi]
    {
      SpanSize(freq, q, r, lo, hi);
      var x := EntrySlot(freq, q, s);
      var k := WentTo(freq, q, r, lo, hi, x);
      assert r[..hi][k] == q[x];
    }
  }

  lemma SpanSize(freq: seq<nat>, q: seq<nat>, r: seq<nat>, lo: nat, hi: nat)
    requires SpanResult(freq, q, r, lo, hi)
    ensures 3 <= |freq| && Placed(freq, q, |freq|) && hi == Base(Buckets(freq), |freq|)
    ensures lo <= hi <= |r| == |q|
  {
  }

  lemma EntrySlot(freq: seq<nat>, q: seq<nat>, s: nat) returns (x: nat)
    requires 2 <= |freq| <= SYMBOL_SPAN && Placed(freq, q, |freq|)
    requires s < |freq| && freq[s] > 0
    ensures x < Base(Buckets(freq), |freq|) && x < |q| && q[x] == Entry(freq, s)
  {
    var b := Buckets(freq);
    SlotInside(b, s);
    BaseOrder(b, b[s] + 1, |freq|);
    x := Slot(b, s);
  }

  lemma PickFrom(q: seq<nat>, lo: nat, hi: nat, x: nat) returns (k: nat)
    requires lo <= hi <= |q| && x in q[lo..hi]
    ensures lo <= k < hi && q[k] == x
  {
    var i :| 0 <= i < hi - lo && q[lo..hi][i] == x;
    k := lo + i;
  }

  lemma EntryAt(freq: seq<nat>, q: seq<nat>, k: nat)
    requires 2 <= |freq| && Placed(freq, q, |freq|) && k < Base(Buckets(freq), |freq|) <= |q|
    ensures IsEntry(freq, q[k])
  {
    hide Placed, Base, Slot, Buckets;
    var s := PlacedOwner(freq, q, k);
  }

  lemma {:induction false} MultisetTwice(s: seq<nat>, j: nat, k: nat)
    requires j < k < |s| && s[j] == s[k]
    ensures multiset(s)[s[j]] >= 2
  {
    assert s == s[..k] + [s[k]] + s[k + 1..];
    assert s[j] in s[..k] by { assert s[..k][j] == s[j]; }
  }

  lemma {:induction false} MultisetOnce(s: seq<nat>, x: nat)
    requires forall j, k :: 0 <= j < k < |s| ==> s[j] != s[k]
    ensures multiset(s)[x] <= 1
  {
    if s != [] {
      assert s == [s[0]] + s[1..];
      MultisetOnce(s[1..], x);
      if s[0] == x { assert x !in s[1..]; }
    }
  }

  lemma SpanDistinct(freq: seq<nat>, q: seq<nat>, r: seq<nat>, lo: nat, hi: nat, j: nat, k: nat)
    requires SpanResult(freq, q, r, lo, hi)
    requires lo <= j < k < hi
    ensures r[j] != r[k]
  {
    hide Placed, Base, Buckets;
    var p, e := q[lo..hi], r[lo..hi];
    assert e[j - lo] == r[j] && e[k - lo] == r[k];
    if r[j] == r[k] { MultisetTwice(e, j - lo, k - lo); }
    forall a, b | 0 <= a < b < |p|
      ensures p[a] != p[b]
    {
      PlacedOrder(freq, q, lo + a, lo + b);
    }
    MultisetOnce(p, r[j]);
  }

  // ---------------------------------------------------------------------------------------------
  // Insertion.
  // ---------------------------------------------------------------------------------------------

  /** Entry i of s moved down to position j. */
  function MoveDown(s: seq<nat>, j: nat, i: nat): (r: seq<nat>)
    requires j <= i < |s|
    ensures |r| == |s|
  {
    s[..j] + [s[i]] + s[j..i] + s[i + 1..]
  }

  lemma MoveDownAt(s: seq<nat>, j: nat, i: nat)
    requires j <= i < |s|
    ensures forall k {:trigger MoveDown(s, j, i)[k]} :: 0 <= k < |s| ==>
      MoveDown(s, j, i)[k] == if k == j then s[i] else if j < k <= i then s[k - 1] else s[k]
  {
  }

  lemma MoveDownPermutes(s: seq<nat>, j: nat, i: nat)
    requires j <= i < |s|
    ensures multiset(MoveDown(s, j, i)) == multiset(s)
  {
    assert s == s[..j] + s[j..i] + [s[i]] + s[i + 1..];
  }
}
