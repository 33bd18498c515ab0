/** From sorted symbols and length counts to the code of the whole alphabet. */
module HuffmanCode {
  import opened Words
  import opened Canon
  import opened HuffmanTree
  import opened HuffmanOptimal
  import opened HuffmanLengths
  import opened HuffmanSort

  // ---------------------------------------------------------------------------------------------
  // Sums over the used symbols in sorted order.
  // ---------------------------------------------------------------------------------------------

  function Symbols(q: seq<nat>): (sy: seq<nat>)
    ensures |sy| == |q| && forall k :: 0 <= k < |q| ==> sy[k] == Symbol(q[k])
  {
    seq(|q|, k requires 0 <= k < |q| => Symbol(q[k]))
  }

  function Weights(q: seq<nat>): (f: seq<nat>)
    ensures |f| == |q| && forall k :: 0 <= k < |q| ==> f[k] == High(q[k])
  {
    seq(|q|, k requires 0 <= k < |q| => High(q[k]))
  }

  /** sy lists distinct positions of a sequence of length n. */
  predicate Listing(sy: seq<nat>, n: nat) {
    && (forall k :: 0 <= k < |sy| ==> sy[k] < n)
    && (forall j, k :: 0 <= j < k < |sy| ==> sy[j] != sy[k])
  }

  /** sy lists exactly the symbols with a frequency. */
  predicate ListsUsed(sy: seq<nat>, freq: seq<nat>) {
    Listing(sy, |freq|) && forall s :: 0 <= s < |freq| ==> (freq[s] > 0 <==> s in sy)
  }

  function Pick(v: seq<nat>, sy: seq<nat>): (r: seq<nat>)
    requires Listing(sy, |v|)
    ensures |r| == |sy| && forall k :: 0 <= k < |sy| ==> r[k] == v[sy[k]]
  {
    seq(|sy|, k requires 0 <= k < |sy| => v[sy[k]])
  }

  lemma EntryOrder(freq: seq<nat>, a: nat, b: nat)
    requires IsEntry(freq, a) && IsEntry(freq, b) && a < b
    ensures Symbol(a) != Symbol(b) && High(a) <= High(b)
  {
  }

  lemma SortedListing(freq: seq<nat>, q: seq<nat>)
    requires SortedEntries(freq, q)
    ensures ListsUsed(Symbols(q), freq) && Ascending(Weights(q))
    ensures Weights(q) == Pick(freq, Symbols(q))
  {
    hide IsEntry, Symbol, High;
    var sy, f := Symbols(q), Weights(q);
    forall k | 0 <= k < |q|
      ensures sy[k] < |freq| && freq[sy[k]] > 0 && f[k] == freq[sy[k]]
    {
      EntryParts(freq, q[k]);
    }
    forall j, k | 0 <= j < k < |q|
      ensures sy[j] != sy[k] && f[j] <= f[k]
    {
      EntryOrder(freq, q[j], q[k]);
    }
    forall s | 0 <= s < |freq| && freq[s] > 0
      ensures s in sy
    {
      var k :| 0 <= k < |q| && q[k] == Entry(freq, s);
      assert sy[k] == s;
    }
  }

  lemma EntryParts(freq: seq<nat>, a: nat)
    requires IsEntry(freq, a)
    ensures Symbol(a) < |freq| && freq[Symbol(a)] > 0 && High(a) == freq[Symbol(a)]
  {
  }

  /** Where a used symbol stands in the sorted order. */
  lemma PlaceOf(freq: seq<nat>, sy: seq<nat>, s: nat) returns (k: nat)
    requires ListsUsed(sy, freq) && s < |freq| && freq[s] > 0
    ensures k < |sy| && sy[k] == s
  {
    k :| 0 <= k < |sy| && sy[k] == s;
  }

  lemma {:induction false} SumZero(v: seq<nat>, s: nat)
    requires s < |v|
    ensures Sum(v[s := 0]) + v[s] == Sum(v)
  {
    if s > 0 {
      SumZero(v[1..], s - 1);
      assert v[s := 0][1..] == v[1..][s - 1 := 0];
    } else {
      assert v[s := 0][1..] == v[1..];
    }
  }

  lemma {:induction false} PickSum(v: seq<nat>, sy: seq<nat>)
    requires Listing(sy, |v|)
    ensures Sum(Pick(v, sy)) <= Sum(v)
    decreases sy
  {
    if sy != [] {
      var s, r := sy[0], sy[1..];
      SumZero(v, s);
      assert Listing(r, |v|);
      assert Pick(v[s := 0], r) == Pick(v, sy)[1..] by {
        assert forall k :: 0 <= k < |r| ==> r[k] == sy[k + 1] != s;
      }
      PickSum(v[s := 0], r);
    }
  }

  lemma {:induction false} CostZero(v: seq<nat>, l: seq<nat>, s: nat)
    requires s < |v| == |l|
    ensures Cost(v[s := 0], l) + v[s] * l[s] == Cost(v, l)
  {
    if s > 0 {
      CostZero(v[1..], l[1..], s - 1);
      assert v[s := 0][1..] == v[1..][s - 1 := 0];
    } else {
      assert v[s := 0][1..] == v[1..];
    }
  }

  lemma {:induction false} CostNone(v: seq<nat>, l: seq<nat>)
    requires |v| == |l| && forall s :: 0 <= s < |v| ==> v[s] == 0
    ensures Cost(v, l) == 0
  {
    if v != [] { CostNone(v[1..], l[1..]); }
  }

  /** The cost over the alphabet is the cost over the sorted used symbols. */
  lemma {:induction false} PickCost(v: seq<nat>, l: seq<nat>, sy: seq<nat>)
    requires |v| == |l| && Listing(sy, |v|) && forall s :: 0 <= s < |v| && v[s] > 0 ==> s in sy
    ensures Cost(v, l) == Cost(Pick(v, sy), Pick(l, sy))
    decreases sy
  {
    if sy == [] {
      CostNone(v, l);
    } else {
      var s, r := sy[0], sy[1..];
      CostZero(v, l, s);
      assert Listing(r, |v|);
      assert forall k :: 0 <= k < |r| ==> r[k] == sy[k + 1] != s;
      assert Pick(v[s := 0], r) == Pick(v, sy)[1..];
      assert Pick(l, r) == Pick(l, sy)[1..];
      forall u | 0 <= u < |v| && v[s := 0][u] > 0 ensures u in r {
        assert u in sy && u != s;
      }
      PickCost(v[s := 0], l, r);
    }
  }

  // ---------------------------------------------------------------------------------------------
  // Assigning lengths along the sorted order.
  // ---------------------------------------------------------------------------------------------

  /** g holds the lengths given so far and 0 for the symbols not reached yet. */
  predicate Given(g: seq<nat>, lens: seq<nat>, sy: seq<nat>, i: nat) {
    && |g| <= |lens| && Listing(sy, |g|) && i <= |sy|
    && (forall k :: 0 <= k < i ==> g[sy[k]] == lens[sy[k]])
    && (forall k :: i <= k < |sy| ==> g[sy[k]] == 0)
    && (forall s :: 0 <= s < |g| && s !in sy ==> g[s] == 0)
  }

  /** The ranks given so far, in order. */
  predicate Ranked(g: seq<nat>, c: seq<int>, m: nat, sy: seq<nat>, i: nat) {
    Listing(sy, |g|) && i <= |sy| && forall k :: 0 <= k < i ==> Rank(c, m, k, g[sy[k]])
  }

  lemma {:induction false} CountUpdate(g: seq<nat>, s: nat, v: nat, x: nat, k: nat)
    requires s < |g| && k <= |g|
    ensures CountTo(g[s := v], x, k)
      == CountTo(g, x, k) + if s < k then (if v == x then 1 else 0) - (if g[s] == x then 1 else 0) else 0
  {
    if k > 0 { CountUpdate(g, s, v, x, k - 1); }
  }

  /** Lengths above l are all given, done of length l, none shorter. */
  predicate Tally(g: seq<nat>, c: seq<int>, m: nat, l: nat, done: int) {
    && l <= m < |c|
    && forall x :: 1 <= x <= MAX_BITS + 1 ==>
      Count(g, x) == if x > m then 0 else if x > l then c[x] else if x == l then done else 0
  }

  lemma GiveLength(g: seq<nat>, lens: seq<nat>, sy: seq<nat>, i: nat, c: seq<int>, m: nat, l: nat, done: int)
    requires Given(g, lens, sy, i) && i < |sy| && Ranked(g, c, m, sy, i)
    requires Tally(g, c, m, l, done) && 1 <= l <= MAX_BITS + 1
    requires i == From(c, m, l + 1) + done && 0 <= done < c[l]
    ensures Given(g[sy[i] := l], lens[sy[i] := l], sy, i + 1)
    ensures Ranked(g[sy[i] := l], c, m, sy, i + 1)
    ensures Tally(g[sy[i] := l], c, m, l, done + 1)
  {
    var g' := g[sy[i] := l];
    forall x | 1 <= x <= MAX_BITS + 1
      ensures Count(g', x) == Count(g, x) + if x == l then 1 else 0
    {
      CountUpdate(g, sy[i], l, x, |g|);
    }
    assert Rank(c, m, i, l);
    forall k | 0 <= k < i + 1 ensures Rank(c, m, k, g'[sy[k]]) { }
  }

  lemma {:induction false} CountZeros(g: seq<nat>, x: nat, k: nat)
    requires k <= |g| && x >= 1 && forall s :: 0 <= s < |g| ==> g[s] == 0
    ensures CountTo(g, x, k) == 0
  {
    if k > 0 { CountZeros(g, x, k - 1); }
  }

  lemma TallyStart(g: seq<nat>, c: seq<int>, m: nat)
    requires m < |c| && forall s :: 0 <= s < |g| ==> g[s] == 0
    ensures Tally(g, c, m, m, 0)
  {
    forall x | 1 <= x <= MAX_BITS + 1 ensures Count(g, x) == 0 { CountZeros(g, x, |g|); }
  }

  /** The finished lengths have the given counts, so they fill the code space. */
  lemma {:induction false} SpaceIsKraft(lens: seq<nat>, c: seq<int>, m: nat, l: nat)
    requires l <= MAX_BITS && m <= MAX_BITS < |c| && Tally(lens, c, m, 0, 0)
    ensures KraftBelow(lens, l + 1) == SpaceTo(c, if l <= m then l else m)
  {
    if l > 0 {
      SpaceIsKraft(lens, c, m, l - 1);
    }
  }

  /** What the construction gives: code lengths for exactly the used symbols, at most m, never
      longer for a more frequent symbol, filling the code space when there are two or more. */
  predicate GoodLengths(freq: seq<nat>, lens: seq<nat>, m: nat) {
    && |lens| == |freq| && m <= MAX_BITS
    && (forall s :: 0 <= s < |freq| ==> lens[s] <= m && (lens[s] > 0 <==> freq[s] > 0))
    && (forall s, t :: 0 <= s < |freq| && 0 <= t < |freq| && 0 < freq[s] < freq[t] ==> lens[t] <= lens[s])
  }

  lemma RankedGood(freq: seq<nat>, q: seq<nat>, lens: seq<nat>, c: seq<int>, m: nat)
    requires SortedEntries(freq, q) && |lens| == |freq| && Counts(c, m, |q|)
    requires Ranked(lens, c, m, Symbols(q), |q|)
    requires forall s :: 0 <= s < |freq| && s !in Symbols(q) ==> lens[s] == 0
    ensures GoodLengths(freq, lens, m)
  {
    hide SortedEntries, From;
    var sy := Symbols(q);
    assert ListsUsed(sy, freq) by { SortedListing(freq, q); }
    forall s | 0 <= s < |freq|
      ensures lens[s] <= m && (lens[s] > 0 <==> freq[s] > 0)
    {
      if freq[s] > 0 {
        var j := PlaceOf(freq, sy, s);
        assert Rank(c, m, j, lens[sy[j]]);
      }
    }
    forall s, t | 0 <= s < |freq| && 0 <= t < |freq| && 0 < freq[s] < freq[t]
      ensures lens[t] <= lens[s]
    {
      var j := PlaceOf(freq, sy, s);
      var k := PlaceOf(freq, sy, t);
      RarerFirst(freq, q, j, k);
      RankOrder(c, m, j, lens[s], k, lens[t]);
    }
  }

  lemma RarerFirst(freq: seq<nat>, q: seq<nat>, j: nat, k: nat)
    requires SortedEntries(freq, q) && j < |q| && k < |q| && Listing(Symbols(q), |freq|)
    requires freq[Symbols(q)[j]] < freq[Symbols(q)[k]]
    ensures j < k
  {
    SortedListing(freq, q);
    assert Weights(q)[j] < Weights(q)[k];
  }

  // ---------------------------------------------------------------------------------------------
  // Optimality over the alphabet.
  // ---------------------------------------------------------------------------------------------

  /** Height of the unrestricted tree for sorted frequencies f. */
  function TreeHeight(f: seq<nat>): nat
    requires |f| >= 2 && Ascending(f)
  {
    Finished(f);
    Depth(Tree(f).parent, 0) + 1
  }

  /** The words of the used symbols form a prefix code. */
  predicate CodesUsed(freq: seq<nat>, words: seq<seq<bool>>) {
    |words| == |freq| &&
    forall s, t :: 0 <= s < |freq| && 0 <= t < |freq| && s != t && freq[s] > 0 && freq[t] > 0 ==>
      !(words[s] <= words[t])
  }

  function PickWords(words: seq<seq<bool>>, sy: seq<nat>): (r: seq<seq<bool>>)
    requires Listing(sy, |words|)
    ensures |r| == |sy| && forall k :: 0 <= k < |sy| ==> r[k] == words[sy[k]]
  {
    seq(|sy|, k requires 0 <= k < |sy| => words[sy[k]])
  }

  /** Lengths that give each sorted symbol its tree depth cost no more than any prefix code. */
  lemma AlphabetOptimal(freq: seq<nat>, q: seq<nat>, lens: seq<nat>, words: seq<seq<bool>>)
    requires SortedEntries(freq, q) && |q| >= 2 && |lens| == |freq| && CodesUsed(freq, words)
    requires Ascending(Weights(q)) && Listing(Symbols(q), |lens|)
    requires Pick(lens, Symbols(q)) == TreeLengths(Weights(q))
    ensures Cost(freq, lens) <= Cost(freq, Lengths(words))
  {
    hide Cost, TreeLengths;
    SortedListing(freq, q);
    var sy := Symbols(q);
    PickCost(freq, lens, sy);
    PickCost(freq, Lengths(words), sy);
    var c := PickWords(words, sy);
    assert Lengths(c) == Pick(Lengths(words), sy);
    forall j, k | 0 <= j < k < |c|
      ensures !Comparable(c[j], c[k])
    {
      assert freq[sy[j]] > 0 && freq[sy[k]] > 0 && sy[j] != sy[k];
    }
    TreeBeatsPrefixCodes(Weights(q), c);
  }

  /** With exact counts every rank gets its tree depth. */
  lemma ExactRanks(f: seq<nat>, c: seq<int>, m: nat, g: seq<nat>, sy: seq<nat>)
    requires |f| >= 3 && Ascending(f) && |sy| == |f| && TreeHeight(f) <= m < |c|
    requires Finite(Tree(f))
    requires forall d :: 1 <= d <= m ==> c[d] == Count(LeafDepths(Tree(f)), d)
    requires Ranked(g, c, m, sy, |f|)
    ensures Pick(g, sy) == TreeLengths(f)
  {
    hide Depth, Count;
    var t := Tree(f);
    var d := LeafDepths(t);
    forall k | 0 <= k < |f| ensures 1 <= d[k] <= m { LeafBelow(t, k); }
    forall j, k | 0 <= j <= k < |f| ensures d[k] <= d[j] { LeafOrder(t, j, k); }
    forall k | 0 <= k < |f|
      ensures g[sy[k]] == d[k]
    {
      RankIsDepth(c, m, d, k, g[sy[k]]);
    }
  }
}
