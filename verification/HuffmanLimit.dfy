/** An alphabet for which the length limit costs more than it has to: clamping gives 477 bits where
    lengths within the limit take 474. */
module HuffmanLimit {
  import opened Words
  import opened Canon
  import opened HuffmanTree
  import opened HuffmanOptimal
  import opened HuffmanHeight
  import opened HuffmanLengths
  import opened HuffmanSort
  import opened HuffmanCode
  import opened HuffmanEncoder

  const FREQ: seq<nat> := [1, 1, 1, 6, 8, 10, 46, 53, 90]
  const PARENT: seq<nat> := [1, 2, 3, 4, 5, 6, 7]
  const GIVEN: seq<nat> := [7, 7, 7, 7, 5, 4, 3, 2, 1]
  const BETTER: seq<nat> := [7, 7, 6, 5, 5, 5, 3, 2, 1]
  const COUNTS: seq<int> := [0, 1, 1, 1, 1, 1, 0, 4]

  /** The first m merges make a chain. */
  function Chain(m: nat): (t: Forest)
    requires 1 <= m <= 8
  {
    Forest([2, 3, 9, 17, 27, 73, 126, 216][..m], PARENT[..m - 1], [0, 0, 1, 2, 3, 4, 5, 6, 7][..m + 1])
  }

  lemma ChainMerge(m: nat)
    requires 1 <= m < 8
    ensures Shape(FREQ, Chain(m)) && Merge(FREQ, Chain(m)) == Chain(m + 1)
  {
    var r := Merge(FREQ, Chain(m));
    assert r.weight == Chain(m + 1).weight && r.parent == Chain(m + 1).parent;
    assert r.leafParent == Chain(m + 1).leafParent;
  }

  lemma {:induction false} ChainGrows(m: nat)
    requires 1 <= m <= 8
    ensures Shape(FREQ, Chain(m)) && Grow(FREQ, Chain(m)) == Chain(8)
    decreases 8 - m
  {
    hide Merge, Chain;
    if m < 8 {
      ChainMerge(m);
      ChainGrows(m + 1);
      ChainSize(m);
      GrowStep(FREQ, Chain(m));
    } else {
      ChainSize(8);
      GrowEnd(FREQ, Chain(8));
    }
  }

  lemma ChainSize(m: nat)
    requires 1 <= m <= 8
    ensures Shape(FREQ, Chain(m)) && |Chain(m).weight| == m
  {
  }

  /** The tree is a chain. */
  lemma ChainTree()
    ensures Tree(FREQ).parent == PARENT
  {
    hide Grow;
    assert Merge(FREQ, EMPTY) == Chain(1);
    GrowStep(FREQ, EMPTY);
    ChainGrows(1);
  }

  lemma {:induction false} ChainDepth(j: nat)
    requires j <= 7
    ensures Rising(PARENT) && Depth(PARENT, j) == 7 - j
    decreases 7 - j
  {
    if j < 7 { ChainDepth(j + 1); }
  }

  /** The node at depth 7 is clamped to length 6. */
  lemma ChainCounts()
    ensures Rising(PARENT) && LimitedCounts(PARENT, 7, 0) == COUNTS
  {
    forall j | 0 <= j <= 7 ensures Depth(PARENT, j) == 7 - j { ChainDepth(j); }
    hide Depth;
    assert LimitedCounts(PARENT, 7, 7) == [0, 2, 0, 0, 0, 0, 0, 0];
    assert LimitedCounts(PARENT, 7, 6) == [0, 1, 2, 0, 0, 0, 0, 0];
    assert LimitedCounts(PARENT, 7, 5) == [0, 1, 1, 2, 0, 0, 0, 0];
    assert LimitedCounts(PARENT, 7, 4) == [0, 1, 1, 1, 2, 0, 0, 0];
    assert LimitedCounts(PARENT, 7, 3) == [0, 1, 1, 1, 1, 2, 0, 0];
    assert LimitedCounts(PARENT, 7, 2) == [0, 1, 1, 1, 1, 1, 2, 0];
    assert LimitedCounts(PARENT, 7, 1) == [0, 1, 1, 1, 1, 1, 1, 2];
  }

  lemma GivenRank(k: nat)
    requires k < 9
    ensures Rank(COUNTS, 7, k, GIVEN[k])
  {
    assert From(COUNTS, 7, 8) == 0;
    assert From(COUNTS, 7, 7) == 4 == From(COUNTS, 7, 6);
    assert From(COUNTS, 7, 5) == 5;
    assert From(COUNTS, 7, 4) == 6;
    assert From(COUNTS, 7, 3) == 7;
    assert From(COUNTS, 7, 2) == 8;
    assert From(COUNTS, 7, 1) == 9;
  }

  function ExampleOrder(): (q: seq<nat>)
    ensures |q| == 9 && forall k :: 0 <= k < 9 ==> q[k] == Pack(FREQ[k], k)
  {
    seq(9, k requires 0 <= k < 9 => Pack(FREQ[k], k))
  }

  lemma ExampleEntry(k: nat)
    requires k < 9
    ensures IsEntry(FREQ, Pack(FREQ[k], k)) && High(Pack(FREQ[k], k)) == FREQ[k] && Symbol(Pack(FREQ[k], k)) == k
    ensures Pack(FREQ[k], k) == Entry(FREQ, k)
  {
  }

  lemma ExampleSorted()
    ensures SortedEntries(FREQ, ExampleOrder())
    ensures Weights(ExampleOrder()) == FREQ && Symbols(ExampleOrder()) == [0, 1, 2, 3, 4, 5, 6, 7, 8]
  {
    var q := ExampleOrder();
    assert forall k :: 0 <= k < 9 ==> q[k] == FREQ[k] * 1024 + k;
    hide Pack;
    assert StrictlyAscending(q);
    forall k | 0 <= k < 9 ensures IsEntry(FREQ, q[k]) && High(q[k]) == FREQ[k] && Symbol(q[k]) == k { ExampleEntry(k); }
    forall s | 0 <= s < 9 ensures Entry(FREQ, s) in q { ExampleEntry(s); assert q[s] == Entry(FREQ, s); }
  }

  lemma ExampleCosts()
    ensures Cost(FREQ, GIVEN) == 477 && Cost(FREQ, BETTER) == 474
  {
    CostNine(FREQ, GIVEN);
    CostNine(FREQ, BETTER);
  }

  lemma CostNine(w: seq<nat>, l: seq<nat>)
    requires |w| == |l| == 9
    ensures Cost(w, l) == w[0] * l[0] + w[1] * l[1] + w[2] * l[2] + w[3] * l[3] + w[4] * l[4] + w[5] * l[5]
      + w[6] * l[6] + w[7] * l[7] + w[8] * l[8]
  {
    CostThree(w, l);
    CostThree(w[3..], l[3..]);
    CostThree(w[6..], l[6..]);
    assert w[3..][3..] == w[6..] && l[3..][3..] == l[6..] && w[6..][3..] == [] && l[6..][3..] == [];
  }

  lemma CostThree(w: seq<nat>, l: seq<nat>)
    requires |w| == |l| >= 3
    ensures Cost(w, l) == w[0] * l[0] + w[1] * l[1] + w[2] * l[2] + Cost(w[3..], l[3..])
  {
    CostStep(w, l);
    CostStep(w[1..], l[1..]);
    CostStep(w[2..], l[2..]);
    assert w[1..][1..] == w[2..] && l[1..][1..] == l[2..] && w[2..][1..] == w[3..] && l[2..][1..] == l[3..];
  }

  lemma CostStep(w: seq<nat>, l: seq<nat>)
    requires |w| == |l| > 0
    ensures Cost(w, l) == w[0] * l[0] + Cost(w[1..], l[1..])
  {
  }

  lemma BetterFits()
    ensures Feasible(BETTER, 7)
  {
    assert Pow2(0) == 1 && Pow2(1) == 2 && Pow2(2) == 4 && Pow2(4) == 16 && Pow2(5) == 32 && Pow2(6) == 64 &&
      Pow2(7) == 128;
    KraftThree(BETTER, 7);
    KraftThree(BETTER[3..], 7);
    KraftThree(BETTER[6..], 7);
    assert BETTER[3..][3..] == BETTER[6..] && BETTER[6..][3..] == [];
  }

  lemma KraftThree(l: seq<nat>, n: nat)
    requires |l| >= 3 && forall k :: 0 <= k < |l| ==> l[k] <= n
    ensures KraftSum(l, n) == Pow2(n - l[0]) + Pow2(n - l[1]) + Pow2(n - l[2]) + KraftSum(l[3..], n)
  {
    KraftStep(l, n);
    KraftStep(l[1..], n);
    KraftStep(l[2..], n);
    assert l[1..][1..] == l[2..] && l[2..][1..] == l[3..];
  }

  lemma KraftStep(l: seq<nat>, n: nat)
    requires |l| > 0 && forall k :: 0 <= k < |l| ==> l[k] <= n
    ensures KraftSum(l, n) == Pow2(n - l[0]) + KraftSum(l[1..], n)
  {
  }

  /** Whatever is built for these frequencies under limit 7 is this, although the limit allows better. */
  lemma LimitCosts(lens: seq<nat>, q: seq<nat>)
    requires SortedEntries(FREQ, q) && Built(FREQ, lens, 7, q)
    ensures lens == GIVEN && |q| == 9 && Ascending(Weights(q)) && TreeHeight(Weights(q)) == 8
    ensures Cost(FREQ, lens) == 477
    ensures Feasible(BETTER, 7) && Cost(FREQ, BETTER) == 474
  {
    hide SortedEntries, Tree, Depth, LimitedCounts, From, Cost, KraftSum, Feasible, Complete;
    ExampleSorted();
    SortedOnce(FREQ, q, ExampleOrder());
    ChainTree();
    ChainCounts();
    ChainDepth(0);
    ExampleCosts();
    BetterFits();
    var sy := Symbols(q);
    forall k | 0 <= k < 9 ensures lens[k] == GIVEN[k] {
      GivenRank(k);
      assert sy[k] == k;
      RankOnce(COUNTS, 7, k, lens[sy[k]], GIVEN[k]);
    }
  }
}
