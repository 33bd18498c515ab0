/** What the depth pass keeps: counts of codewords per length that fill the code space exactly,
    and, while no node is clamped, the exact number of leaves at each depth. */
module HuffmanLengths {
  import opened Words
  import opened Canon
  import opened HuffmanTree
  import opened HuffmanOptimal

  // ---------------------------------------------------------------------------------------------
  // Counts of codewords per length.
  // ---------------------------------------------------------------------------------------------

  /** Code space taken by c[d] codewords of each length d in 1..m. */
  function SpaceTo(c: seq<int>, m: nat): int
    requires m < |c| && m <= MAX_BITS
  {
    if m == 0 then 0 else SpaceTo(c, m - 1) + c[m] * Share(m)
  }

  function TotalTo(c: seq<int>, m: nat): int
    requires m < |c|
  {
    if m == 0 then 0 else TotalTo(c, m - 1) + c[m]
  }

  /** Counts for lengths 1..m: none negative, total n, filling the code space exactly. */
  predicate Counts(c: seq<int>, m: nat, n: nat) {
    && 1 <= m <= MAX_BITS && |c| == MAX_BITS + 2
    && c[0] == 0 && (forall d :: 1 <= d <= m ==> c[d] >= 0)
    && SpaceTo(c, m) == Pow2(MAX_BITS) && TotalTo(c, m) == n
  }

  lemma {:induction false} ToUpdate(c: seq<int>, m: nat, d: nat, x: int)
    requires m < |c| && m <= MAX_BITS && 1 <= d < |c|
    ensures SpaceTo(c[d := c[d] + x], m) == SpaceTo(c, m) + if d <= m then x * Share(d) else 0
    ensures TotalTo(c[d := c[d] + x], m) == TotalTo(c, m) + if d <= m then x else 0
  {
    if m > 0 {
      ToUpdate(c, m - 1, d, x);
      if m == d { MulAdd(c[d], x, Share(d)); }
    }
  }

  /** An internal node takes one codeword away at its depth and gives two one level down. */
  function Split(c: seq<int>, d: nat): seq<int>
    requires d + 1 < |c|
  {
    c[d := c[d] - 1][d + 1 := c[d + 1] + 2]
  }

  lemma SplitCounts(c: seq<int>, m: nat, n: nat, d: nat)
    requires Counts(c, m, n) && 1 <= d < m && c[d] >= 1
    ensures Counts(Split(c, d), m, n + 1)
  {
    hide Pow2, SpaceTo, TotalTo;
    var e := c[d := c[d] + -1];
    ToUpdate(c, m, d, -1);
    ToUpdate(e, m, d + 1, 2);
    assert Split(c, d) == e[d + 1 := e[d + 1] + 2];
    ShareStep(d + 1);
  }

  lemma {:induction false} ZerosTo(c: seq<int>, m: nat)
    requires m < |c| && m <= MAX_BITS && forall d :: 1 <= d <= m ==> c[d] == 0
    ensures SpaceTo(c, m) == 0 && TotalTo(c, m) == 0
  {
    if m > 0 { ZerosTo(c, m - 1); }
  }

  /** The clamping search stops: with fewer codewords than the longest length could number,
      some shorter length is in use. */
  lemma ShorterInUse(c: seq<int>, m: nat, n: nat)
    requires Counts(c, m, n) && n < Pow2(m)
    ensures exists d :: 1 <= d < m && c[d] != 0
  {
    if forall d :: 1 <= d < m ==> c[d] == 0 {
      ZerosTo(c, m - 1);
      Pow2Add(m, MAX_BITS - m);
      MulLess(n, Pow2(m), Share(m));
      assert false;
    }
  }

  /** Two codewords of length 1. */
  lemma RootCounts(c: seq<int>, m: nat)
    requires 1 <= m <= MAX_BITS && |c| == MAX_BITS + 2
    requires c[1] == 2 && forall d :: 0 <= d <= m && d != 1 ==> c[d] == 0
    ensures Counts(c, m, 2)
  {
    RootSpace(c, m);
  }

  lemma {:induction false} RootSpace(c: seq<int>, m: nat)
    requires 1 <= m <= MAX_BITS && |c| == MAX_BITS + 2
    requires c[1] == 2 && forall d :: 0 <= d <= m && d != 1 ==> c[d] == 0
    ensures SpaceTo(c, m) == Pow2(MAX_BITS) && TotalTo(c, m) == 2
  {
    if m > 1 {
      RootSpace(c, m - 1);
    } else {
      assert SpaceTo(c, 0) == 0;
    }
  }

  // ---------------------------------------------------------------------------------------------
  // Depths never increase along the array.
  // ---------------------------------------------------------------------------------------------

  predicate Finite(t: Forest) {
    && Rising(t.parent) && |t.weight| >= 2
    && |t.parent| == |t.weight| - 1 && |t.leafParent| == |t.weight| + 1
    && Parents(t.parent, |t.weight|) && Parents(t.leafParent, |t.weight|) && TwoChildren(t)
  }

  lemma FiniteTree(f: seq<nat>)
    requires |f| >= 3 && Ascending(f)
    ensures Finite(Tree(f))
  {
    Finished(f);
  }

  lemma {:induction false} DepthOrder(p: seq<nat>, e: nat, j: nat, k: nat)
    requires Rising(p) && Parents(p, e) && j <= k
    ensures Depth(p, k) <= Depth(p, j)
    decreases |p| - j
  {
    if k < |p| {
      DepthOrder(p, e, p[j], p[k]);
    }
  }

  lemma LeafOrder(t: Forest, j: nat, k: nat)
    requires Finite(t) && j <= k < |t.leafParent|
    ensures LeafDepths(t)[k] <= LeafDepths(t)[j]
  {
    DepthOrder(t.parent, |t.weight|, t.leafParent[j], t.leafParent[k]);
  }

  lemma LeafBelow(t: Forest, k: nat)
    requires Finite(t) && k < |t.leafParent|
    ensures 1 <= LeafDepths(t)[k] <= Depth(t.parent, 0) + 1
  {
    DepthOrder(t.parent, |t.weight|, 0, t.leafParent[k]);
  }

  // ---------------------------------------------------------------------------------------------
  // The exact tally while nothing is clamped.
  // ---------------------------------------------------------------------------------------------

  function One(b: bool): nat {
    if b then 1 else 0
  }

  /** Leaves at depth d, among the first m, hanging from nodes j and above. */
  function LeafSlots(t: Forest, j: nat, d: nat, m: nat): nat
    requires Rising(t.parent) && m <= |t.leafParent|
    decreases |t.weight| - j
  {
    if j >= |t.weight| then 0
    else (if Depth(t.parent, j) + 1 == d then CountTo(t.leafParent, j, m) else 0) + LeafSlots(t, j + 1, d, m)
  }

  /** Nodes at depth d, among the first m, whose parent is at j or above. */
  function Waiting(p: seq<nat>, j: nat, d: nat, m: nat): nat
    requires Rising(p) && m <= |p|
  {
    if m == 0 then 0
    else Waiting(p, j, d, m - 1) + One(p[m - 1] >= j && Depth(p, m - 1) == d)
  }

  /** Open places at depth d once nodes j and above have been walked. */
  function Places(t: Forest, j: nat, d: nat): nat
    requires Rising(t.parent) && j <= |t.parent|
  {
    LeafSlots(t, j, d, |t.leafParent|) + Waiting(t.parent, j, d, j)
  }

  lemma {:induction false} WaitingStep(p: seq<nat>, j: nat, d: nat, m: nat)
    requires Rising(p) && m <= |p|
    ensures Waiting(p, j, d, m)
      == Waiting(p, j + 1, d, m) + if Depth(p, j) + 1 == d then CountTo(p, j, m) else 0
  {
    if m > 0 {
      WaitingStep(p, j, d, m - 1);
    }
  }

  lemma {:induction false} WaitingNone(p: seq<nat>, j: nat, d: nat, m: nat)
    requires Rising(p) && m <= |p| && Parents(p, j)
    ensures Waiting(p, j, d, m) == 0
  {
    if m > 0 { WaitingNone(p, j, d, m - 1); }
  }

  /** All children of node j come before it. */
  lemma {:induction false} ChildrenBefore(p: seq<nat>, j: nat, m: nat)
    requires Rising(p) && j <= m <= |p|
    ensures CountTo(p, j, m) == CountTo(p, j, j)
  {
    if j < m { ChildrenBefore(p, j, m - 1); }
  }

  lemma PlacesRoot(t: Forest, d: nat)
    requires Finite(t)
    ensures Places(t, |t.parent|, d) == if d == 1 then 2 else 0
  {
    var r := |t.parent|;
    WaitingStep(t.parent, r, d, r);
    WaitingNone(t.parent, r + 1, d, r);
    assert LeafSlots(t, r + 1, d, |t.leafParent|) == 0;
    assert CountTo(t.parent, r, r) + CountTo(t.leafParent, r, |t.leafParent|) == 2;
  }

  /** Walking node j closes one place at its depth and opens two below it. */
  lemma PlacesStep(t: Forest, j: nat, d: nat)
    requires Finite(t) && j < |t.parent|
    ensures Places(t, j, d) == Places(t, j + 1, d) - One(Depth(t.parent, j) == d)
      + if Depth(t.parent, j) + 1 == d then 2 else 0
  {
    hide Depth;
    WaitingStep(t.parent, j, d, j);
    ChildrenBefore(t.parent, j, |t.parent|);
    assert CountTo(t.parent, j, |t.parent|) + CountTo(t.leafParent, j, |t.leafParent|) == 2;
  }

  /** Node j is itself among the places waiting at its depth. */
  lemma PlaceOpen(t: Forest, j: nat)
    requires Finite(t) && j < |t.parent|
    ensures Places(t, j + 1, Depth(t.parent, j)) >= 1
  {
    hide Depth;
  }

  lemma {:induction false} LeafSlotsStep(t: Forest, j: nat, d: nat, m: nat)
    requires Finite(t) && 0 < m <= |t.leafParent|
    ensures LeafSlots(t, j, d, m) == LeafSlots(t, j, d, m - 1)
      + One(t.leafParent[m - 1] >= j && Depth(t.parent, t.leafParent[m - 1]) + 1 == d)
    decreases |t.weight| - j
  {
    if j < |t.weight| { LeafSlotsStep(t, j + 1, d, m); }
  }

  lemma {:induction false} LeafSlotsNone(t: Forest, j: nat, d: nat)
    requires Rising(t.parent)
    ensures LeafSlots(t, j, d, 0) == 0
    decreases |t.weight| - j
  {
    if j < |t.weight| { LeafSlotsNone(t, j + 1, d); }
  }

  lemma {:induction false} LeafSlotsCount(t: Forest, d: nat, m: nat)
    requires Finite(t) && m <= |t.leafParent|
    ensures LeafSlots(t, 0, d, m) == CountTo(LeafDepths(t), d, m)
  {
    if m == 0 {
      LeafSlotsNone(t, 0, d);
    } else {
      LeafSlotsCount(t, d, m - 1);
      LeafSlotsStep(t, 0, d, m);
    }
  }

  /** When every node has been walked, the places are the leaves. */
  lemma PlacesDone(t: Forest, d: nat)
    requires Finite(t)
    ensures Places(t, 0, d) == Count(LeafDepths(t), d)
  {
    LeafSlotsCount(t, d, |t.leafParent|);
  }

  // ---------------------------------------------------------------------------------------------
  // The counts that the depth pass ends with, clamping included.
  // ---------------------------------------------------------------------------------------------

  /** The largest length below d in use. */
  function DeepestBelow(c: seq<int>, d: nat): (k: nat)
    requires d <= |c|
    ensures d > 0 ==> k < d
  {
    if d == 0 then 0 else if c[d - 1] != 0 then d - 1 else DeepestBelow(c, d - 1)
  }

  /** Counts for lengths 0..m after the nodes from the root down to j have been walked. */
  function LimitedCounts(p: seq<nat>, m: nat, j: nat): (c: seq<int>)
    requires Rising(p) && 1 <= m
    ensures |c| == m + 1
    decreases |p| - j
  {
    if j >= |p| then seq(m + 1, d => if d == 1 then 2 else 0)
    else
      var c := LimitedCounts(p, m, j + 1);
      Split(c, if Depth(p, j) < m then Depth(p, j) else DeepestBelow(c, m))
  }

  lemma {:induction false} DeepestIs(c: seq<int>, d: nat, k: nat)
    requires k < d <= |c| && c[k] != 0 && forall i :: k < i < d ==> c[i] == 0
    ensures DeepestBelow(c, d) == k
  {
    if k < d - 1 { DeepestIs(c, d - 1, k); }
  }

  /** Splitting a prefix of the counts. */
  lemma SplitPrefix(c: seq<int>, n: nat, d: nat)
    requires d + 1 < n <= |c|
    ensures Split(c, d)[..n] == Split(c[..n], d)
  {
  }

  /** Only the counts up to m matter for the ranks. */
  lemma {:induction false} FromPrefix(c: seq<int>, m: nat, l: nat)
    requires m < |c|
    ensures From(c[..m + 1], m, l) == From(c, m, l)
    decreases m + 1 - l
  {
    if l <= m { FromPrefix(c, m, l + 1); }
  }

  lemma RankPrefix(c: seq<int>, m: nat, k: nat, l: nat)
    requires m < |c|
    ensures Rank(c[..m + 1], m, k, l) <==> Rank(c, m, k, l)
  {
    FromPrefix(c, m, l);
    FromPrefix(c, m, l + 1);
  }

  /** A rank has one length. */
  lemma RankOnce(c: seq<int>, m: nat, k: nat, a: nat, b: nat)
    requires Rank(c, m, k, a) && Rank(c, m, k, b) && forall d :: 1 <= d <= m ==> c[d] >= 0
    ensures a == b
  {
    RankOrder(c, m, k, a, k, b);
    RankOrder(c, m, k, b, k, a);
  }

  // ---------------------------------------------------------------------------------------------
  // Handing the lengths out, longest first.
  // ---------------------------------------------------------------------------------------------

  /** Codewords of length l or more. */
  function From(c: seq<int>, m: nat, l: nat): int
    requires m < |c|
    decreases m + 1 - l
  {
    if l > m then 0 else c[l] + From(c, m, l + 1)
  }

  lemma {:induction false} FromTotal(c: seq<int>, m: nat, l: nat)
    requires m < |c| && l <= m
    ensures From(c, m, l + 1) + TotalTo(c, l) == TotalTo(c, m)
    decreases m - l
  {
    if l < m { FromTotal(c, m, l + 1); }
  }

  lemma {:induction false} FromOrder(c: seq<int>, m: nat, l: nat, k: nat)
    requires m < |c| && l <= k && forall d :: l <= d <= m ==> c[d] >= 0
    ensures From(c, m, k) <= From(c, m, l)
    decreases k - l
  {
    if l < k { FromOrder(c, m, l + 1, k); }
  }

  /** The k-th of the sorted symbols has length l. */
  predicate Rank(c: seq<int>, m: nat, k: nat, l: nat) {
    m < |c| && 1 <= l <= m && From(c, m, l + 1) <= k < From(c, m, l)
  }

  /** Later symbols, which are more frequent, never get longer codes. */
  lemma RankOrder(c: seq<int>, m: nat, j: nat, a: nat, k: nat, b: nat)
    requires Rank(c, m, j, a) && Rank(c, m, k, b) && j <= k
    requires forall d :: 1 <= d <= m ==> c[d] >= 0
    ensures b <= a
  {
    if a < b { FromOrder(c, m, a + 1, b); }
  }

  /** How many of the first k entries are l or more. */
  function AtLeast(d: seq<nat>, l: nat, k: nat): nat
    requires k <= |d|
  {
    if k == 0 then 0 else AtLeast(d, l, k - 1) + One(d[k - 1] >= l)
  }

  lemma {:induction false} AtLeastStep(d: seq<nat>, l: nat, k: nat)
    requires k <= |d|
    ensures AtLeast(d, l, k) == CountTo(d, l, k) + AtLeast(d, l + 1, k)
  {
    if k > 0 { AtLeastStep(d, l, k - 1); }
  }

  lemma {:induction false} AtLeastNone(d: seq<nat>, l: nat, k: nat)
    requires k <= |d| && forall j :: 0 <= j < |d| ==> d[j] < l
    ensures AtLeast(d, l, k) == 0
  {
    if k > 0 { AtLeastNone(d, l, k - 1); }
  }

  predicate Descending(d: seq<nat>) {
    forall j, k :: 0 <= j <= k < |d| ==> d[k] <= d[j]
  }

  lemma {:induction false} AtLeastCut(d: seq<nat>, l: nat, k: nat, i: nat)
    requires Descending(d) && i < k <= |d|
    ensures AtLeast(d, l, k) <= k
    ensures d[i] >= l <==> i < AtLeast(d, l, k)
  {
    if i < k - 1 {
      AtLeastCut(d, l, k - 1, i);
    } else if k > 1 {
      AtLeastCut(d, l, k - 1, k - 2);
    }
  }

  lemma {:induction false} FromIsAtLeast(c: seq<int>, m: nat, l: nat, d: seq<nat>)
    requires m < |c| && forall j :: 1 <= j <= m ==> c[j] == Count(d, j)
    requires 1 <= l <= m + 1 && forall j :: 0 <= j < |d| ==> 1 <= d[j] <= m
    ensures From(c, m, l) == AtLeast(d, l, |d|)
    decreases m + 1 - l
  {
    if l <= m {
      FromIsAtLeast(c, m, l + 1, d);
      AtLeastStep(d, l, |d|);
    } else {
      AtLeastNone(d, l, |d|);
    }
  }

  /** Counts taken from descending depths give each rank its own depth back. */
  lemma RankIsDepth(c: seq<int>, m: nat, d: seq<nat>, k: nat, l: nat)
    requires m < |c| && forall j :: 1 <= j <= m ==> c[j] == Count(d, j)
    requires Descending(d) && forall j :: 0 <= j < |d| ==> 1 <= d[j] <= m
    requires k < |d| && Rank(c, m, k, l)
    ensures l == d[k]
  {
    FromIsAtLeast(c, m, l, d);
    FromIsAtLeast(c, m, l + 1, d);
    AtLeastCut(d, l, |d|, k);
    AtLeastCut(d, l + 1, |d|, k);
  }
}
