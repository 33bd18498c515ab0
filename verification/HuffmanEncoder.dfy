/** Construction of a length-limited Huffman code in place: counting sort, implicit tree over packed
    words, depth pass with clamping, canonical codes in symbol order. */
module HuffmanEncoder {
  import opened Words
  import opened Canon
  import opened HuffmanTree
  import opened HuffmanOptimal
  import opened HuffmanHeight
  import opened HuffmanLengths
  import opened HuffmanSort
  import opened HuffmanCode

  /** w with its symbol bits cleared. */
  function HighPart(w: nat): nat {
    w - Symbol(w)
  }

  // ---------------------------------------------------------------------------------------------
  // insertionSortU32
  // ---------------------------------------------------------------------------------------------

  predicate SortedSpan(q: seq<nat>, lo: nat, hi: nat) {
    hi <= |q| && forall j, k :: lo <= j <= k < hi ==> q[j] <= q[k]
  }

  /** r is q with the entries of q[lo..hi] in another order. */
  predicate SpanPermuted(q: seq<nat>, r: seq<nat>, lo: nat, hi: nat) {
    && lo <= hi <= |q| == |r|
    && multiset(r[lo..hi]) == multiset(q[lo..hi]) && r[..lo] == q[..lo] && r[hi..] == q[hi..]
  }

  /** Sorts the slice a[lo..hi], ascending, by insertion. */
  method InsertionSort(a: array<nat>, lo: nat, hi: nat)
    requires lo <= hi <= a.Length
    modifies a
    ensures SortedSpan(a[..], lo, hi) && SpanPermuted(old(a[..]), a[..], lo, hi)
  {
    if lo < hi {
      for i := lo + 1 to hi
        invariant SortedSpan(a[..], lo, i) && SpanPermuted(old(a[..]), a[..], lo, hi)
      {
        Insert(a, lo, i, hi);
      }
    }
  }

  /** The part before i moved up by one from position h on; h itself is free to be overwritten. */
  function Shifted(s: seq<nat>, h: nat, i: nat): (r: seq<nat>)
    requires h <= i < |s|
    ensures |r| == |s|
  {
    s[..h + 1] + s[h..i] + s[i + 1..]
  }

  lemma ShiftStep(s: seq<nat>, h: nat, i: nat)
    requires 1 <= h <= i < |s|
    ensures Shifted(s, h, i)[h - 1] == s[h - 1]
    ensures Shifted(s, h, i)[h := s[h - 1]] == Shifted(s, h - 1, i)
  {
  }

  lemma ShiftNone(s: seq<nat>, i: nat)
    requires i < |s|
    ensures Shifted(s, i, i) == s
  {
  }

  lemma ShiftFill(s: seq<nat>, h: nat, i: nat)
    requires h <= i < |s|
    ensures Shifted(s, h, i)[h := s[i]] == MoveDown(s, h, i)
  {
  }

  lemma MoveDownSorted(s: seq<nat>, lo: nat, h: nat, i: nat)
    requires lo <= h <= i < |s| && SortedSpan(s, lo, i)
    requires forall k :: h <= k < i ==> s[k] > s[i]
    requires h > lo ==> s[h - 1] <= s[i]
    ensures SortedSpan(MoveDown(s, h, i), lo, i + 1)
  {
    hide MoveDown;
    MoveDownAt(s, h, i);
  }

  lemma MoveDownSpan(s: seq<nat>, lo: nat, h: nat, i: nat, hi: nat)
    requires lo <= h <= i < hi <= |s|
    ensures SpanPermuted(s, MoveDown(s, h, i), lo, hi)
  {
    hide MoveDown;
    MoveDownAt(s, h, i);
    var r, p := MoveDown(s, h, i), s[lo..hi];
    MoveDownAt(p, h - lo, i - lo);
    forall k | 0 <= k < hi - lo
      ensures r[lo..hi][k] == MoveDown(p, h - lo, i - lo)[k]
    {
      assert r[lo..hi][k] == r[lo + k];
    }
    assert r[lo..hi] == MoveDown(p, h - lo, i - lo);
    MoveDownPermutes(s[lo..hi], h - lo, i - lo);
  }

  /** One round: entry i goes to its place in the sorted part before it. */
  method Insert(a: array<nat>, lo: nat, i: nat, hi: nat)
    requires lo < i < hi <= a.Length && SortedSpan(a[..], lo, i)
    modifies a
    ensures SortedSpan(a[..], lo, i + 1) && SpanPermuted(old(a[..]), a[..], lo, hi)
  {
    hide Shifted, MoveDown, SpanPermuted;
    ghost var s := a[..];
    var v := a[i];
    var j: int := i - 1;
    ShiftNone(s, i);
    while j >= lo && a[j] > v
      invariant lo - 1 <= j < i
      invariant a[..] == Shifted(s, j + 1, i)
      invariant forall k :: j + 1 <= k < i ==> s[k] > v
    {
      ShiftStep(s, j + 1, i);
      ghost var q := a[..];
      assert a[j] == q[j] == s[j];
      a[j + 1] := a[j];
      assert a[..] == q[j + 1 := s[j]];
      j := j - 1;
    }
    if j >= lo {
      ShiftStep(s, j + 1, i);
      assert a[j] == a[..][j] == s[j];
    }
    ShiftFill(s, j + 1, i);
    ghost var q := a[..];
    a[j + 1] := v;
    assert a[..] == q[j + 1 := v];
    MoveDownSorted(s, lo, j + 1, i);
    MoveDownSpan(s, lo, j + 1, i, hi);
  }

  // ---------------------------------------------------------------------------------------------
  // buildTree
  // ---------------------------------------------------------------------------------------------

  /** Three meanings in one word: a parent index, an internal weight or a leaf frequency, each
      above the symbol that was sorted into that place. */
  predicate Layout(q: seq<nat>, f: seq<nat>, sy: seq<nat>, t: Forest)
    requires Shape(f, t)
  {
    && |q| == |f| == |sy|
    && (forall k :: 0 <= k < |f| ==> Symbol(q[k]) == sy[k])
    && (forall k :: 0 <= k < |t.parent| ==> High(q[k]) == t.parent[k])
    && (forall k :: |t.parent| <= k < |t.weight| ==> High(q[k]) == t.weight[k])
    && (forall k :: |t.leafParent| <= k < |f| ==> High(q[k]) == f[k])
  }

  lemma MergedWeight(f: seq<nat>, t: Forest)
    requires Shape(f, t) && |t.weight| < |f| - 1
    ensures Merge(f, t).weight[|t.weight|] <= RootWeight(f, t)
    ensures |t.weight| < |Merge(f, t).leafParent|
  {
    var r := Merge(f, t);
    MergeWeight(f, t);
    var w := r.weight[|r.parent|..];
    SumAtLeast(w, |t.weight| - |r.parent|);
  }

  /** One merge on the packed words. */
  function Step(q: seq<nat>, b: nat, b': nat, e: nat, w: nat): (r: seq<nat>)
    requires b <= b' <= b + 2 && b' <= e < |q|
    ensures |r| == |q|
  {
    var q1 := if b' > b then q[b := Pack(e, Symbol(q[b]))] else q;
    var q2 := if b' > b + 1 then q1[b + 1 := Pack(e, Symbol(q1[b + 1]))] else q1;
    q2[e := Pack(w, Symbol(q2[e]))]
  }

  lemma StepLayout(q: seq<nat>, f: seq<nat>, sy: seq<nat>, t: Forest)
    requires Shape(f, t) && |t.weight| < |f| - 1 && Layout(q, f, sy, t)
    ensures |t.parent| <= |Merge(f, t).parent| <= |t.parent| + 2
    ensures |Merge(f, t).parent| <= |t.weight| < |q|
    ensures Layout(Step(q, |t.parent|, |Merge(f, t).parent|, |t.weight|, Merge(f, t).weight[|t.weight|]),
                   f, sy, Merge(f, t))
  {
    hide TwoLeaves, TwoInternals, High, Symbol;
    MergeParts(f, t);
    MergedWeight(f, t);
  }

  /** Puts a parent or a weight above the symbol in place k. */
  method SetHigh(a: array<nat>, n: nat, k: nat, high: nat, ghost hi: nat)
    requires k < n <= a.Length && high == hi * SYMBOL_SPAN && hi < 0x40_0000
    modifies a
    ensures a[..n] == old(a[..n])[k := Pack(hi, Symbol(old(a[k])))] && a[n..] == old(a[n..])
  {
    a[k] := U32(high + Symbol(a[k]));
  }

  /** What the loop compares and adds, before a merge. */
  lemma MergeReads(q: seq<nat>, f: seq<nat>, sy: seq<nat>, t: Forest)
    requires |f| == |sy| && Shape(f, t) && |t.weight| < |f| - 1 && Layout(q, f, sy, t) && RootWeight(f, t) < 0x40_0000
    ensures |q| == |f| && |t.leafParent| < |f| + 1
    ensures var i, b, e := |t.leafParent|, |t.parent|, |t.weight|;
      && (TwoLeaves(f, t) <==> i + 1 < |f| && (b == e || HighPart(q[i + 1]) <= HighPart(q[b])))
      && (TwoLeaves(f, t) ==> HighPart(q[i]) + HighPart(q[i + 1]) == (f[i] + f[i + 1]) * SYMBOL_SPAN)
      && (!TwoLeaves(f, t) ==> b < e)
      && (TwoInternals(f, t) <==> b + 2 <= e && (i >= |f| || HighPart(q[b + 1]) < HighPart(q[i])))
      && (TwoInternals(f, t) ==> HighPart(q[b]) + HighPart(q[b + 1]) == (t.weight[b] + t.weight[b + 1]) * SYMBOL_SPAN)
      && (!TwoLeaves(f, t) && !TwoInternals(f, t) ==>
            i < |f| && HighPart(q[i]) + HighPart(q[b]) == (f[i] + t.weight[b]) * SYMBOL_SPAN)
    ensures |Merge(f, t).weight| == |t.weight| + 1 && Merge(f, t).weight[|t.weight|] < 0x40_0000
  {
    hide Layout, RootWeight, HighPart;
    LayoutReads(q, f, sy, t);
    MergedWeight(f, t);
  }

  /** One merge: takes the two lightest roots off the queues and writes node e. */
  method MergeOnce(a: array<nat>, n: nat, i: nat, b: nat, e: nat, ghost f: seq<nat>, ghost sy: seq<nat>,
          ghost t: Forest)
    returns (i': nat, b': nat)
    requires 2 <= n <= a.Length && |f| == |sy| == n && Shape(f, t) && |t.weight| < n - 1
    requires i == |t.leafParent| && b == |t.parent| && e == |t.weight|
    requires Layout(a[..n], f, sy, t) && RootWeight(f, t) < 0x40_0000 && n <= 0x1_0000
    modifies a
    ensures Layout(a[..n], f, sy, Merge(f, t)) && a[n..] == old(a[n..])
    ensures i' == |Merge(f, t).leafParent| && b' == |Merge(f, t).parent|
  {
    hide Layout, RootWeight, HighPart, Pack, Symbol;
    ghost var q := a[..n];
    StepLayout(q, f, sy, t);
    MergeReads(q, f, sy, t);
    var lastIdx := n - 1;
    var newFreq: nat;
    if i + 1 <= lastIdx && (b == e || HighPart(a[i + 1]) <= HighPart(a[b])) {
      newFreq := HighPart(a[i]) + HighPart(a[i + 1]);
      i', b' := i + 2, b;
    } else if b + 2 <= e && (i > lastIdx || HighPart(a[b + 1]) < HighPart(a[i])) {
      newFreq := HighPart(a[b]) + HighPart(a[b + 1]);
      SetHigh(a, n, b, e * SYMBOL_SPAN, e);
      SetHigh(a, n, b + 1, e * SYMBOL_SPAN, e);
      i', b' := i, b + 2;
    } else {
      newFreq := HighPart(a[i]) + HighPart(a[b]);
      SetHigh(a, n, b, e * SYMBOL_SPAN, e);
      i', b' := i + 1, b + 1;
    }
    SetHigh(a, n, e, newFreq, Merge(f, t).weight[e]);
    assert a[..n] == Step(q, b, b', e, Merge(f, t).weight[e]);
  }

  /** Builds the internal nodes over the first n words: parents above the symbols, root last. */
  method BuildTree(a: array<nat>, n: nat, ghost f: seq<nat>, ghost sy: seq<nat>)
    requires 2 <= n <= a.Length && |f| == |sy| == n <= 0x1_0000 && Ascending(f) && Sum(f) < 0x40_0000
    requires forall k :: 0 <= k < n ==> sy[k] < SYMBOL_SPAN && a[k] == Pack(f[k], sy[k])
    modifies a
    ensures Layout(a[..n], f, sy, Tree(f))
    ensures a[n..] == old(a[n..])
  {
    var lastIdx := n - 1;
    var i, b, e := 0, 0, 0;
    ghost var t := EMPTY;
    assert f[0..] == f;
    while true
      invariant Shape(f, t) && |t.weight| < n - 1
      invariant i == |t.leafParent| && b == |t.parent| && e == |t.weight|
      invariant Layout(a[..n], f, sy, t) && a[n..] == old(a[n..])
      invariant Grow(f, t) == Tree(f) && RootWeight(f, t) < 0x40_0000
      decreases n - e
    {
      hide Layout, Grow, Sum, RootWeight, TwoLeaves, TwoInternals;
      i, b := MergeOnce(a, n, i, b, e, f, sy, t);
      MergeWeight(f, t);
      GrowStep(f, t);
      e := e + 1;
      t := Merge(f, t);
      if e >= lastIdx {
        GrowDone(f, t);
        return;
      }
    }
  }

  lemma GrowDone(f: seq<nat>, t: Forest)
    requires Shape(f, t) && |t.weight| == |f| - 1
    ensures Grow(f, t) == t
  {
  }

  /** What the comparisons in the loop read. */
  lemma LayoutReads(q: seq<nat>, f: seq<nat>, sy: seq<nat>, t: Forest)
    requires Shape(f, t) && Layout(q, f, sy, t) && |t.weight| < |f| - 1
    ensures |q| == |f|
    ensures forall k :: |t.parent| <= k < |t.weight| ==> HighPart(q[k]) == t.weight[k] * SYMBOL_SPAN
    ensures forall k :: |t.leafParent| <= k < |f| ==> HighPart(q[k]) == f[k] * SYMBOL_SPAN
  {
  }

  // ---------------------------------------------------------------------------------------------
  // computeLengthCounts
  // ---------------------------------------------------------------------------------------------

  /** Nodes j and above hold their depths, the others still hold their parents. */
  predicate Walked(q: seq<nat>, sy: seq<nat>, t: Forest, j: nat)
    requires Finite(t)
  {
    && |q| == |sy| == |t.leafParent| && j <= |t.parent|
    && (forall k :: 0 <= k < |q| ==> Symbol(q[k]) == sy[k])
    && (forall k :: j <= k <= |t.parent| ==> High(q[k]) == Depth(t.parent, k))
    && (forall k :: 0 <= k < j ==> High(q[k]) == t.parent[k])
  }

  lemma {:induction false} DepthBound(p: seq<nat>, j: nat)
    requires Rising(p) && j <= |p|
    ensures Depth(p, j) <= |p| - j || Depth(p, j) == 0
    decreases |p| - j
  {
    if j < |p| {
      if p[j] <= |p| { DepthBound(p, p[j]); }
    }
  }

  /** While nothing has been clamped the counts are exact. */
  predicate Exact(c: seq<int>, m: nat, t: Forest, j: nat)
    requires Finite(t)
  {
    && |c| == MAX_BITS + 2 && 1 <= m <= MAX_BITS && j <= |t.parent|
    && (Depth(t.parent, j) < m ==> forall d :: 1 <= d <= m ==> c[d] == Places(t, j, d))
  }

  /** Walking node j at a depth below the limit keeps the counts exact. */
  lemma ExactStep(c: seq<int>, m: nat, t: Forest, j: nat)
    requires Finite(t) && j < |t.parent| && Exact(c, m, t, j + 1) && Depth(t.parent, j) < m
    ensures 1 <= Depth(t.parent, j) && c[Depth(t.parent, j)] >= 1
    ensures Exact(Split(c, Depth(t.parent, j)), m, t, j)
  {
    hide Places;
    DepthOrder(t.parent, |t.weight|, j, j + 1);
    PlaceOpen(t, j);
    var c' := Split(c, Depth(t.parent, j));
    forall d | 1 <= d <= m ensures c'[d] == Places(t, j, d) { PlacesStep(t, j, d); }
  }

  lemma ExactRoot(c: seq<int>, m: nat, t: Forest)
    requires Finite(t) && 1 <= m <= MAX_BITS && |c| == MAX_BITS + 2
    requires c[1] == 2 && forall d :: 0 <= d <= m && d != 1 ==> c[d] == 0
    ensures Exact(c, m, t, |t.parent|)
  {
    forall d | 1 <= d <= m ensures c[d] == Places(t, |t.parent|, d) { PlacesRoot(t, d); }
  }

  /** The node's depth, from its parent's; its own word now holds it. */
  method WalkNode(a: array<nat>, n: nat, node: nat, ghost sy: seq<nat>, ghost t: Forest) returns (depth: nat)
    requires Finite(t) && |sy| == n <= a.Length && node < |t.parent| && n <= SYMBOL_SPAN
    requires Walked(a[..n], sy, t, node + 1)
    modifies a
    ensures depth == Depth(t.parent, node)
    ensures Walked(a[..n], sy, t, node) && a[n..] == old(a[n..])
  {
    hide TwoChildren, Depth;
    ghost var q := a[..n];
    assert q[node] == a[node] && High(q[node]) == t.parent[node];
    var parent := High(a[node]);
    assert q[parent] == a[parent];
    depth := High(a[parent]) + 1;
    DepthOf(t.parent, node);
    DepthBound(t.parent, node);
    a[node] := U32(Pack(depth, Symbol(a[node])));
    assert a[..n] == q[node := Pack(depth, Symbol(q[node]))];
  }

  /** Clamped depth: the deepest length in use below the limit. */
  method Clamp(lenCounts: array<int>, maxLen: nat, ghost n: nat) returns (depth: nat)
    requires lenCounts.Length == MAX_BITS + 2 && Counts(lenCounts[..], maxLen, n) && n < Pow2(maxLen)
    ensures 1 <= depth < maxLen && lenCounts[depth] >= 1
    ensures forall d :: depth < d < maxLen ==> lenCounts[d] == 0
  {
    ghost var c := lenCounts[..];
    ShorterInUse(c, maxLen, n);
    ghost var d :| 1 <= d < maxLen && c[d] != 0;
    depth := maxLen;
    while true
      invariant d < depth <= maxLen
      invariant forall k :: depth <= k < maxLen ==> lenCounts[k] == 0
      decreases depth
    {
      depth := depth - 1;
      if lenCounts[depth] != 0 {
        assert c[depth] == lenCounts[depth];
        break;
      }
      assert depth != d;
    }
  }

  /** Depths of the internal nodes, root first, and the number of codewords of each length. */
  method ComputeLengthCounts(a: array<nat>, n: nat, lenCounts: array<int>, maxLen: nat,
                             ghost f: seq<nat>, ghost sy: seq<nat>)
    requires 3 <= n <= a.Length && |f| == |sy| == n <= SYMBOL_SPAN && Ascending(f)
    requires a as object != lenCounts && lenCounts.Length == MAX_BITS + 2
    requires 1 <= maxLen <= MAX_BITS && n <= Pow2(maxLen)
    requires Layout(a[..n], f, sy, Tree(f))
    modifies a, lenCounts
    ensures Counts(lenCounts[..], maxLen, n)
    ensures Finite(Tree(f)) && lenCounts[..maxLen + 1] == LimitedCounts(Tree(f).parent, maxLen, 0)
    ensures Depth(Tree(f).parent, 0) < maxLen ==>
      forall d :: 1 <= d <= maxLen ==> lenCounts[..][d] == Count(LeafDepths(Tree(f)), d)
    ensures forall k :: 0 <= k < n ==> Symbol(a[k]) == sy[k]
    ensures a[n..] == old(a[n..])
  {
    hide Walked, Counts, Exact, Finite, Depth, Split, Layout, LimitedCounts;
    ghost var t := Tree(f);
    FiniteTree(f);
    FiniteRising(t);
    ClearCounts(lenCounts, maxLen);
    LimitedStart(lenCounts[..], t.parent, maxLen);
    RootCounts(lenCounts[..], maxLen);
    ExactRoot(lenCounts[..], maxLen, t);
    FiniteSize(t);
    var rootIdx := n - 2;
    ghost var q := a[..n];
    a[rootIdx] := Symbol(a[rootIdx]);
    assert a[..n] == q[rootIdx := Symbol(q[rootIdx])];
    RootWalked(q, f, sy);
    var node: int := rootIdx - 1;
    while node >= 0
      invariant -1 <= node < rootIdx == |t.parent|
      invariant Walked(a[..n], sy, t, node + 1) && a[n..] == old(a[n..])
      invariant Counts(lenCounts[..], maxLen, rootIdx + 1 - node)
      invariant Exact(lenCounts[..], maxLen, t, node + 1)
      invariant lenCounts[..][..maxLen + 1] == LimitedCounts(t.parent, maxLen, node + 1)
    {
      Walk(a, n, node, lenCounts, maxLen, sy, t);
      node := node - 1;
    }
    assert lenCounts[..][..maxLen + 1] == lenCounts[..maxLen + 1];
    AllWalked(a[..n], sy, t, lenCounts[..], maxLen);
    forall k | 0 <= k < n ensures Symbol(a[k]) == sy[k] { assert a[k] == a[..n][k]; }
  }

  lemma FiniteRising(t: Forest)
    requires Finite(t)
    ensures Rising(t.parent)
  {
  }

  lemma LimitedStart(c: seq<int>, p: seq<nat>, m: nat)
    requires Rising(p) && 1 <= m < |c| && c[1] == 2 && forall d :: 0 <= d <= m && d != 1 ==> c[d] == 0
    ensures c[..m + 1] == LimitedCounts(p, m, |p|)
  {
  }

  /** One node more, at its own depth or at the deepest length in use below the limit. */
  lemma LimitedStep(c: seq<int>, p: seq<nat>, m: nat, j: nat, d: nat)
    requires Rising(p) && 1 <= m < |c| && j < |p| && c[..m + 1] == LimitedCounts(p, m, j + 1) && d < m
    requires if Depth(p, j) < m then d == Depth(p, j) else c[d] != 0 && forall k :: d < k < m ==> c[k] == 0
    ensures Split(c, d)[..m + 1] == LimitedCounts(p, m, j)
  {
    hide Depth, Split, DeepestBelow;
    SplitPrefix(c, m + 1, d);
    if Depth(p, j) >= m { DeepestIs(c[..m + 1], m, d); }
  }

  lemma FiniteSize(t: Forest)
    requires Finite(t)
    ensures |t.parent| == |t.leafParent| - 2 && |t.parent| >= 1
  {
  }

  method ClearCounts(lenCounts: array<int>, maxLen: nat)
    requires lenCounts.Length == MAX_BITS + 2 && 1 <= maxLen <= MAX_BITS
    modifies lenCounts
    ensures lenCounts[..][1] == 2 && forall d :: 0 <= d <= maxLen && d != 1 ==> lenCounts[..][d] == 0
  {
    for i := 0 to maxLen + 1
      invariant forall k :: 0 <= k < i ==> lenCounts[k] == 0
    {
      lenCounts[i] := 0;
    }
    lenCounts[1] := 2;
  }

  lemma RootWalked(q: seq<nat>, f: seq<nat>, sy: seq<nat>)
    requires 3 <= |f| == |sy| && Ascending(f) && Layout(q, f, sy, Tree(f)) && Finite(Tree(f))
    ensures |q| == |f| && Walked(q[|f| - 2 := Symbol(q[|f| - 2])], sy, Tree(f), |f| - 2)
  {
    hide TwoChildren;
  }

  lemma AllWalked(q: seq<nat>, sy: seq<nat>, t: Forest, c: seq<int>, m: nat)
    requires Finite(t) && Walked(q, sy, t, 0) && Exact(c, m, t, 0)
    ensures forall k :: 0 <= k < |q| ==> Symbol(q[k]) == sy[k]
    ensures Depth(t.parent, 0) < m ==> forall d :: 1 <= d <= m ==> c[d] == Count(LeafDepths(t), d)
  {
    if Depth(t.parent, 0) < m {
      forall d | 1 <= d <= m ensures c[d] == Count(LeafDepths(t), d) { PlacesDone(t, d); }
    }
  }

  /** One round of the depth pass. */
  method Walk(a: array<nat>, n: nat, node: nat, lenCounts: array<int>, maxLen: nat, ghost sy: seq<nat>, ghost t: Forest)
    requires Finite(t) && |sy| == n <= a.Length && node < |t.parent| == n - 2 && n <= SYMBOL_SPAN
    requires a as object != lenCounts && lenCounts.Length == MAX_BITS + 2
    requires n <= Pow2(maxLen)
    requires Walked(a[..n], sy, t, node + 1)
    requires Counts(lenCounts[..], maxLen, n - 1 - node) && Exact(lenCounts[..], maxLen, t, node + 1)
    requires Rising(t.parent) && 1 <= maxLen <= MAX_BITS
    requires lenCounts[..][..maxLen + 1] == LimitedCounts(t.parent, maxLen, node + 1)
    modifies a, lenCounts
    ensures Walked(a[..n], sy, t, node) && a[n..] == old(a[n..])
    ensures Counts(lenCounts[..], maxLen, n - node) && Exact(lenCounts[..], maxLen, t, node)
    ensures lenCounts[..][..maxLen + 1] == LimitedCounts(t.parent, maxLen, node)
  {
    hide Walked, Exact, Finite, Depth, Counts, Pow2, LimitedCounts;
    ghost var c := lenCounts[..];
    CountsSize(c, maxLen, n - 1 - node);
    var depth := WalkNode(a, n, node, sy, t);
    ghost var d := depth;
    if depth >= maxLen {
      depth := Clamp(lenCounts, maxLen, n - 1 - node);
    } else {
      ExactStep(c, maxLen, t, node);
    }
    assert c[depth] >= 1;
    SplitCounts(c, maxLen, n - 1 - node, depth);
    LimitedStep(c, t.parent, maxLen, node, depth);
    lenCounts[depth] := lenCounts[depth] - 1;
    lenCounts[depth + 1] := lenCounts[depth + 1] + 2;
    assert lenCounts[..] == Split(c, depth);
    if d >= maxLen { ExactClamped(lenCounts[..], maxLen, t, node); }
  }

  lemma CountsSize(c: seq<int>, m: nat, n: nat)
    requires Counts(c, m, n)
    ensures 1 <= m <= MAX_BITS && |c| == MAX_BITS + 2
  {
  }

  lemma ExactClamped(c: seq<int>, m: nat, t: Forest, j: nat)
    requires Finite(t) && j <= |t.parent| && Depth(t.parent, j) >= m
    requires |c| == MAX_BITS + 2 && 1 <= m <= MAX_BITS
    ensures Exact(c, m, t, j)
  {
  }

  // ---------------------------------------------------------------------------------------------
  // huffmanEncoder
  // ---------------------------------------------------------------------------------------------

  const LITERAL_COUNT: nat := 286

  /** Symbols are placed below a bucket's counter; the counter is where the next one goes. */
  predicate CountersAt(counters: seq<nat>, b: seq<nat>, k: nat) {
    && |b| <= |counters| && k <= |b|
    && forall c :: 1 <= c < |b| ==> counters[c] == Base(b, c) + CountTo(b, c, k)
  }

  class Encoder {
    const codes: array<nat>
    const nodes: array<nat>
    const counters: array<nat>
    const lens: array<nat>
    const lenCounts: array<int>

    predicate Valid() {
      && nodes.Length == counters.Length == lens.Length == LITERAL_COUNT + 1
      && lenCounts.Length == MAX_BITS + 2
      && codes != nodes && codes != counters && codes != lens
      && nodes != counters && nodes != lens && counters != lens
      && codes as object != lenCounts && nodes as object != lenCounts
      && counters as object != lenCounts && lens as object != lenCounts
    }

    function Repr(): set<object> {
      {codes, nodes, counters, lens} + {lenCounts as object}
    }

    constructor (size: nat)
      ensures Valid() && fresh(Repr()) && codes.Length == size
      ensures forall k :: 0 <= k < size ==> codes[k] == 0
    {
      codes := new nat[size](_ => 0);
      nodes := new nat[LITERAL_COUNT + 1](_ => 0);
      counters := new nat[LITERAL_COUNT + 1](_ => 0);
      lens := new nat[LITERAL_COUNT + 1](_ => 0);
      lenCounts := new int[MAX_BITS + 2](_ => 0);
    }

    /** How many symbols have each capped frequency. */
    method CountBuckets(freq: seq<nat>)
      requires Valid() && 3 <= |freq| <= LITERAL_COUNT + 1
      modifies counters
      ensures forall c :: 0 <= c < |freq| ==> counters[c] == Count(Buckets(freq), c)
    {
      var numSyms := |freq|;
      ghost var b := Buckets(freq);
      for i := 0 to numSyms
        invariant forall c :: 0 <= c < i ==> counters[c] == 0
      {
        counters[i] := 0;
      }
      var maxCounter := numSyms - 1;
      for s := 0 to numSyms
        invariant forall c :: 0 <= c < numSyms ==> counters[c] == CountTo(b, c, s)
      {
        var f := freq[s];
        if f > maxCounter { f := maxCounter; }
        assert counters[f] == CountTo(b, f, s) <= s;
        counters[f] := U16(counters[f] + 1);
      }
    }

    /** Counts become the slots where the buckets start; bucket 0 is dropped. */
    method Accumulate(ghost b: seq<nat>, numSyms: nat) returns (numUsed: nat)
      requires Valid() && 3 <= |b| == numSyms <= LITERAL_COUNT + 1
      requires forall c :: 0 <= c < |b| ==> counters[c] == Count(b, c)
      modifies counters
      ensures CountersAt(counters[..], b, 0) && numUsed == Base(b, |b|)
    {
      hide Base, CountTo;
      numUsed := 0;
      BaseStep(b, 1);
      for i := 1 to numSyms
        invariant numUsed == Base(b, i)
        invariant forall c :: 1 <= c < i ==> counters[c] == Base(b, c)
        invariant forall c :: i <= c < numSyms ==> counters[c] == Count(b, c)
      {
        var c := counters[i];
        counters[i] := numUsed;
        SlotsFit(b, i + 1);
        BaseStep(b, i);
        numUsed := U16(numUsed + c);
      }
      assert CountersAt(counters[..], b, 0) by { NoneCounted(counters[..], b); }
    }

    /** Puts every used symbol in its slot and clears the codes of the others. */
    method Place(freq: seq<nat>)
      requires Valid() && ValidFreq(freq) && |freq| <= LITERAL_COUNT && codes.Length >= |freq|
      requires CountersAt(counters[..], Buckets(freq), 0)
      modifies codes, nodes, counters
      ensures Placed(freq, nodes[..], |freq|) && CountersAt(counters[..], Buckets(freq), |freq|)
      ensures forall s :: 0 <= s < |freq| && freq[s] == 0 ==> codes[s] == 0
      ensures codes[|freq|..] == old(codes[|freq|..])
    {
      hide Placed, CountersAt, ValidFreq, Buckets, Cleared;
      ghost var was := codes[..];
      PlaceStart(freq, nodes[..], was);
      for sym := 0 to |freq|
        invariant Placed(freq, nodes[..], sym) && CountersAt(counters[..], Buckets(freq), sym)
        invariant Cleared(freq, was, codes[..], sym)
      {
        ClearStep(freq, was, codes[..], sym);
        ghost var cs := codes[..];
        if freq[sym] == 0 {
          codes[sym] := 0;
          assert codes[..] == cs[sym := 0];
          CountersStep(counters[..], counters[..], Buckets(freq), sym);
          PlacedSkip(freq, nodes[..], sym);
        } else {
          PlaceOne(freq, sym);
        }
      }
      ClearDone(freq, was, codes[..]);
      assert codes[|freq|..] == codes[..][|freq|..];
    }

    method PlaceOne(freq: seq<nat>, sym: nat)
      requires Valid() && ValidFreq(freq) && sym < |freq| <= LITERAL_COUNT && freq[sym] > 0
      requires Placed(freq, nodes[..], sym) && CountersAt(counters[..], Buckets(freq), sym)
      modifies nodes, counters
      ensures Placed(freq, nodes[..], sym + 1) && CountersAt(counters[..], Buckets(freq), sym + 1)
    {
      hide Placed, CountersAt, ValidFreq, Base, Sum;
      ghost var b, q, cs := Buckets(freq), nodes[..], counters[..];
      var maxCounter := |freq| - 1;
      var f := freq[sym];
      var c := f;
      if c > maxCounter { c := maxCounter; }
      PlacedStep(freq, q, cs, sym);
      assert cs[c] == counters[c];
      EntryFits(freq, sym);
      nodes[counters[c]] := U32(sym + f * SYMBOL_SPAN);
      counters[c] := U16(counters[c] + 1);
      assert nodes[..] == q[cs[c] := Entry(freq, sym)];
      assert counters[..] == cs[c := cs[c] + 1];
      CountersStep(cs, counters[..], b, sym);
    }

    /** Used symbols by frequency and then value, packed, in the first numUsed nodes. */
    method SortSymbols(freq: seq<nat>) returns (numUsed: nat)
      requires Valid() && ValidFreq(freq) && |freq| <= LITERAL_COUNT && codes.Length >= |freq|
      modifies codes, nodes, counters
      ensures numUsed == Base(Buckets(freq), |freq|) <= |freq|
      ensures SortedEntries(freq, nodes[..numUsed])
      ensures forall s :: 0 <= s < |freq| && freq[s] == 0 ==> codes[s] == 0
      ensures codes[|freq|..] == old(codes[|freq|..])
    {
      hide Placed, Base, SortedSpan, SpanPermuted, Sum;
      ghost var b := Buckets(freq);
      CountBuckets(freq);
      numUsed := Accumulate(b, |freq|);
      Place(freq);
      ghost var q := nodes[..];
      var lo, hi := counters[|freq| - 2], counters[|freq| - 1];
      SaturatedSpan(counters[..], freq, lo, hi);
      if hi - lo > 1 {
        InsertionSort(nodes, lo, hi);
        SpanDone(freq, q, nodes[..], lo, hi);
      } else {
        ShortSpan(freq, q, lo, hi);
      }
      assert nodes[..][..hi] == nodes[..numUsed];
    }

    /** Longest lengths to the lowest frequencies. */
    method AssignLengths(n: nat, maxLen: nat, numSyms: nat, ghost freq: seq<nat>, ghost q: seq<nat>)
      requires Valid() && |freq| == numSyms <= LITERAL_COUNT && SortedEntries(freq, q) && |q| == n <= numSyms
      requires Counts(lenCounts[..], maxLen, n)
      requires forall k :: 0 <= k < n ==> Symbol(nodes[k]) == Symbols(q)[k]
      requires forall s :: 0 <= s < numSyms && freq[s] == 0 ==> lens[s] == 0
      modifies lens
      ensures Ranked(lens[..numSyms], lenCounts[..], maxLen, Symbols(q), n)
      ensures Tally(lens[..numSyms], lenCounts[..], maxLen, 0, 0)
      ensures forall s :: 0 <= s < numSyms && s !in Symbols(q) ==> lens[s] == 0
    {
      hide Counts, SortedEntries, Given, Ranked, Tally, From, Listing, SpaceTo;
      ghost var c, sy := lenCounts[..], Symbols(q);
      ghost var g: seq<nat> := seq(numSyms, _ => 0);
      SortedListing(freq, q);
      StartLengths(freq, g, lens[..], c, maxLen, n, sy);
      var i := 0;
      var l: nat := maxLen;
      while l >= 1
        invariant 0 <= l <= maxLen && |g| == numSyms
        invariant Given(g, lens[..], sy, i) && Ranked(g, c, maxLen, sy, i) && Tally(g, c, maxLen, l, 0)
        invariant i == From(c, maxLen, l + 1)
        invariant forall s :: 0 <= s < numSyms && freq[s] == 0 ==> lens[s] == 0
      {
        FromStep(c, maxLen, n, l);
        var count: int := lenCounts[l];
        while count > 0
          invariant 0 <= count <= c[l] && |g| == numSyms
          invariant Given(g, lens[..], sy, i) && Ranked(g, c, maxLen, sy, i)
          invariant Tally(g, c, maxLen, l, c[l] - count)
          invariant i == From(c, maxLen, l + 1) + c[l] - count
          invariant forall s :: 0 <= s < numSyms && freq[s] == 0 ==> lens[s] == 0
        {
          GivenBounds(freq, g, lens[..], sy, i);
          GiveLength(g, lens[..], sy, i, c, maxLen, l, c[l] - count);
          ghost var old_lens := lens[..];
          lens[Symbol(nodes[i])] := l;
          assert lens[..] == old_lens[sy[i] := l];
          g := g[sy[i] := l];
          i := i + 1;
          count := count - 1;
        }
        TallyNext(g, c, maxLen, l);
        l := l - 1;
      }
      FromAll(c, maxLen, n);
      GivenAll(freq, g, lens[..], sy);
      assert lens[..numSyms] == lens[..][..numSyms] == g;
    }

    /** The first code word of each length. */
    method FirstWords(maxLen: nat, ghost ls: seq<nat>) returns (next: array<nat>)
      requires lenCounts.Length == MAX_BITS + 2 && 1 <= maxLen <= MAX_BITS && Tally(ls, lenCounts[..], maxLen, 0, 0)
      ensures fresh(next) && next.Length == MAX_BITS + 2 && NextAt(ls, next[..], maxLen, 0)
    {
      hide Tally, FirstCode, CountTo;
      next := new nat[MAX_BITS + 2](_ => 0);
      FirstCodeOne(ls);
      for l := 2 to maxLen + 1
        invariant forall k :: 1 <= k < l ==> next[k] == FirstCode(ls, k)
      {
        FirstCodeNext(ls, lenCounts[..], maxLen, l);
        assert lenCounts[l - 1] == lenCounts[..][l - 1];
        next[l] := (next[l - 1] + lenCounts[l - 1]) * 2;
      }
      NextStart(ls, next[..], maxLen);
    }

    /** Canonical codes in symbol order, stored bit-reversed. */
    method AssignCodes(maxLen: nat, numSyms: nat)
      requires Valid() && numSyms <= LITERAL_COUNT && codes.Length >= numSyms
      requires 1 <= maxLen <= MAX_BITS && Fits(lens[..numSyms])
      requires Tally(lens[..numSyms], lenCounts[..], maxLen, 0, 0)
      modifies codes
      ensures CanonCodes(lens[..numSyms], codes[..])
      ensures codes[numSyms..] == old(codes[numSyms..])
    {
      hide Fits, Kraft, Tally, FirstCode, CountTo, CodeOf, Reverse;
      ghost var ls := lens[..numSyms];
      var next := FirstWords(maxLen, ls);
      for sym := 0 to numSyms
        invariant NextAt(ls, next[..], maxLen, sym) && CodesTo(ls, codes[..], sym)
        invariant codes[numSyms..] == old(codes[numSyms..])
      {
        hide CanonHCode, NextAt, CodesTo;
        var l := lens[sym];
        assert l == ls[sym];
        LengthLimit(ls, lenCounts[..], maxLen, sym);
        ghost var nx, cs := next[..], codes[..];
        NextStep(ls, nx, maxLen, sym);
        CodesStep(ls, cs, sym);
        if l == 0 {
          codes[sym] := 0;
          assert codes[..] == cs[sym := 0];
        } else {
          var cw := next[l];
          assert cw == nx[l];
          next[l] := next[l] + 1;
          assert next[..] == nx[l := nx[l] + 1];
          codes[sym] := HCode(U16(Shr(Reverse(cw, 32), 32 - l)), l);
          assert codes[..] == cs[sym := CanonHCode(ls, sym)];
        }
      }
    }

    method GenCodewords(n: nat, maxLen: nat, numSyms: nat, ghost freq: seq<nat>, ghost q: seq<nat>)
      requires Valid() && |freq| == numSyms <= LITERAL_COUNT && SortedEntries(freq, q) && |q| == n <= numSyms
      requires codes.Length >= numSyms && Counts(lenCounts[..], maxLen, n)
      requires forall k :: 0 <= k < n ==> Symbol(nodes[k]) == Symbols(q)[k]
      requires forall s :: 0 <= s < numSyms && freq[s] == 0 ==> lens[s] == 0
      modifies lens, codes
      ensures Ranked(lens[..numSyms], lenCounts[..], maxLen, Symbols(q), n)
      ensures GoodLengths(freq, lens[..numSyms], maxLen) && Complete(lens[..numSyms])
      ensures CanonCodes(lens[..numSyms], codes[..])
      ensures codes[numSyms..] == old(codes[numSyms..])
    {
      hide SortedEntries, Counts, Ranked, Tally, GoodLengths, Kraft, CanonHCode;
      AssignLengths(n, maxLen, numSyms, freq, q);
      RankedGood(freq, q, lens[..numSyms], lenCounts[..], maxLen);
      TallyComplete(freq, lens[..numSyms], lenCounts[..], maxLen, n);
      AssignCodes(maxLen, numSyms);
    }

    /** Fewer than three used symbols: each gets a 1-bit code. */
    method OneBitCodes(freq: seq<nat>, ghost q: seq<nat>)
      requires Valid() && ValidFreq(freq) && |freq| <= LITERAL_COUNT && codes.Length >= |freq|
      requires SortedEntries(freq, q) && |q| == Base(Buckets(freq), |freq|) <= 2
      requires forall s :: 0 <= s < |freq| && freq[s] == 0 ==> codes[s] == 0
      modifies lens, codes
      ensures lens[..|freq|] == OneBit(freq)
      ensures CanonCodes(lens[..|freq|], codes[..])
      ensures codes[|freq|..] == old(codes[|freq|..])
    {
      hide ValidFreq, SortedEntries, Base;
      ValidFreqSize(freq);
      var n := 0;
      assert OneBitDone(freq, lens[..], codes[..], 0);
      for sym := 0 to |freq|
        invariant OneBitDone(freq, lens[..], codes[..], sym) && n == CountTo(OneBit(freq), 1, sym)
        invariant codes[|freq|..] == old(codes[|freq|..])
      {
        hide OneBitDone;
        ghost var ls, cs := lens[..], codes[..];
        OneBitStep(freq, ls, cs, sym, |q|);
        if freq[sym] != 0 {
          lens[sym] := 1;
          codes[sym] := HCode(n, 1);
          assert lens[..] == ls[sym := 1] && codes[..] == cs[sym := HCode(n, 1)];
          n := n + 1;
        } else {
          lens[sym] := 0;
          assert lens[..] == ls[sym := 0];
        }
      }
      OneBitAll(freq, lens[..], codes[..]);
      assert lens[..|freq|] == lens[..][..|freq|];
    }

    /** The code for these frequencies. The ghost result is the sorted order it was built from. */
    method Generate(freq: seq<nat>, maxBits: nat) returns (ghost q: seq<nat>)
      requires Valid() && ValidFreq(freq) && |freq| <= LITERAL_COUNT && codes.Length >= |freq|
      requires 1 <= maxBits <= MAX_BITS && |freq| <= Pow2(maxBits)
      modifies Repr()
      ensures SortedEntries(freq, q)
      ensures Built(freq, lens[..|freq|], maxBits, q)
      ensures CanonCodes(lens[..|freq|], codes[..])
      ensures codes[|freq|..] == old(codes[|freq|..])
    {
      hide SortedEntries, ValidFreq, Built, Buckets, Base, CanonHCode, Weights, Symbols, Layout, Counts, Sum;
      var numSyms := |freq|;
      var numUsed := SortSymbols(freq);
      q := nodes[..numUsed];
      if numUsed <= 2 {
        OneBitCodes(freq, q);
        OneBitBuilt(freq, lens[..numSyms], maxBits, q);
        return;
      }
      var maxLen := maxBits;
      if maxLen > numUsed - 1 { maxLen := numUsed - 1; }
      if maxLen > MAX_BITS { maxLen := MAX_BITS; }
      EnoughRoom(numUsed, numSyms, maxBits, maxLen);
      SortedLayout(freq, q);
      BuildTree(nodes, numUsed, Weights(q), Symbols(q));
      ComputeLengthCounts(nodes, numUsed, lenCounts, maxLen, Weights(q), Symbols(q));
      ghost var c, w, k := lenCounts[..], nodes[..], codes[..];
      for sym := 0 to numSyms
        invariant forall s :: 0 <= s < sym && freq[s] == 0 ==> lens[s] == 0
        invariant lenCounts[..] == c && nodes[..] == w && codes[..] == k
      {
        if freq[sym] == 0 { lens[sym] := 0; }
      }
      assert forall k :: 0 <= k < numUsed ==> Symbol(nodes[k]) == Symbol(w[k]);
      GenCodewords(numUsed, maxLen, numSyms, freq, q);
      TreeBuilt(freq, lens[..numSyms], maxBits, q, maxLen, lenCounts[..]);
    }
  }

  // ---------------------------------------------------------------------------------------------
  // Steps of the methods above.
  // ---------------------------------------------------------------------------------------------

  /** The lengths are good, complete from two used symbols on, those of the Huffman tree whenever the
      tree is within the limit, and in any case those that the clamped counts give. */
  predicate Built(freq: seq<nat>, lens: seq<nat>, maxBits: nat, q: seq<nat>) {
    && GoodLengths(freq, lens, maxBits) && Listing(Symbols(q), |lens|) && Ascending(Weights(q))
    && (|q| == 1 ==> lens[Symbol(q[0])] == 1)
    && (|q| >= 2 ==> Complete(lens))
    && (|q| >= 2 && TreeHeight(Weights(q)) <= maxBits ==> Pick(lens, Symbols(q)) == TreeLengths(Weights(q)))
    && (|q| >= 3 ==> Limited(Weights(q), lens, Symbols(q), Limit(|q|, maxBits)))
  }

  /** The longest length that so many symbols can need. */
  function Limit(n: nat, maxBits: nat): nat {
    if n >= 1 && maxBits > n - 1 then n - 1 else maxBits
  }

  /** The sorted symbols have the lengths that the counts of the depth pass give them. */
  predicate Limited(f: seq<nat>, lens: seq<nat>, sy: seq<nat>, m: nat)
    requires |f| >= 2 && Ascending(f)
  {
    1 <= m &&
    (Finished(f);
     var c := LimitedCounts(Tree(f).parent, m, 0);
     Ranked(lens, c, m, sy, |sy|) && forall d :: 1 <= d <= m ==> c[d] >= 0)
  }

  /** The total cost is least over all prefix codes for the alphabet exactly if the tree is within the limit. */
  lemma GenerateOptimal(freq: seq<nat>, lens: seq<nat>, maxBits: nat, q: seq<nat>)
    requires SortedEntries(freq, q) && Built(freq, lens, maxBits, q) && |q| >= 2
    ensures TreeHeight(Weights(q)) <= maxBits
      <==> forall words :: CodesUsed(freq, words) ==> Cost(freq, lens) <= Cost(freq, Lengths(words))
  {
    hide SortedEntries, Cost, TreeHeight, TreeLengths, Complete, Limited;
    var f := Weights(q);
    if TreeHeight(f) <= maxBits {
      forall words | CodesUsed(freq, words) ensures Cost(freq, lens) <= Cost(freq, Lengths(words)) {
        AlphabetOptimal(freq, q, lens, words);
      }
    } else {
      var words := AlphabetWords(freq, q);
      if Cost(freq, lens) <= Cost(freq, Lengths(words)) { LimitBinds(freq, lens, maxBits, q); }
    }
  }

  /** Lengths within a limit that cost no more than the tree leave the tree within it. */
  lemma LimitBinds(freq: seq<nat>, lens: seq<nat>, maxBits: nat, q: seq<nat>)
    requires SortedEntries(freq, q) && Built(freq, lens, maxBits, q) && |q| >= 2
    requires Cost(freq, lens) <= Cost(Weights(q), TreeLengths(Weights(q)))
    ensures TreeHeight(Weights(q)) <= maxBits
  {
    hide SortedEntries, Cost, TreeLengths, Kraft, KraftSum, Pow2, Limited, Depth, Tree;
    SortedListing(freq, q);
    var sy := Symbols(q);
    PickCost(freq, lens, sy);
    PickFeasible(lens, sy);
    LeastHeight(Weights(q), Pick(lens, sy), MAX_BITS, maxBits);
  }

  /** Listed lengths of a code that fits satisfy the Kraft inequality. */
  lemma PickFeasible(lens: seq<nat>, sy: seq<nat>)
    requires Fits(lens) && Listing(sy, |lens|) && forall k :: 0 <= k < |sy| ==> Used(lens, sy[k])
    ensures Feasible(Pick(lens, sy), MAX_BITS)
  {
    hide Kraft, KraftSum, Pow2, CodeOf, CodeBits;
    var c := seq(|sy|, k requires 0 <= k < |sy| => SymBits(lens, sy[k]));
    forall j, k | 0 <= j < k < |c| ensures !Comparable(c[j], c[k]) {
      if c[j] <= c[k] { PrefixFree(lens, sy[j], sy[k]); }
      if c[k] <= c[j] { PrefixFree(lens, sy[k], sy[j]); }
    }
    assert Lengths(c) == Pick(lens, sy);
    PrefixCodeFits(c, MAX_BITS);
  }

  /** A prefix code for the alphabet that costs what the tree costs. */
  lemma AlphabetWords(freq: seq<nat>, q: seq<nat>) returns (words: seq<seq<bool>>)
    requires SortedEntries(freq, q) && |q| >= 2 && Ascending(Weights(q))
    ensures CodesUsed(freq, words) && Cost(freq, Lengths(words)) == Cost(Weights(q), TreeLengths(Weights(q)))
  {
    hide SortedEntries, Cost, TreeLengths, Tree;
    SortedListing(freq, q);
    var sy := Symbols(q);
    var c := TreeWords(Weights(q));
    words := seq(|freq|, _ => []);
    var i := 0;
    while i < |sy|
      invariant i <= |sy| && |words| == |freq| && forall k :: 0 <= k < i ==> words[sy[k]] == c[k]
    {
      words := words[sy[i] := c[i]];
      i := i + 1;
    }
    forall s, t | 0 <= s < |freq| && 0 <= t < |freq| && s != t && freq[s] > 0 && freq[t] > 0
      ensures !(words[s] <= words[t])
    {
      var j := PlaceOf(freq, sy, s);
      var k := PlaceOf(freq, sy, t);
      NotComparable(c, j, k);
    }
    PickCost(freq, Lengths(words), sy);
    assert Pick(Lengths(words), sy) == Lengths(c);
  }

  lemma {:induction false} CountSole(lens: seq<nat>, l: nat, t: nat, k: nat)
    requires t < |lens| && k <= |lens| && lens[t] == l && forall s :: 0 <= s < |lens| && s != t ==> lens[s] != l
    ensures CountTo(lens, l, k) == if t < k then 1 else 0
  {
    if k > 0 { CountSole(lens, l, t, k - 1); }
  }

  /** The decoder accepts what is built for an alphabet in use. */
  lemma GenerateAccepted(freq: seq<nat>, lens: seq<nat>, maxBits: nat, q: seq<nat>, s: nat)
    requires SortedEntries(freq, q) && Built(freq, lens, maxBits, q) && s < |freq| && freq[s] > 0
    ensures Complete(lens) || Single(lens)
  {
    hide SortedEntries, Complete, TreeHeight, Ascending, Weights;
    SortedListing(freq, q);
    var sy := Symbols(q);
    assert s in sy;
    if |q| == 1 {
      var t := sy[0];
      forall u | 0 <= u < |lens| && u != t ensures lens[u] == 0 { assert u !in sy; }
      CountSole(lens, 1, t, |lens|);
    }
  }

  lemma SaturatedSpan(cs: seq<nat>, freq: seq<nat>, lo: nat, hi: nat)
    requires 3 <= |freq| <= |cs| && CountersAt(cs, Buckets(freq), |freq|)
    requires lo == cs[|freq| - 2] && hi == cs[|freq| - 1]
    ensures lo == Base(Buckets(freq), |freq| - 1) <= hi == Base(Buckets(freq), |freq|) <= |freq|
  {
    SlotsFit(Buckets(freq), |freq|);
  }

  lemma SpanDone(freq: seq<nat>, q: seq<nat>, r: seq<nat>, lo: nat, hi: nat)
    requires ValidFreq(freq) && Placed(freq, q, |freq|) && hi <= |q|
    requires lo == Base(Buckets(freq), |freq| - 1) <= hi == Base(Buckets(freq), |freq|)
    requires SortedSpan(r, lo, hi) && SpanPermuted(q, r, lo, hi)
    ensures SortedEntries(freq, r[..hi])
  {
    SpanSorted(freq, q, r, lo, hi);
  }

  lemma ShortSpan(freq: seq<nat>, q: seq<nat>, lo: nat, hi: nat)
    requires ValidFreq(freq) && Placed(freq, q, |freq|) && hi <= |q|
    requires lo == Base(Buckets(freq), |freq| - 1) <= hi == Base(Buckets(freq), |freq|) && hi - lo <= 1
    ensures SortedEntries(freq, q[..hi])
  {
    SpanSorted(freq, q, q, lo, hi);
  }

  lemma StartLengths(freq: seq<nat>, g: seq<nat>, lens: seq<nat>, c: seq<int>, m: nat, n: nat, sy: seq<nat>)
    requires |g| <= |lens| && (forall s :: 0 <= s < |g| ==> g[s] == 0) && |g| == |freq| && ListsUsed(sy, freq)
    requires Counts(c, m, n)
    ensures Given(g, lens, sy, 0) && Ranked(g, c, m, sy, 0) && Tally(g, c, m, m, 0)
    ensures From(c, m, m + 1) == 0 && m < |c|
  {
    TallyStart(g, c, m);
  }

  /** There are symbols left as long as a count is not used up. */
  lemma FromStep(c: seq<int>, m: nat, n: nat, l: nat)
    requires Counts(c, m, n) && 1 <= l <= m
    ensures c[l] >= 0 && From(c, m, l + 1) >= 0 && From(c, m, l + 1) + c[l] == From(c, m, l) <= n
    ensures 1 <= l <= MAX_BITS
  {
    FromOrder(c, m, l + 1, m + 1);
    FromOrder(c, m, 1, l);
    FromTotal(c, m, 0);
  }

  lemma FromAll(c: seq<int>, m: nat, n: nat)
    requires Counts(c, m, n)
    ensures From(c, m, 1) == n
  {
    FromTotal(c, m, 0);
  }

  lemma GivenBounds(freq: seq<nat>, g: seq<nat>, lens: seq<nat>, sy: seq<nat>, i: nat)
    requires Given(g, lens, sy, i) && i < |sy| && ListsUsed(sy, freq) && |g| == |freq|
    ensures sy[i] < |g| <= |lens| && freq[sy[i]] > 0
  {
  }

  lemma TallyNext(g: seq<nat>, c: seq<int>, m: nat, l: nat)
    requires Tally(g, c, m, l, if l < |c| then c[l] else 0) && l >= 1
    ensures Tally(g, c, m, l - 1, 0)
  {
  }

  lemma GivenAll(freq: seq<nat>, g: seq<nat>, lens: seq<nat>, sy: seq<nat>)
    requires Given(g, lens, sy, |sy|) && |g| == |freq| && ListsUsed(sy, freq)
    requires forall s :: 0 <= s < |freq| && freq[s] == 0 ==> lens[s] == 0
    ensures g == lens[..|g|]
    ensures forall s :: 0 <= s < |g| && s !in sy ==> lens[s] == 0
  {
    forall s | 0 <= s < |g|
      ensures g[s] == lens[s]
    {
      if s in sy {
        var k :| 0 <= k < |sy| && sy[k] == s;
        assert g[sy[k]] == lens[sy[k]];
      }
    }
  }

  lemma FirstCodeOne(lens: seq<nat>)
    ensures FirstCode(lens, 1) == 0
  {
  }

  lemma FirstCodeNext(lens: seq<nat>, c: seq<int>, m: nat, l: nat)
    requires Tally(lens, c, m, 0, 0) && 2 <= l <= m <= MAX_BITS
    ensures c[l - 1] == Count(lens, l - 1)
    ensures FirstCode(lens, l) == 2 * (FirstCode(lens, l - 1) + c[l - 1])
  {
  }

  predicate CodesTo(lens: seq<nat>, codes: seq<nat>, k: nat) {
    && k <= |lens| <= |codes|
    && forall s :: 0 <= s < k ==> codes[s] == CanonHCode(lens, s)
  }

  lemma CodesStep(lens: seq<nat>, codes: seq<nat>, s: nat)
    requires CodesTo(lens, codes, s) && s < |lens|
    ensures CodesTo(lens, codes[s := CanonHCode(lens, s)], s + 1)
    ensures CanonHCode(lens, s)
      == if lens[s] == 0 then 0 else HCode(Reverse(CodeOf(lens, s), lens[s]), lens[s])
  {
  }

  lemma CodeOfIs(lens: seq<nat>, s: nat)
    requires Fits(lens) && Used(lens, s)
    ensures CodeOf(lens, s) == FirstCode(lens, lens[s]) + CountTo(lens, lens[s], s)
    ensures lens[s] <= MAX_BITS
  {
  }

  /** No length exceeds the limit, and a code fits in 16 bits. */
  lemma LengthLimit(lens: seq<nat>, c: seq<int>, m: nat, s: nat)
    requires Fits(lens) && Tally(lens, c, m, 0, 0) && s < |lens|
    ensures lens[s] <= m
    ensures lens[s] > 0 ==> var k := CodeOf(lens, s);
      && k == FirstCode(lens, lens[s]) + CountTo(lens, lens[s], s)
      && Shr(Reverse(k, 32), 32 - lens[s]) == Reverse(k, lens[s]) < 0x1_0000
  {
    hide Pow2, Reverse, Shr, CodeOf, Fits;
    if lens[s] > 0 {
      CodeOfIs(lens, s);
      CodeFits(lens, s);
      ReverseShift(CodeOf(lens, s), lens[s], 32);
      Pow2Mono(lens[s], 16);
      Pow2Values();
      CountToMono(lens, lens[s], s, |lens|);
      assert Count(lens, lens[s]) > 0;
    }
  }

  lemma TallyComplete(freq: seq<nat>, lens: seq<nat>, c: seq<int>, m: nat, n: nat)
    requires GoodLengths(freq, lens, m) && Counts(c, m, n) && Tally(lens, c, m, 0, 0)
    ensures Complete(lens) && 1 <= m <= MAX_BITS
  {
    SpaceIsKraft(lens, c, m, MAX_BITS);
  }

  // ---------------------------------------------------------------------------------------------
  // One and two used symbols.
  // ---------------------------------------------------------------------------------------------

  function OneBit(freq: seq<nat>): (ls: seq<nat>)
    ensures |ls| == |freq|
    ensures forall s :: 0 <= s < |freq| ==> ls[s] == if freq[s] != 0 then 1 else 0
  {
    seq(|freq|, s requires 0 <= s < |freq| => if freq[s] != 0 then 1 else 0)
  }

  lemma {:induction false} OneBitCount(freq: seq<nat>, k: nat)
    requires |freq| >= 2 && k <= |freq|
    ensures CountTo(OneBit(freq), 1, k) == BaseTo(Buckets(freq), |freq|, k)
  {
    if k > 0 {
      OneBitCount(freq, k - 1);
      BaseToStep(Buckets(freq), |freq|, k);
      SaturatedCount(freq, k);
    } else {
      BaseToZero(Buckets(freq), |freq|);
    }
  }

  lemma SaturatedCount(freq: seq<nat>, k: nat)
    requires |freq| >= 2 && 0 < k <= |freq|
    ensures 1 <= Buckets(freq)[k - 1] < |freq| <==> OneBit(freq)[k - 1] == 1
  {
  }

  lemma UsedCount(freq: seq<nat>)
    requires |freq| >= 2
    ensures Count(OneBit(freq), 1) == Base(Buckets(freq), |freq|)
  {
    OneBitCount(freq, |freq|);
    BaseIsBaseTo(Buckets(freq), |freq|);
  }

  lemma OneBitCode(freq: seq<nat>, s: nat, n: nat)
    requires |freq| >= 2 && s < |freq| && freq[s] != 0 && n == Base(Buckets(freq), |freq|) <= 2
    ensures var ls := OneBit(freq);
      && CanonHCode(ls, s) == HCode(CountTo(ls, 1, s), 1)
      && CountTo(ls, 1, s + 1) == CountTo(ls, 1, s) + 1
  {
    var ls := OneBit(freq);
    UsedCount(freq);
    CountToMono(ls, 1, s, |ls|);
    var k := CountTo(ls, 1, s);
    assert k <= 1 && CodeOf(ls, s) == k;
    ReverseOne(k);
  }

  lemma ReverseOne(k: nat)
    requires k <= 1
    ensures Reverse(k, 1) == k
  {
    assert CodeBits(k, 1) == [k == 1];
    assert ValueOf([k == 1][1..]) == 0;
  }

  /** Symbols below k are done; the unused ones above already have no code. */
  predicate OneBitDone(freq: seq<nat>, lens: seq<nat>, codes: seq<nat>, k: nat) {
    && k <= |freq| <= |lens| && |freq| <= |codes|
    && (forall s :: 0 <= s < k ==> lens[s] == OneBit(freq)[s] && codes[s] == CanonHCode(OneBit(freq), s))
    && (forall s :: k <= s < |freq| && freq[s] == 0 ==> codes[s] == 0)
  }

  lemma OneBitStep(freq: seq<nat>, lens: seq<nat>, codes: seq<nat>, s: nat, n: nat)
    requires |freq| >= 2 && s < |freq| && n == Base(Buckets(freq), |freq|) <= 2
    requires OneBitDone(freq, lens, codes, s)
    ensures var k := CountTo(OneBit(freq), 1, s);
      if freq[s] != 0 then
        && CountTo(OneBit(freq), 1, s + 1) == k + 1
        && OneBitDone(freq, lens[s := 1], codes[s := HCode(k, 1)], s + 1)
      else
        && CountTo(OneBit(freq), 1, s + 1) == k
        && OneBitDone(freq, lens[s := 0], codes, s + 1)
  {
    hide CanonHCode, Base, CountTo;
    if freq[s] != 0 { OneBitCode(freq, s, n); } else { OneBitNone(freq, s); }
  }

  lemma OneBitAll(freq: seq<nat>, lens: seq<nat>, codes: seq<nat>)
    requires OneBitDone(freq, lens, codes, |freq|)
    ensures lens[..|freq|] == OneBit(freq) && CanonCodes(OneBit(freq), codes)
  {
  }

  lemma OneBitNone(freq: seq<nat>, s: nat)
    requires s < |freq| && freq[s] == 0
    ensures CanonHCode(OneBit(freq), s) == 0
    ensures CountTo(OneBit(freq), 1, s + 1) == CountTo(OneBit(freq), 1, s)
  {
  }

  lemma {:induction false} OnlyOnes(ls: seq<nat>, x: nat, k: nat)
    requires k <= |ls| && x > 1 && forall s :: 0 <= s < |ls| ==> ls[s] <= 1
    ensures CountTo(ls, x, k) == 0
  {
    if k > 0 { OnlyOnes(ls, x, k - 1); }
  }

  lemma TwoComplete(ls: seq<nat>)
    requires (forall s :: 0 <= s < |ls| ==> ls[s] <= 1) && Count(ls, 1) == 2
    ensures Complete(ls)
  {
    var c: seq<int> := [0, 2, 0, 0, 0, 0, 0, 0, 0, 0, 0, 0, 0, 0, 0, 0, 0];
    forall x | 1 <= x <= MAX_BITS + 1
      ensures Count(ls, x) == if x > 1 then 0 else c[x]
    {
      if x > 1 { OnlyOnes(ls, x, |ls|); }
    }
    SpaceIsKraft(ls, c, 1, MAX_BITS);
    RootSpace(c, 1);
  }

  lemma TwoLeafTree(f: seq<nat>)
    requires |f| == 2 && Ascending(f)
    ensures TreeLengths(f) == [1, 1]
  {
    Finished(f);
    var t := Tree(f);
    assert Parents(t.leafParent, 1);
  }

  lemma OneBitBuilt(freq: seq<nat>, lens: seq<nat>, maxBits: nat, q: seq<nat>)
    requires ValidFreq(freq) && SortedEntries(freq, q) && |q| == Base(Buckets(freq), |freq|) <= 2
    requires lens == OneBit(freq)
    requires 1 <= maxBits <= MAX_BITS
    ensures Built(freq, lens, maxBits, q)
  {
    hide SortedEntries, ValidFreq, TreeHeight, Complete;
    assert 3 <= |freq| by { ValidFreqSize(freq); }
    SortedListing(freq, q);
    var sy := Symbols(q);
    forall k | 0 <= k < |q| ensures lens[sy[k]] == 1 { assert sy[k] in sy; }
    if |q| == 2 {
      UsedCount(freq);
      TwoComplete(lens);
      TwoLeafTree(Weights(q));
      assert Pick(lens, sy) == [1, 1];
    }
  }

  lemma ValidFreqSize(freq: seq<nat>)
    requires ValidFreq(freq)
    ensures 3 <= |freq| <= SYMBOL_SPAN
  {
  }

  // ---------------------------------------------------------------------------------------------
  // Three and more.
  // ---------------------------------------------------------------------------------------------

  lemma {:induction false} Pow2Exceeds(n: nat)
    ensures n < Pow2(n)
  {
    if n > 0 { Pow2Exceeds(n - 1); }
  }

  lemma EnoughRoom(numUsed: nat, numSyms: nat, maxBits: nat, maxLen: nat)
    requires 3 <= numUsed <= numSyms <= Pow2(maxBits) && 1 <= maxBits <= MAX_BITS
    requires maxLen == if maxBits > numUsed - 1 then numUsed - 1 else maxBits
    ensures 1 <= maxLen <= MAX_BITS && numUsed <= Pow2(maxLen)
  {
    Pow2Exceeds(numUsed - 1);
  }

  lemma SortedLayout(freq: seq<nat>, q: seq<nat>)
    requires ValidFreq(freq) && SortedEntries(freq, q)
    ensures Ascending(Weights(q)) && Sum(Weights(q)) < 0x40_0000
    ensures forall k :: 0 <= k < |q| ==> Symbols(q)[k] < SYMBOL_SPAN && q[k] == Pack(Weights(q)[k], Symbols(q)[k])
  {
    SortedListing(freq, q);
    PickSum(freq, Symbols(q));
  }

  lemma TreeBuilt(freq: seq<nat>, lens: seq<nat>, maxBits: nat, q: seq<nat>, maxLen: nat, c: seq<int>)
    requires SortedEntries(freq, q) && |q| >= 3 && Ascending(Weights(q)) && 1 <= maxBits <= MAX_BITS
    requires maxLen == if maxBits > |q| - 1 then |q| - 1 else maxBits
    requires GoodLengths(freq, lens, maxLen) && Complete(lens) && Counts(c, maxLen, |q|)
    requires Ranked(lens, c, maxLen, Symbols(q), |q|) && Finite(Tree(Weights(q)))
    requires Depth(Tree(Weights(q)).parent, 0) < maxLen ==>
      forall d :: 1 <= d <= maxLen ==> c[d] == Count(LeafDepths(Tree(Weights(q))), d)
    requires 1 <= maxLen && Rising(Tree(Weights(q)).parent)
    requires c[..maxLen + 1] == LimitedCounts(Tree(Weights(q)).parent, maxLen, 0)
    ensures Built(freq, lens, maxBits, q)
  {
    hide Complete, Ranked, SortedEntries, Tree, Finite, Count, LimitedCounts;
    var f := Weights(q);
    SortedListing(freq, q);
    Finished(f);
    DepthBound(Tree(f).parent, 0);
    RankedLimited(lens, c, maxLen, Symbols(q));
    if TreeHeight(f) <= maxBits {
      ExactRanks(f, c, maxLen, lens, Symbols(q));
    }
  }

  lemma RankedLimited(lens: seq<nat>, c: seq<int>, m: nat, sy: seq<nat>)
    requires Ranked(lens, c, m, sy, |sy|) && m < |c|
    ensures Ranked(lens, c[..m + 1], m, sy, |sy|)
  {
    hide Rank;
    forall k | 0 <= k < |sy| ensures Rank(c[..m + 1], m, k, lens[sy[k]]) { RankPrefix(c, m, k, lens[sy[k]]); }
  }

  // ---------------------------------------------------------------------------------------------
  // The frequencies determine the lengths.
  // ---------------------------------------------------------------------------------------------

  lemma {:induction false} AscendingSame(a: seq<nat>, b: seq<nat>)
    requires StrictlyAscending(a) && StrictlyAscending(b) && forall x :: x in a <==> x in b
    ensures a == b
    decreases |a|
  {
    assert (a != [] ==> a[0] in b) && (b != [] ==> b[0] in a);
    if a != [] && b != [] {
      var i :| 0 <= i < |b| && b[i] == a[0];
      var j :| 0 <= j < |a| && a[j] == b[0];
      assert a[0] == b[0];
      forall x ensures x in a[1..] <==> x in b[1..] {
        if x in a[1..] { assert x in a && x != a[0]; }
        if x in b[1..] { assert x in b && x != b[0]; }
      }
      AscendingSame(a[1..], b[1..]);
    }
  }

  lemma SortedOnce(freq: seq<nat>, q: seq<nat>, r: seq<nat>)
    requires SortedEntries(freq, q) && SortedEntries(freq, r)
    ensures q == r
  {
    forall x ensures x in q <==> x in r {
      if x in q { var k :| 0 <= k < |q| && q[k] == x; assert IsEntry(freq, q[k]); }
      if x in r { var k :| 0 <= k < |r| && r[k] == x; assert IsEntry(freq, r[k]); }
    }
    AscendingSame(q, r);
  }

  lemma LimitedOnce(f: seq<nat>, a: seq<nat>, b: seq<nat>, sy: seq<nat>, m: nat, k: nat)
    requires |f| >= 2 && Ascending(f) && Limited(f, a, sy, m) && Limited(f, b, sy, m) && k < |sy|
    ensures sy[k] < |a| && sy[k] < |b| && a[sy[k]] == b[sy[k]]
  {
    hide LimitedCounts, Tree, From;
    Finished(f);
    RankOnce(LimitedCounts(Tree(f).parent, m, 0), m, k, a[sy[k]], b[sy[k]]);
  }

  /** What is built is determined by the frequencies and the limit. */
  lemma BuiltOnce(freq: seq<nat>, a: seq<nat>, b: seq<nat>, maxBits: nat, q: seq<nat>, r: seq<nat>)
    requires SortedEntries(freq, q) && SortedEntries(freq, r) && 1 <= maxBits
    requires Built(freq, a, maxBits, q) && Built(freq, b, maxBits, r)
    ensures a == b && q == r
  {
    hide SortedEntries, Complete, Limited, TreeHeight, TreeLengths;
    SortedOnce(freq, q, r);
    SortedListing(freq, q);
    var sy := Symbols(q);
    if |q| == 2 { TwoHigh(Weights(q)); }
    forall k | 0 <= k < |sy| ensures a[sy[k]] == b[sy[k]] {
      if |q| >= 3 {
        LimitedOnce(Weights(q), a, b, sy, Limit(|q|, maxBits), k);
      } else if |q| == 2 {
        assert Pick(a, sy)[k] == Pick(b, sy)[k];
      }
    }
    forall s | 0 <= s < |freq| ensures a[s] == b[s] {
      if freq[s] > 0 {
        assert s in sy;
        var k :| 0 <= k < |sy| && sy[k] == s;
        assert a[sy[k]] == b[sy[k]];
      }
    }
  }

  lemma TwoHigh(f: seq<nat>)
    requires |f| == 2 && Ascending(f)
    ensures TreeHeight(f) == 1
  {
    TwoLeafTree(f);
  }

  lemma BaseStep(b: seq<nat>, i: nat)
    requires i >= 1
    ensures Base(b, 1) == 0 && Base(b, i + 1) == Base(b, i) + Count(b, i)
  {
  }

  lemma NoneCounted(cs: seq<nat>, b: seq<nat>)
    requires |b| <= |cs| && forall c :: 1 <= c < |b| ==> cs[c] == Base(b, c)
    ensures CountersAt(cs, b, 0)
  {
  }

  lemma CountersStep(cs: seq<nat>, r: seq<nat>, b: seq<nat>, s: nat)
    requires CountersAt(cs, b, s) && s < |b|
    requires forall i :: 0 <= i < |b| ==> b[i] < |b|
    requires r == if b[s] == 0 then cs else cs[b[s] := cs[b[s]] + 1]
    ensures CountersAt(r, b, s + 1)
  {
  }

  /** The first k unused symbols have lost their codes; nothing else has changed. */
  predicate Cleared(freq: seq<nat>, was: seq<nat>, now: seq<nat>, k: nat) {
    && k <= |freq| <= |was| == |now|
    && forall s :: 0 <= s < |was| ==> now[s] == if s < k && freq[s] == 0 then 0 else was[s]
  }

  lemma ClearStep(freq: seq<nat>, was: seq<nat>, now: seq<nat>, k: nat)
    requires Cleared(freq, was, now, k) && k < |freq|
    ensures Cleared(freq, was, if freq[k] == 0 then now[k := 0] else now, k + 1)
  {
  }

  lemma PlaceStart(freq: seq<nat>, q: seq<nat>, codes: seq<nat>)
    requires ValidFreq(freq) && |freq| <= |codes|
    ensures Placed(freq, q, 0) && Cleared(freq, codes, codes, 0)
  {
  }

  lemma ClearDone(freq: seq<nat>, was: seq<nat>, now: seq<nat>)
    requires Cleared(freq, was, now, |freq|)
    ensures |freq| <= |now| == |was| && now[|freq|..] == was[|freq|..]
    ensures forall s :: 0 <= s < |freq| && freq[s] == 0 ==> now[s] == 0
  {
  }

  lemma EntryFits(freq: seq<nat>, s: nat)
    requires ValidFreq(freq) && s < |freq|
    ensures s + freq[s] * SYMBOL_SPAN == Entry(freq, s) < 0x1_0000_0000
  {
  }

  lemma PlacedSkip(freq: seq<nat>, q: seq<nat>, s: nat)
    requires Placed(freq, q, s) && s < |freq| && freq[s] == 0
    ensures Placed(freq, q, s + 1)
  {
  }

  lemma PlacedStep(freq: seq<nat>, q: seq<nat>, cs: seq<nat>, s: nat)
    requires ValidFreq(freq) && Placed(freq, q, s) && s < |freq| <= |q| && freq[s] > 0
    requires CountersAt(cs, Buckets(freq), s)
    ensures var c := Buckets(freq)[s];
      && 1 <= c < |cs| && cs[c] < |freq|
      && Placed(freq, q[cs[c] := Entry(freq, s)], s + 1)
  {
    hide Base, CountTo;
    var b := Buckets(freq);
    SlotInside(b, s);
    SlotsFit(b, b[s] + 1);
    var r := q[Slot(b, s) := Entry(freq, s)];
    forall t | 0 <= t < s + 1 && freq[t] > 0
      ensures Slot(b, t) < |r| && r[Slot(b, t)] == Entry(freq, t)
    {
      if t < s { SlotInjective(b, s, t); }
    }
  }
}
