/** The two-queue construction has minimum cost: no lengths that fit in the code space, hence no
    prefix code, cost less than the leaf depths of the tree it builds. */
module HuffmanOptimal {
  import opened Words
  import opened Canon
  import opened HuffmanTree

  /** Each node's parent comes later. */
  predicate Rising(p: seq<nat>) {
    forall k :: 0 <= k < |p| ==> k < p[k]
  }

  /** Depth of an internal node below the root, the first node without a parent entry. */
  function Depth(p: seq<nat>, j: nat): nat
    requires Rising(p)
    decreases |p| - j
  {
    if j >= |p| then 0 else Depth(p, p[j]) + 1
  }

  function InternalDepths(p: seq<nat>, e: nat): (d: seq<nat>)
    requires Rising(p)
    ensures |d| == e && forall j :: 0 <= j < e ==> d[j] == Depth(p, j)
  {
    seq(e, j requires 0 <= j < e => Depth(p, j))
  }

  function LeafDepths(t: Forest): (d: seq<nat>)
    requires Rising(t.parent)
    ensures |d| == |t.leafParent|
    ensures forall k :: 0 <= k < |d| ==> d[k] == Depth(t.parent, t.leafParent[k]) + 1
  {
    seq(|t.leafParent|, k requires 0 <= k < |t.leafParent| => Depth(t.parent, t.leafParent[k]) + 1)
  }

  /** Total cost of giving weights w the lengths l. */
  function Cost(w: seq<nat>, l: seq<nat>): nat
    requires |w| == |l|
  {
    if w == [] then 0 else w[0] * l[0] + Cost(w[1..], l[1..])
  }

  /** The Kraft sum of lengths l in units of 2^-n. */
  function KraftSum(l: seq<nat>, n: nat): nat
    requires forall k :: 0 <= k < |l| ==> l[k] <= n
  {
    if l == [] then 0 else Pow2(n - l[0]) + KraftSum(l[1..], n)
  }

  predicate Feasible(l: seq<nat>, n: nat) {
    (forall k :: 0 <= k < |l| ==> l[k] <= n) && KraftSum(l, n) <= Pow2(n)
  }

  lemma {:induction false} CostConcat(w: seq<nat>, v: seq<nat>, l: seq<nat>, m: seq<nat>)
    requires |w| == |l| && |v| == |m|
    ensures Cost(w + v, l + m) == Cost(w, l) + Cost(v, m)
  {
    if w == [] {
      assert w + v == v && l + m == m;
    } else {
      CostConcat(w[1..], v, l[1..], m);
      assert (w + v)[1..] == w[1..] + v && (l + m)[1..] == l[1..] + m;
    }
  }

  lemma {:induction false} KraftConcat(l: seq<nat>, m: seq<nat>, n: nat)
    requires forall k :: 0 <= k < |l| ==> l[k] <= n
    requires forall k :: 0 <= k < |m| ==> m[k] <= n
    ensures KraftSum(l + m, n) == KraftSum(l, n) + KraftSum(m, n)
  {
    if l == [] {
      assert l + m == m;
    } else {
      KraftConcat(l[1..], m, n);
      assert (l + m)[1..] == l[1..] + m;
    }
  }

  lemma {:induction false} CostUpdate(w: seq<nat>, l: seq<nat>, k: nat, v: nat)
    requires k < |l| == |w|
    ensures Cost(w, l[k := v]) + w[k] * l[k] == Cost(w, l) + w[k] * v
  {
    if k > 0 {
      CostUpdate(w[1..], l[1..], k - 1, v);
      assert l[k := v][1..] == l[1..][k - 1 := v];
    } else {
      assert l[k := v][1..] == l[1..];
    }
  }

  lemma {:induction false} KraftUpdate(l: seq<nat>, k: nat, v: nat, n: nat)
    requires k < |l| && v <= n && forall j :: 0 <= j < |l| ==> l[j] <= n
    ensures KraftSum(l[k := v], n) + Pow2(n - l[k]) == KraftSum(l, n) + Pow2(n - v)
  {
    if k > 0 {
      KraftUpdate(l[1..], k - 1, v, n);
      assert l[k := v][1..] == l[1..][k - 1 := v];
    } else {
      assert l[k := v][1..] == l[1..];
    }
  }

  // ---------------------------------------------------------------------------------------------
  // The exchange argument.
  // ---------------------------------------------------------------------------------------------

  /** Giving the lighter item the longer code does not cost more. */
  lemma SwapHelps(x: nat, y: nat, a: nat, b: nat)
    requires x <= y && a <= b
    ensures x * b + y * a <= x * a + y * b
  {
    assert x * b + y * a == x * a + y * b - (y - x) * (b - a);
    assert (y - x) * (b - a) >= 0;
  }

  lemma {:induction false} Longest(l: seq<nat>) returns (z: nat)
    requires |l| > 0
    ensures z < |l| && forall k :: 0 <= k < |l| ==> l[k] <= l[z]
  {
    z := 0;
    if |l| > 1 {
      var y := Longest(l[1..]);
      z := if l[y + 1] > l[0] then y + 1 else 0;
      assert forall k :: 1 <= k < |l| ==> l[k] == l[1..][k - 1];
    }
  }

  /** Give an item of weight x, no heavier than the rest, a length no shorter than the rest. */
  lemma Lengthen(x: nat, lx: nat, w: seq<nat>, l: seq<nat>, n: nat) returns (lx': nat, l': seq<nat>)
    requires |w| == |l| && lx <= n
    requires forall k :: 0 <= k < |w| ==> x <= w[k] && l[k] <= n
    ensures |l'| == |l| && lx <= lx' <= n && forall k :: 0 <= k < |l'| ==> l'[k] <= lx'
    ensures lx' == lx || lx' in l
    ensures Pow2(n - lx') + KraftSum(l', n) == Pow2(n - lx) + KraftSum(l, n)
    ensures x * lx' + Cost(w, l') <= x * lx + Cost(w, l)
  {
    lx', l' := lx, l;
    if |l| > 0 {
      var z := Longest(l);
      if l[z] > lx {
        lx', l' := l[z], l[z := lx];
        CostUpdate(w, l, z, lx);
        KraftUpdate(l, z, lx, n);
        SwapHelps(x, w[z], lx, l[z]);
      }
    }
  }

  /** Kraft sums of lengths up to m are whole multiples of the share of a length-m code. */
  lemma {:induction false} KraftScale(l: seq<nat>, m: nat, n: nat)
    requires m <= n && forall k :: 0 <= k < |l| ==> l[k] <= m
    ensures KraftSum(l, n) == KraftSum(l, m) * Pow2(n - m)
  {
    if l != [] {
      KraftScale(l[1..], m, n);
      Pow2Add(m - l[0], n - m);
      MulAdd(Pow2(m - l[0]), KraftSum(l[1..], m), Pow2(n - m));
    }
  }

  /** If the longest length is at least ly and everything else is at most ly, the longest can be
      shortened to ly; the two then merge into one code of length ly - 1. */
  lemma Pair(lx: nat, ly: nat, l: seq<nat>, n: nat)
    requires ly <= lx <= n && forall k :: 0 <= k < |l| ==> l[k] <= ly
    requires Pow2(n - lx) + Pow2(n - ly) + KraftSum(l, n) <= Pow2(n)
    ensures ly >= 1 && Pow2(n - (ly - 1)) + KraftSum(l, n) <= Pow2(n)
  {
    var u := Pow2(n - ly);
    KraftScale(l, ly, n);
    Pow2Add(ly, n - ly);
    var q := KraftSum(l, ly);
    MulAdd(1, q, u);
    MulLess(1 + q, Pow2(ly), u);
    MulAdd(1 + q, 1, u);
  }

  /** One greedy merge: from lengths for x, y and the rest, with x and y lightest, get lengths for
      x + y and the rest that save at least x + y. */
  lemma Exchange(x: nat, y: nat, lx: nat, ly: nat, w: seq<nat>, l: seq<nat>, n: nat)
    returns (lz: nat, l': seq<nat>)
    requires x <= y && |w| == |l| && lx <= n && ly <= n
    requires forall k :: 0 <= k < |w| ==> y <= w[k] && l[k] <= n
    requires Pow2(n - lx) + Pow2(n - ly) + KraftSum(l, n) <= Pow2(n)
    ensures |l'| == |l| && lz <= n && forall k :: 0 <= k < |l'| ==> l'[k] <= n
    ensures Pow2(n - lz) + KraftSum(l', n) <= Pow2(n)
    ensures (x + y) * lz + Cost(w, l') + x + y <= x * lx + y * ly + Cost(w, l)
  {
    hide Pow2, KraftSum, Cost;
    var a, b := if lx >= ly then lx else ly, if lx >= ly then ly else lx;
    SwapHelps(x, y, b, a);
    var a1, l1 := Lengthen(x, a, w, l, n);
    assert forall k :: 0 <= k < |l1| ==> l1[k] <= a1;
    var b1, l2 := Lengthen(y, b, w, l1, n);
    assert b1 <= a1;
    Pair(a1, b1, l2, n);
    lz, l' := b1 - 1, l2;
    Saved(x, y, a1, b1);
  }

  lemma Saved(x: nat, y: nat, a: nat, b: nat)
    requires 1 <= b <= a
    ensures (x + y) * (b - 1) + x + y <= x * a + y * b
  {
    assert x * b + x * (a - b) == x * a;
    assert x * (a - b) >= 0;
    assert (x + y) * (b - 1) + x + y == x * b + y * b;
  }

  // ---------------------------------------------------------------------------------------------
  // Running the argument over the whole construction.
  // ---------------------------------------------------------------------------------------------

  /** Weights of the merges still to come. */
  function ToCome(f: seq<nat>, t: Forest): nat
    requires Shape(f, t)
  {
    Sum(Grow(f, t).weight[|t.weight|..])
  }

  lemma {:induction false} GrowExtends(f: seq<nat>, t: Forest)
    requires Shape(f, t)
    ensures t.weight <= Grow(f, t).weight
    ensures t.parent <= Grow(f, t).parent
    ensures t.leafParent <= Grow(f, t).leafParent
    decreases |f| - |t.weight|
  {
    if |t.weight| < |f| - 1 { GrowExtends(f, Merge(f, t)); }
  }

  lemma ToComeStep(f: seq<nat>, t: Forest)
    requires Shape(f, t) && |t.weight| < |f| - 1
    ensures ToCome(f, t) == Merge(f, t).weight[|t.weight|] + ToCome(f, Merge(f, t))
  {
    var r, e := Merge(f, t), |t.weight|;
    GrowExtends(f, r);
    var g := Grow(f, r).weight;
    assert g[e] == r.weight[e];
    assert g[e..][1..] == g[e + 1..];
  }

  /** Lengths given to the roots, leaves first, that fit in the code space. */
  predicate RootLengths(f: seq<nat>, t: Forest, l: seq<nat>, m: seq<nat>, n: nat)
    requires Shape(f, t)
  {
    |l| == |f| - |t.leafParent| && |m| == |t.weight| - |t.parent| && Feasible(l + m, n)
  }

  function RootCost(f: seq<nat>, t: Forest, l: seq<nat>, m: seq<nat>): nat
    requires Shape(f, t) && |l| == |f| - |t.leafParent| && |m| == |t.weight| - |t.parent|
  {
    Cost(f[|t.leafParent|..], l) + Cost(t.weight[|t.parent|..], m)
  }

  /** Splitting the first k (at most two) entries off a cost and a Kraft sum. */
  function Head(w: seq<nat>, l: seq<nat>, k: nat): nat
    requires k <= |w| && k <= |l| && k <= 2
  {
    (if k >= 1 then w[0] * l[0] else 0) + (if k == 2 then w[1] * l[1] else 0)
  }

  function HeadKraft(l: seq<nat>, k: nat, n: nat): nat
    requires k <= |l| && k <= 2 && forall j :: 0 <= j < |l| ==> l[j] <= n
  {
    (if k >= 1 then Pow2(n - l[0]) else 0) + (if k == 2 then Pow2(n - l[1]) else 0)
  }

  lemma HeadSplit(w: seq<nat>, l: seq<nat>, k: nat, n: nat)
    requires k <= |w| == |l| && k <= 2 && forall j :: 0 <= j < |l| ==> l[j] <= n
    ensures Cost(w, l) == Head(w, l, k) + Cost(w[k..], l[k..])
    ensures KraftSum(l, n) == HeadKraft(l, k, n) + KraftSum(l[k..], n)
  {
    if k == 0 { assert w[0..] == w && l[0..] == l; }
    if k == 2 { assert w[1..][1..] == w[2..] && l[1..][1..] == l[2..]; }
  }

  /** The two merged roots and their lengths. */
  lemma TakeTwo(f: seq<nat>, t: Forest, l: seq<nat>, m: seq<nat>, n: nat)
    returns (x: nat, y: nat, lx: nat, ly: nat)
    requires Ascending(f) && Ascending(t.weight) && Shape(f, t) && |t.weight| < |f| - 1
    requires RootLengths(f, t, l, m, n)
    ensures var r := Merge(f, t);
      var i, b := |r.leafParent| - |t.leafParent|, |r.parent| - |t.parent|;
      && i <= |l| && b <= |m| && i <= 2 && b <= 2
      && (forall j :: 0 <= j < |l| ==> l[j] <= n) && (forall j :: 0 <= j < |m| ==> m[j] <= n)
      && x <= y && lx <= n && ly <= n
      && r.weight == t.weight + [x + y]
      && (forall k :: |r.leafParent| <= k < |f| ==> y <= f[k])
      && (forall k :: |r.parent| <= k < |t.weight| ==> y <= t.weight[k])
      && x * lx + y * ly == Head(f[|t.leafParent|..], l, i) + Head(t.weight[|t.parent|..], m, b)
      && Pow2(n - lx) + Pow2(n - ly) == HeadKraft(l, i, n) + HeadKraft(m, b, n)
  {
    hide KraftSum, Cost, Pow2;
    var i, b := |t.leafParent|, |t.parent|;
    assert forall j :: 0 <= j < |l| ==> (l + m)[j] == l[j];
    assert forall j :: 0 <= j < |m| ==> (l + m)[|l| + j] == m[j];
    if TwoLeaves(f, t) {
      x, y, lx, ly := f[i], f[i + 1], l[0], l[1];
    } else if TwoInternals(f, t) {
      x, y, lx, ly := t.weight[b], t.weight[b + 1], m[0], m[1];
    } else if f[i] <= t.weight[b] {
      x, y, lx, ly := f[i], t.weight[b], l[0], m[0];
    } else {
      x, y, lx, ly := t.weight[b], f[i], m[0], l[0];
    }
  }

  /** Lengths for the roots before a merge give lengths for the roots after it that cost less by
      the weight of the merge. */
  lemma MergeLengths(f: seq<nat>, t: Forest, l: seq<nat>, m: seq<nat>, n: nat)
    returns (l': seq<nat>, m': seq<nat>)
    requires Ascending(f) && Ascending(t.weight) && Shape(f, t) && |t.weight| < |f| - 1
    requires RootLengths(f, t, l, m, n)
    ensures RootLengths(f, Merge(f, t), l', m', n)
    ensures RootCost(f, Merge(f, t), l', m') + Merge(f, t).weight[|t.weight|] <= RootCost(f, t, l, m)
  {
    hide Merge, Pow2, KraftSum, Cost, Head, HeadKraft;
    var r := Merge(f, t);
    var x, y, lx, ly := TakeTwo(f, t, l, m, n);
    var i, b := |r.leafParent| - |t.leafParent|, |r.parent| - |t.parent|;
    var wl, wm := f[|t.leafParent|..], t.weight[|t.parent|..];
    KraftConcat(l, m, n);
    HeadSplit(wl, l, i, n);
    HeadSplit(wm, m, b, n);
    assert wl[i..] == f[|r.leafParent|..];
    assert wm[b..] == t.weight[|r.parent|..];
    KraftConcat(l[i..], m[b..], n);
    CostConcat(wl[i..], wm[b..], l[i..], m[b..]);
    var lz, ls := Exchange(x, y, lx, ly, wl[i..] + wm[b..], l[i..] + m[b..], n);
    l', m' := ls[..|l| - i], ls[|l| - i..] + [lz];
    assert ls == l' + ls[|l| - i..];
    CostConcat(wl[i..], wm[b..], l', ls[|l| - i..]);
    assert r.weight[|r.parent|..] == wm[b..] + [x + y];
    CostConcat(wm[b..], [x + y], ls[|l| - i..], [lz]);
    assert Cost([x + y], [lz]) == (x + y) * lz by { CostOne(x + y, lz); }
    assert l' + m' == ls + [lz];
    KraftConcat(ls, [lz], n);
    KraftOne(lz, n);
  }

  lemma CostOne(w: nat, l: nat)
    ensures Cost([w], [l]) == w * l
  {
    assert Cost([w][1..], [l][1..]) == 0;
  }

  lemma KraftOne(l: nat, n: nat)
    requires l <= n
    ensures KraftSum([l], n) == Pow2(n - l)
  {
    assert KraftSum([l][1..], n) == 0;
  }

  lemma {:induction false} LowerBound(f: seq<nat>, t: Forest, k: nat, l: seq<nat>, m: seq<nat>, n: nat)
    requires Ascending(f) && Inv(f, t) && Frontier(f, t, k) && RootLengths(f, t, l, m, n)
    ensures ToCome(f, t) <= RootCost(f, t, l, m)
    decreases |f| - |t.weight|
  {
    hide RootCost, RootLengths, Merge;
    if |t.weight| < |f| - 1 {
      var l', m' := MergeLengths(f, t, l, m, n);
      var k' := MergeFrontier(f, t, k);
      MergeInv(f, t, k);
      LowerBound(f, Merge(f, t), k', l', m', n);
      ToComeStep(f, t);
    }
  }

  // ---------------------------------------------------------------------------------------------
  // The tree's own depths cost exactly the sum of the merge weights.
  // ---------------------------------------------------------------------------------------------

  /** The depths of the roots of t in the finished tree g cost what is still to come. */
  lemma {:induction false} DepthCost(f: seq<nat>, t: Forest, g: Forest)
    requires Shape(f, t) && g == Grow(f, t) && Rising(g.parent) && |g.leafParent| == |f|
    requires |g.parent| == |g.weight| - 1
    ensures var i, b, e := |t.leafParent|, |t.parent|, |t.weight|;
      RootCost(f, t, LeafDepths(g)[i..], InternalDepths(g.parent, |g.weight|)[b..e]) == ToCome(f, t)
    decreases |f| - |t.weight|
  {
    var i, b, e := |t.leafParent|, |t.parent|, |t.weight|;
    var ld, id := LeafDepths(g), InternalDepths(g.parent, |g.weight|);
    if e == |f| - 1 {
      assert b == e - 1 && i == |f|;
      assert id[b..e] == [0] && t.weight[b..] == [t.weight[b]];
      CostOne(t.weight[b], 0);
    } else {
      var r := Merge(f, t);
      DepthCost(f, r, g);
      ToComeStep(f, t);
      DepthCostStep(f, t, g);
    }
  }

  lemma MergeCounts(f: seq<nat>, t: Forest)
    requires Shape(f, t) && |t.weight| < |f| - 1
    ensures var r := Merge(f, t);
      && r.weight == t.weight + [r.weight[|t.weight|]]
      && |t.leafParent| <= |r.leafParent| <= |t.leafParent| + 2
      && |t.parent| <= |r.parent| <= |t.parent| + 2 && |r.parent| <= |t.weight|
  {
  }

  /** The nodes merged into node e lie one level below it. */
  lemma MergedDepths(f: seq<nat>, t: Forest, g: Forest)
    requires Shape(f, t) && |t.weight| < |f| - 1 && g == Grow(f, t)
    requires Rising(g.parent) && |g.leafParent| == |f| && |g.parent| == |g.weight| - 1
    ensures forall k :: |t.leafParent| <= k < |Merge(f, t).leafParent| ==>
      LeafDepths(g)[k] == Depth(g.parent, |t.weight|) + 1
    ensures forall k :: |t.parent| <= k < |Merge(f, t).parent| ==>
      InternalDepths(g.parent, |g.weight|)[k] == Depth(g.parent, |t.weight|) + 1
  {
    hide Depth, TwoLeaves, TwoInternals, Grow;
    var r := Merge(f, t);
    assert g == Grow(f, r) by { GrowStep(f, t); }
    GrowExtends(f, r);
    MergeParts(f, t);
    forall k | |t.parent| <= k < |r.parent|
      ensures InternalDepths(g.parent, |g.weight|)[k] == Depth(g.parent, |t.weight|) + 1
    {
      assert g.parent[k] == r.parent[k] == |t.weight|;
      DepthOf(g.parent, k);
    }
    forall k | |t.leafParent| <= k < |r.leafParent|
      ensures LeafDepths(g)[k] == Depth(g.parent, |t.weight|) + 1
    {
      assert g.leafParent[k] == r.leafParent[k] == |t.weight|;
    }
  }

  lemma SliceFront(w: seq<nat>, l: seq<nat>, i: nat, k: nat)
    requires |w| <= |l| && i + k <= |w| && k <= 2
    ensures Cost(w[i..], l[i..|w|]) == Head(w[i..], l[i..|w|], k) + Cost(w[i + k..], l[i + k..|w|])
  {
    hide Cost, Head;
    CostFront(w[i..], l[i..|w|], k);
    assert w[i..][k..] == w[i + k..] && l[i..|w|][k..] == l[i + k..|w|];
  }

  lemma SliceBack(w: seq<nat>, z: nat, l: seq<nat>, i: nat)
    requires |w| < |l| && i <= |w|
    ensures Cost((w + [z])[i..], l[i..|w| + 1]) == Cost(w[i..], l[i..|w|]) + z * l[|w|]
  {
    hide Cost;
    assert (w + [z])[i..] == w[i..] + [z] && l[i..|w| + 1] == l[i..|w|] + [l[|w|]];
    CostConcat(w[i..], [z], l[i..|w|], [l[|w|]]);
    CostOne(z, l[|w|]);
  }

  lemma DepthCostStep(f: seq<nat>, t: Forest, g: Forest)
    requires Shape(f, t) && |t.weight| < |f| - 1 && g == Grow(f, t)
    requires Rising(g.parent) && |g.leafParent| == |f| && |g.parent| == |g.weight| - 1
    ensures var i, b, e := |t.leafParent|, |t.parent|, |t.weight|;
      var r := Merge(f, t);
      var i', b' := |r.leafParent|, |r.parent|;
      var ld, id := LeafDepths(g), InternalDepths(g.parent, |g.weight|);
      RootCost(f, t, ld[i..], id[b..e]) == RootCost(f, r, ld[i'..], id[b'..e + 1]) + r.weight[e]
  {
    hide Cost, Depth, Pow2, KraftSum, Grow, ToCome, Head, TwoLeaves, TwoInternals, Merge, Rising, HeadSum;
    var i, b, e := |t.leafParent|, |t.parent|, |t.weight|;
    var r := Merge(f, t);
    var i', b' := |r.leafParent|, |r.parent|;
    var ld, id := LeafDepths(g), InternalDepths(g.parent, |g.weight|);
    MergeCounts(f, t);
    MergedDepths(f, t, g);
    MergedHeads(f, t, ld, id, id[e]);
    assert ld[i..|f|] == ld[i..] && ld[i'..|f|] == ld[i'..];
    SliceFront(f, ld, i, i' - i);
    SliceFront(t.weight, id, b, b' - b);
    SliceBack(t.weight, r.weight[e], id, b');
    assert r.weight == t.weight + [r.weight[e]];
  }

  function HeadSum(w: seq<nat>, k: nat): nat
    requires k <= |w| && k <= 2
  {
    (if k >= 1 then w[0] else 0) + (if k == 2 then w[1] else 0)
  }

  lemma HeadSame(w: seq<nat>, l: seq<nat>, k: nat, d: nat)
    requires k <= |w| && k <= |l| && k <= 2 && forall j :: 0 <= j < k ==> l[j] == d
    ensures Head(w, l, k) == HeadSum(w, k) * d
  {
    if k == 2 { MulAdd(w[0], w[1], d); }
  }

  lemma MergedHeads(f: seq<nat>, t: Forest, ld: seq<nat>, id: seq<nat>, d: nat)
    requires Shape(f, t) && |t.weight| < |f| - 1
    requires |ld| == |f| && |id| >= |t.weight|
    requires forall k :: |t.leafParent| <= k < |Merge(f, t).leafParent| ==> ld[k] == d + 1
    requires forall k :: |t.parent| <= k < |Merge(f, t).parent| ==> id[k] == d + 1
    ensures var i, b, e := |t.leafParent|, |t.parent|, |t.weight|;
      var r := Merge(f, t);
      Head(f[i..], ld[i..], |r.leafParent| - i) + Head(t.weight[b..], id[b..e], |r.parent| - b)
        == r.weight[e] * d + r.weight[e]
  {
    hide Head;
    var i, b, e := |t.leafParent|, |t.parent|, |t.weight|;
    var r := Merge(f, t);
    var x, y := HeadSum(f[i..], |r.leafParent| - i), HeadSum(t.weight[b..], |r.parent| - b);
    HeadSame(f[i..], ld[i..], |r.leafParent| - i, d + 1);
    HeadSame(t.weight[b..], id[b..e], |r.parent| - b, d + 1);
    assert r.weight[e] == x + y;
    MulAdd(x, y, d + 1);
    MulAdd(d, 1, x + y);
  }

  lemma GrowStep(f: seq<nat>, t: Forest)
    requires Shape(f, t) && |t.weight| < |f| - 1
    ensures Grow(f, t) == Grow(f, Merge(f, t))
  {
  }

  lemma DepthOf(p: seq<nat>, k: nat)
    requires Rising(p) && k < |p|
    ensures Depth(p, k) == Depth(p, p[k]) + 1
  {
  }

  lemma CostFront(w: seq<nat>, l: seq<nat>, k: nat)
    requires k <= |w| == |l| && k <= 2
    ensures Cost(w, l) == Head(w, l, k) + Cost(w[k..], l[k..])
  {
    if k == 0 { assert w[0..] == w && l[0..] == l; }
    if k == 2 { assert w[1..][1..] == w[2..] && l[1..][1..] == l[2..]; }
  }

  /** In the finished tree every leaf has a parent and the last node is the root. */
  lemma Finished(f: seq<nat>)
    requires |f| >= 2 && Ascending(f)
    ensures Inv(f, Tree(f)) && Rising(Tree(f).parent)
    ensures |Tree(f).leafParent| == |f| && |Tree(f).parent| == |f| - 2
  {
    hide CountTo;
    TreeInv(f);
    var t := Tree(f);
    var b := |t.parent|;
    if b > 0 { assert b - 1 < t.parent[b - 1] < |f| - 1; }
  }

  /** The lengths that the tree gives to the leaves, in order of frequency. */
  function TreeLengths(f: seq<nat>): (l: seq<nat>)
    requires |f| >= 2 && Ascending(f)
    ensures |l| == |f|
  {
    Finished(f);
    LeafDepths(Tree(f))
  }

  /** Minimum cost among all lengths that fit in the code space. */
  lemma TreeOptimal(f: seq<nat>, l: seq<nat>, n: nat)
    requires |f| >= 2 && Ascending(f) && |l| == |f| && Feasible(l, n)
    ensures Cost(f, TreeLengths(f)) <= Cost(f, l)
  {
    hide Cost, KraftSum, Pow2, Grow, Depth;
    Finished(f);
    var g := Tree(f);
    DepthCost(f, EMPTY, g);
    assert l + [] == l;
    LowerBound(f, EMPTY, 0, l, [], n);
    var ld, id := LeafDepths(g), InternalDepths(g.parent, |g.weight|);
    assert f[0..] == f && ld[0..] == ld && id[0..0] == [] && EMPTY.weight[0..] == [];
  }

  // ---------------------------------------------------------------------------------------------
  // Kraft's inequality: every prefix code has lengths that fit.
  // ---------------------------------------------------------------------------------------------

  predicate Comparable(v: seq<bool>, w: seq<bool>) {
    v <= w || w <= v
  }

  /** No word is a prefix of another. */
  predicate PrefixCode(c: seq<seq<bool>>) {
    forall j, k :: 0 <= j < k < |c| ==> !Comparable(c[j], c[k])
  }

  function Lengths(c: seq<seq<bool>>): (l: seq<nat>)
    ensures |l| == |c| && forall k :: 0 <= k < |c| ==> l[k] == |c[k]|
  {
    seq(|c|, k requires 0 <= k < |c| => |c[k]|)
  }

  /** What follows the first bit b in the words that start with it. */
  function Tails(c: seq<seq<bool>>, b: bool): seq<seq<bool>> {
    if c == [] then []
    else (if c[0] != [] && c[0][0] == b then [c[0][1..]] else []) + Tails(c[1..], b)
  }

  lemma {:induction false} TailsMember(c: seq<seq<bool>>, b: bool, v: seq<bool>)
    requires v in Tails(c, b)
    ensures [b] + v in c
  {
    if c[0] != [] && c[0][0] == b && v == c[0][1..] {
      assert c[0] == [b] + v;
    } else {
      TailsMember(c[1..], b, v);
    }
  }

  lemma {:induction false} TailsPrefixCode(c: seq<seq<bool>>, b: bool)
    requires PrefixCode(c)
    ensures PrefixCode(Tails(c, b))
  {
    if c != [] {
      assert PrefixCode(c[1..]) by {
        assert forall k :: 0 <= k < |c| - 1 ==> c[1..][k] == c[k + 1];
      }
      TailsPrefixCode(c[1..], b);
      if c[0] != [] && c[0][0] == b {
        var rest := Tails(c[1..], b);
        forall k | 0 <= k < |rest|
          ensures !Comparable(c[0][1..], rest[k])
        {
          TailsMember(c[1..], b, rest[k]);
          var j :| 0 <= j < |c| - 1 && c[1..][j] == [b] + rest[k];
          assert !Comparable(c[0], c[j + 1]);
          assert c[0] == [b] + c[0][1..];
        }
      }
    }
  }

  predicate Within(l: seq<nat>, n: nat) {
    forall k :: 0 <= k < |l| ==> l[k] <= n
  }

  lemma {:induction false} TailsWithin(c: seq<seq<bool>>, b: bool, n: nat)
    requires n >= 1 && Within(Lengths(c), n)
    ensures Within(Lengths(Tails(c, b)), n - 1)
  {
    if c != [] {
      assert Lengths(c)[1..] == Lengths(c[1..]);
      TailsWithin(c[1..], b, n);
      assert c[0] != [] ==> |c[0][1..]| == Lengths(c)[0] - 1;
    }
  }

  lemma TailsStep(c: seq<seq<bool>>, b: bool, n: nat)
    requires n >= 1 && Within(Lengths(c), n) && c != [] && c[0] != []
    requires Within(Lengths(Tails(c, b)), n - 1) && Within(Lengths(Tails(c[1..], b)), n - 1)
    ensures Lengths(c)[0] == |c[0]|
    ensures KraftSum(Lengths(Tails(c, b)), n - 1)
      == (if c[0][0] == b then Pow2(n - |c[0]|) else 0) + KraftSum(Lengths(Tails(c[1..], b)), n - 1)
  {
    hide Pow2, KraftSum;
    if c[0][0] == b {
      assert Tails(c, b) == [c[0][1..]] + Tails(c[1..], b);
      assert Lengths(Tails(c, b)) == [|c[0]| - 1] + Lengths(Tails(c[1..], b));
      KraftCons(|c[0]| - 1, Lengths(Tails(c[1..], b)), n - 1);
    } else {
      assert Tails(c, b) == Tails(c[1..], b);
    }
  }

  /** The words starting with 0 and those starting with 1 each get half of the code space. */
  lemma {:induction false} TailsKraft(c: seq<seq<bool>>, n: nat)
    requires n >= 1 && Within(Lengths(c), n) && forall k :: 0 <= k < |c| ==> c[k] != []
    ensures Within(Lengths(Tails(c, false)), n - 1) && Within(Lengths(Tails(c, true)), n - 1)
    ensures KraftSum(Lengths(c), n)
      == KraftSum(Lengths(Tails(c, false)), n - 1) + KraftSum(Lengths(Tails(c, true)), n - 1)
  {
    hide Pow2, KraftSum, Tails;
    TailsWithin(c, false, n);
    TailsWithin(c, true, n);
    if c == [] {
      KraftNone(n);
      KraftNone(n - 1);
      TailsNone();
    } else {
      assert Lengths(c) == [|c[0]|] + Lengths(c[1..]);
      assert Within(Lengths(c[1..]), n) by { assert Lengths(c)[1..] == Lengths(c[1..]); }
      TailsKraft(c[1..], n);
      TailsStep(c, false, n);
      TailsStep(c, true, n);
      KraftCons(|c[0]|, Lengths(c[1..]), n);
    }
  }

  lemma TailsNone()
    ensures forall b :: Lengths(Tails([], b)) == []
  {
  }

  lemma KraftNone(n: nat)
    ensures KraftSum([], n) == 0
  {
  }

  lemma KraftCons(x: nat, l: seq<nat>, n: nat)
    requires x <= n && forall k :: 0 <= k < |l| ==> l[k] <= n
    ensures KraftSum([x] + l, n) == Pow2(n - x) + KraftSum(l, n)
  {
  }

  lemma {:induction false} PrefixCodeFits(c: seq<seq<bool>>, n: nat)
    requires PrefixCode(c) && Within(Lengths(c), n)
    ensures Feasible(Lengths(c), n)
    decreases n
  {
    if exists k :: 0 <= k < |c| && c[k] == [] {
      var k :| 0 <= k < |c| && c[k] == [];
      assert Comparable(c[0], c[k]) && Comparable(c[k], c[|c| - 1]);
      assert Lengths(c) == [0];
      KraftOne(0, n);
    } else if c != [] {
      assert c[0] != [] && Lengths(c)[0] == |c[0]| <= n;
      TailsKraft(c, n);
      TailsPrefixCode(c, false);
      TailsPrefixCode(c, true);
      PrefixCodeFits(Tails(c, false), n - 1);
      PrefixCodeFits(Tails(c, true), n - 1);
    }
  }

  lemma {:induction false} LongestWord(c: seq<seq<bool>>) returns (n: nat)
    ensures Within(Lengths(c), n)
  {
    n := 0;
    if c != [] {
      var m := LongestWord(c[1..]);
      assert Lengths(c) == [|c[0]|] + Lengths(c[1..]);
      n := if m > |c[0]| then m else |c[0]|;
    }
  }

  /** Minimum cost among all prefix codes for these frequencies. */
  lemma TreeBeatsPrefixCodes(f: seq<nat>, c: seq<seq<bool>>)
    requires |f| >= 2 && Ascending(f) && |c| == |f| && PrefixCode(c)
    ensures Cost(f, TreeLengths(f)) <= Cost(f, Lengths(c))
  {
    var n := LongestWord(c);
    PrefixCodeFits(c, n);
    TreeOptimal(f, Lengths(c), n);
  }
}
