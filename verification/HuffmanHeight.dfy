/** Among all lengths of minimum cost, those of the two-queue tree have the least maximum: preferring
    leaves among equal weights, and older internal nodes, keeps the tree low. */
module HuffmanHeight {
  import opened Words
  import opened Canon
  import opened HuffmanTree
  import opened HuffmanOptimal

  function Max(a: nat, b: nat): nat {
    if a >= b then a else b
  }

  /** Lighter, or as heavy and not higher. */
  predicate LexLe(x: nat, hx: nat, y: nat, hy: nat) {
    x < y || (x == y && hx <= hy)
  }

  /** Height of the node that the next merge creates, from the heights of the internal nodes so far. */
  function NextHeight(f: seq<nat>, t: Forest, h: seq<nat>): nat
    requires Shape(f, t) && |t.weight| < |f| - 1 && |h| == |t.weight|
  {
    var b := |t.parent|;
    if TwoLeaves(f, t) then 1
    else if TwoInternals(f, t) then 1 + Max(h[b], h[b + 1])
    else 1 + h[b]
  }

  predicate LexSorted(w: seq<nat>, h: seq<nat>) {
    |w| == |h| && forall j, k :: 0 <= j <= k < |w| ==> LexLe(w[j], h[j], w[k], h[k])
  }

  /** No root is below (m, hm), and no node made so far is above (2m, hm + 1). */
  predicate LexFrontier(f: seq<nat>, t: Forest, h: seq<nat>, m: nat, hm: nat)
    requires Shape(f, t) && |h| == |t.weight|
  {
    && (forall k :: |t.leafParent| <= k < |f| ==> LexLe(m, hm, f[k], 0))
    && (forall k :: |t.parent| <= k < |t.weight| ==> LexLe(m, hm, t.weight[k], h[k]))
    && (forall k :: 0 <= k < |t.weight| ==> LexLe(t.weight[k], h[k], 2 * m, hm + 1))
  }

  /** The two merged roots with their heights and lengths; the other roots are not below them. */
  lemma TakeTwoHigh(f: seq<nat>, t: Forest, h: seq<nat>, l: seq<nat>, m: seq<nat>, n: nat, H: nat, m0: nat, hm: nat)
    returns (x: nat, y: nat, lx: nat, ly: nat, hx: nat, hy: nat)
    requires Ascending(f) && Shape(f, t) && |t.weight| < |f| - 1 && LexSorted(t.weight, h)
    requires |l| == |f| - |t.leafParent| && |m| == |t.weight| - |t.parent|
    ensures var r := Merge(f, t);
      var i, b := |r.leafParent| - |t.leafParent|, |r.parent| - |t.parent|;
      && i <= |l| && b <= |m| && i <= 2 && b <= 2 && |r.parent| <= |t.weight|
      && r.weight == t.weight + [x + y] && NextHeight(f, t, h) == 1 + Max(hx, hy)
      && LexLe(x, hx, y, hy)
      && (forall k :: |r.leafParent| <= k < |f| ==> LexLe(y, hy, f[k], 0))
      && (forall k :: |r.parent| <= k < |t.weight| ==> LexLe(y, hy, t.weight[k], h[k]))
      && x * lx + y * ly == Head(f[|t.leafParent|..], l, i) + Head(t.weight[|t.parent|..], m, b)
    ensures (forall j :: 0 <= j < |l| ==> l[j] <= n) && (forall j :: 0 <= j < |m| ==> m[j] <= n) ==>
      && lx <= n && ly <= n
      && Pow2(n - lx) + Pow2(n - ly)
        == HeadKraft(l, |Merge(f, t).leafParent| - |t.leafParent|, n) +
          HeadKraft(m, |Merge(f, t).parent| - |t.parent|, n)
    ensures Within(l, m, h[|t.parent|..], H) ==> lx + hx <= H && ly + hy <= H
    ensures LexFrontier(f, t, h, m0, hm) ==> LexLe(m0, hm, x, hx)
  {
    hide Pow2;
    var i, b := |t.leafParent|, |t.parent|;
    if TwoLeaves(f, t) {
      x, y, lx, ly, hx, hy := f[i], f[i + 1], l[0], l[1], 0, 0;
    } else if TwoInternals(f, t) {
      x, y, lx, ly, hx, hy := t.weight[b], t.weight[b + 1], m[0], m[1], h[b], h[b + 1];
      assert h[b..][0] == h[b] && h[b..][1] == h[b + 1];
    } else if f[i] <= t.weight[b] {
      x, y, lx, ly, hx, hy := f[i], t.weight[b], l[0], m[0], 0, h[b];
      assert h[b..][0] == h[b];
    } else {
      x, y, lx, ly, hx, hy := t.weight[b], f[i], m[0], l[0], h[b], 0;
      assert h[b..][0] == h[b];
    }
  }

  /** Every root's length and height together are at most H. */
  predicate Within(l: seq<nat>, m: seq<nat>, h: seq<nat>, H: nat) {
    && |m| == |h|
    && (forall k :: 0 <= k < |l| ==> l[k] <= H)
    && (forall k :: 0 <= k < |m| ==> m[k] + h[k] <= H)
  }

  /** A merge creates a node that is not below any before it, by weight and then by height. */
  lemma LexStep(f: seq<nat>, t: Forest, h: seq<nat>, m: nat, hm: nat) returns (m': nat, hm': nat)
    requires Ascending(f) && Shape(f, t) && |t.weight| < |f| - 1
    requires LexSorted(t.weight, h) && LexFrontier(f, t, h, m, hm)
    ensures LexSorted(Merge(f, t).weight, h + [NextHeight(f, t, h)])
    ensures LexFrontier(f, Merge(f, t), h + [NextHeight(f, t, h)], m', hm')
  {
    hide NextHeight, Merge, Pow2, Within;
    var z := seq(|f| - |t.leafParent|, _ => 0);
    var v := seq(|t.weight| - |t.parent|, _ => 0);
    var x, y, lx, ly, hx, hy := TakeTwoHigh(f, t, h, z, v, 0, 0, m, hm);
    m', hm' := y, hy;
  }

  // ---------------------------------------------------------------------------------------------
  // The exchange argument, with heights.
  // ---------------------------------------------------------------------------------------------

  /** A swap that makes the lighter item longer either costs less or keeps within H. */
  lemma SwapStrict(x: nat, hx: nat, y: nat, hy: nat, a: nat, b: nat, H: nat)
    requires LexLe(x, hx, y, hy) && a < b && b + hy <= H
    ensures x * b + y * a < x * a + y * b || (b + hx <= H && a + hy <= H)
    ensures x * b + y * a <= x * a + y * b
  {
    assert x * b + y * a == x * a + y * b - (y - x) * (b - a);
    if x < y { MulLess(0, y - x, b - a); }
  }

  /** Give an item no heavier than the rest a length no shorter than the rest. */
  lemma LengthenHigh(x: nat, hx: nat, lx: nat, w: seq<nat>, hs: seq<nat>, l: seq<nat>, n: nat, H: nat)
    returns (lx': nat, l': seq<nat>)
    requires |w| == |l| == |hs| && lx <= n
    requires forall k :: 0 <= k < |w| ==> LexLe(x, hx, w[k], hs[k]) && l[k] <= n
    ensures |l'| == |l| && lx <= lx' <= n && forall k :: 0 <= k < |l'| ==> l'[k] <= lx'
    ensures lx' == lx || lx' in l
    ensures Pow2(n - lx') + KraftSum(l', n) == Pow2(n - lx) + KraftSum(l, n)
    ensures x * lx' + Cost(w, l') <= x * lx + Cost(w, l)
    ensures lx + hx <= H && (forall k :: 0 <= k < |l| ==> l[k] + hs[k] <= H) ==>
      || x * lx' + Cost(w, l') < x * lx + Cost(w, l)
      || (lx' + hx <= H && forall k :: 0 <= k < |l'| ==> l'[k] + hs[k] <= H)
  {
    hide Cost, KraftSum, Pow2;
    lx', l' := lx, l;
    if |l| > 0 {
      var z := Longest(l);
      if l[z] > lx {
        lx', l' := l[z], l[z := lx];
        CostUpdate(w, l, z, lx);
        KraftUpdate(l, z, lx, n);
        SwapStrict(x, hx, w[z], hs[z], lx, l[z], l[z] + hs[z]);
      }
    }
  }

  /** One greedy merge that saves at least the merged weight, and more unless it keeps within H. */
  lemma ExchangeHigh(x: nat, y: nat, hx: nat, hy: nat, lx: nat, ly: nat, w: seq<nat>, hs: seq<nat>, l: seq<nat>,
                     n: nat, H: nat)
    returns (lz: nat, l': seq<nat>)
    requires LexLe(x, hx, y, hy) && |w| == |l| == |hs| && lx <= n && ly <= n
    requires forall k :: 0 <= k < |w| ==> LexLe(y, hy, w[k], hs[k]) && l[k] <= n
    requires Pow2(n - lx) + Pow2(n - ly) + KraftSum(l, n) <= Pow2(n)
    requires lx + hx <= H && ly + hy <= H && forall k :: 0 <= k < |l| ==> l[k] + hs[k] <= H
    ensures |l'| == |l| && lz <= n && forall k :: 0 <= k < |l'| ==> l'[k] <= n
    ensures Pow2(n - lz) + KraftSum(l', n) <= Pow2(n)
    ensures (x + y) * lz + Cost(w, l') + x + y <= x * lx + y * ly + Cost(w, l)
    ensures (x + y) * lz + Cost(w, l') + x + y < x * lx + y * ly + Cost(w, l)
      || (lz + 1 + Max(hx, hy) <= H && forall k :: 0 <= k < |l'| ==> l'[k] + hs[k] <= H)
  {
    hide Pow2, KraftSum, Cost;
    var a, b := Max(lx, ly), if lx >= ly then ly else lx;
    if lx < ly { SwapStrict(x, hx, y, hy, lx, ly, H); }
    var a1, l1 := LengthenHigh(x, hx, a, w, hs, l, n, H);
    assert forall k :: 0 <= k < |l1| ==> l1[k] <= a1;
    var b1, l2 := LengthenHigh(y, hy, b, w, hs, l1, n, H);
    assert b1 <= a1;
    Pair(a1, b1, l2, n);
    lz, l' := b1 - 1, l2;
    Saved(x, y, a1, b1);
  }

  // ---------------------------------------------------------------------------------------------
  // Over the whole construction.
  // ---------------------------------------------------------------------------------------------

  /** Heights of the rest: none for leaves, then those of the internal roots. */
  function RestHeights(n: nat, h: seq<nat>): (hs: seq<nat>)
    ensures |hs| == n + |h|
  {
    seq(n, _ => 0) + h
  }

  lemma RestWithin(l: seq<nat>, m: seq<nat>, h: seq<nat>, H: nat)
    requires |m| == |h|
    ensures Within(l, m, h, H) <==> forall k :: 0 <= k < |l + m| ==> (l + m)[k] + RestHeights(|l|, h)[k] <= H
  {
    var hs := RestHeights(|l|, h);
    assert forall k :: 0 <= k < |l| ==> (l + m)[k] == l[k] && hs[k] == 0;
    assert forall k :: 0 <= k < |m| ==> (l + m)[|l| + k] == m[k] && hs[|l| + k] == h[k];
  }

  /** Weights, lengths and heights of the roots that a merge leaves alone. */
  function RestWeights(f: seq<nat>, t: Forest): seq<nat>
    requires Shape(f, t) && |t.weight| < |f| - 1 && |Merge(f, t).parent| <= |t.weight|
  {
    f[|Merge(f, t).leafParent|..] + t.weight[|Merge(f, t).parent|..]
  }

  /** What the exchange starts from. */
  lemma BeforeMerge(f: seq<nat>, t: Forest, h: seq<nat>, l: seq<nat>, m: seq<nat>, n: nat, H: nat)
    returns (x: nat, y: nat, lx: nat, ly: nat, hx: nat, hy: nat, rl: seq<nat>, hb: seq<nat>, i: nat)
    requires Ascending(f) && Shape(f, t) && |t.weight| < |f| - 1 && LexSorted(t.weight, h)
    requires RootLengths(f, t, l, m, n) && Within(l, m, h[|t.parent|..], H)
    ensures var r := Merge(f, t);
      && |r.parent| <= |t.weight| && i == |f| - |r.leafParent| && hb == h[|r.parent|..]
      && |rl| == |RestWeights(f, t)| == |RestHeights(i, hb)|
      && r.weight == t.weight + [x + y] && NextHeight(f, t, h) == 1 + Max(hx, hy)
      && RootCost(f, t, l, m) == x * lx + y * ly + Cost(RestWeights(f, t), rl)
    ensures LexLe(x, hx, y, hy) && lx <= n && ly <= n && lx + hx <= H && ly + hy <= H
    ensures forall k :: 0 <= k < |rl| ==> LexLe(y, hy, RestWeights(f, t)[k], RestHeights(i, hb)[k]) && rl[k] <= n
    ensures Pow2(n - lx) + Pow2(n - ly) + KraftSum(rl, n) <= Pow2(n)
    ensures forall k :: 0 <= k < |rl| ==> rl[k] + RestHeights(i, hb)[k] <= H
  {
    hide Merge, Pow2, KraftSum, Cost, Head, HeadKraft, NextHeight, RestHeights, Within, LexSorted;
    SortedSize(t.weight, h);
    var r := Merge(f, t);
    RootParts(l, m, n);
    x, y, lx, ly, hx, hy := TakeTwoHigh(f, t, h, l, m, n, H, 0, 0);
    var c, b := |r.leafParent| - |t.leafParent|, |r.parent| - |t.parent|;
    var wl, wm := f[|t.leafParent|..], t.weight[|t.parent|..];
    hb, i, rl := h[|r.parent|..], |l| - c, l[c..] + m[b..];
    KraftConcat(l, m, n);
    HeadSplit(wl, l, c, n);
    HeadSplit(wm, m, b, n);
    assert wl[c..] == f[|r.leafParent|..];
    assert wm[b..] == t.weight[|r.parent|..];
    KraftConcat(l[c..], m[b..], n);
    CostConcat(wl[c..], wm[b..], l[c..], m[b..]);
    WithinRest(l, m, h[|t.parent|..], c, b, H);
    assert h[|t.parent|..][b..] == hb;
    RestWithin(l[c..], m[b..], hb, H);
    RestLex(y, hy, wl[c..], wm[b..], hb);
  }

  /** What the exchange gives, as lengths of the roots after the merge. */
  lemma AfterMerge(f: seq<nat>, t: Forest, h: seq<nat>, z: nat, lz: nat, ls: seq<nat>, hb: seq<nat>, i: nat, n: nat,
          H: nat)
    returns (l': seq<nat>, m': seq<nat>)
    requires Shape(f, t) && |t.weight| < |f| - 1 && |h| == |t.weight| && |Merge(f, t).parent| <= |t.weight|
    requires i == |f| - |Merge(f, t).leafParent| && hb == h[|Merge(f, t).parent|..] && |ls| == |RestWeights(f, t)|
    requires Merge(f, t).weight == t.weight + [z] && lz <= n && forall k :: 0 <= k < |ls| ==> ls[k] <= n
    requires Pow2(n - lz) + KraftSum(ls, n) <= Pow2(n)
    ensures RootLengths(f, Merge(f, t), l', m', n)
    ensures RootCost(f, Merge(f, t), l', m') == z * lz + Cost(RestWeights(f, t), ls)
    ensures lz + NextHeight(f, t, h) <= H && (forall k :: 0 <= k < |ls| ==> ls[k] + RestHeights(i, hb)[k] <= H) ==>
      Within(l', m', (h + [NextHeight(f, t, h)])[|Merge(f, t).parent|..], H)
  {
    hide Merge, Pow2, KraftSum, Cost, NextHeight, RestHeights, Within;
    var r := Merge(f, t);
    var wl, wm := f[|r.leafParent|..], t.weight[|r.parent|..];
    l', m' := ls[..i], ls[i..] + [lz];
    assert ls == l' + ls[i..];
    CostConcat(wl, wm, l', ls[i..]);
    assert r.weight[|r.parent|..] == wm + [z];
    CostConcat(wm, [z], ls[i..], [lz]);
    CostOne(z, lz);
    assert l' + m' == ls + [lz];
    KraftConcat(ls, [lz], n);
    KraftOne(lz, n);
    assert (h + [NextHeight(f, t, h)])[|r.parent|..] == hb + [NextHeight(f, t, h)];
    RestWithin(l', ls[i..], hb, H);
    if Within(l', ls[i..], hb, H) && lz + NextHeight(f, t, h) <= H {
      WithinOne(l', ls[i..], hb, lz, NextHeight(f, t, h), H);
    }
  }

  /** The lengths after a merge save its weight, and more unless they keep within H. */
  lemma MergeLengthsHigh(f: seq<nat>, t: Forest, h: seq<nat>, l: seq<nat>, m: seq<nat>, n: nat, H: nat)
    returns (l': seq<nat>, m': seq<nat>)
    requires Ascending(f) && Shape(f, t) && |t.weight| < |f| - 1 && LexSorted(t.weight, h)
    requires RootLengths(f, t, l, m, n) && Within(l, m, h[|t.parent|..], H)
    ensures RootLengths(f, Merge(f, t), l', m', n)
    ensures var r := Merge(f, t);
      && RootCost(f, r, l', m') + r.weight[|t.weight|] <= RootCost(f, t, l, m)
      && (RootCost(f, r, l', m') + r.weight[|t.weight|] < RootCost(f, t, l, m)
          || Within(l', m', (h + [NextHeight(f, t, h)])[|r.parent|..], H))
  {
    hide Merge, Pow2, KraftSum, Cost, NextHeight, RestHeights, RestWeights, Within, RootCost, RootLengths, LexLe,
         LexSorted;
    SortedSize(t.weight, h);
    var x, y, lx, ly, hx, hy, rl, hb, i := BeforeMerge(f, t, h, l, m, n, H);
    var lz, ls := ExchangeHigh(x, y, hx, hy, lx, ly, RestWeights(f, t), RestHeights(i, hb), rl, n, H);
    l', m' := AfterMerge(f, t, h, x + y, lz, ls, hb, i, n, H);
  }

  lemma RootParts(l: seq<nat>, m: seq<nat>, n: nat)
    requires Feasible(l + m, n)
    ensures (forall j :: 0 <= j < |l| ==> l[j] <= n) && (forall j :: 0 <= j < |m| ==> m[j] <= n)
  {
    assert forall j :: 0 <= j < |l| ==> (l + m)[j] == l[j];
    assert forall j :: 0 <= j < |m| ==> (l + m)[|l| + j] == m[j];
  }

  lemma WithinRest(l: seq<nat>, m: seq<nat>, h: seq<nat>, i: nat, b: nat, H: nat)
    requires Within(l, m, h, H) && i <= |l| && b <= |m|
    ensures Within(l[i..], m[b..], h[b..], H)
  {
  }

  lemma WithinOne(l: seq<nat>, m: seq<nat>, h: seq<nat>, lz: nat, hz: nat, H: nat)
    requires Within(l, m, h, H) && lz + hz <= H
    ensures Within(l, m + [lz], h + [hz], H)
  {
  }

  lemma RestLex(y: nat, hy: nat, wl: seq<nat>, wm: seq<nat>, hb: seq<nat>)
    requires |wm| == |hb|
    requires forall k :: 0 <= k < |wl| ==> LexLe(y, hy, wl[k], 0)
    requires forall k :: 0 <= k < |wm| ==> LexLe(y, hy, wm[k], hb[k])
    ensures forall k :: 0 <= k < |wl + wm| ==> LexLe(y, hy, (wl + wm)[k], RestHeights(|wl|, hb)[k])
  {
  }

  /** Height of the root, once everything is merged. */
  function FinalHeight(f: seq<nat>, t: Forest, h: seq<nat>): nat
    requires Shape(f, t) && |h| == |t.weight| && |f| >= 2
    decreases |f| - |t.weight|
  {
    if |t.weight| == |f| - 1 then h[|h| - 1] else FinalHeight(f, Merge(f, t), h + [NextHeight(f, t, h)])
  }

  /** Root lengths of least cost reach at least as deep as the finished tree is high. */
  lemma {:induction false} LowerHeight(f: seq<nat>, t: Forest, h: seq<nat>, k: nat, m0: nat, hm: nat,
                                       l: seq<nat>, m: seq<nat>, n: nat, H: nat)
    requires |f| >= 2 && Ascending(f) && Inv(f, t) && Frontier(f, t, k) && RootLengths(f, t, l, m, n)
    requires LexSorted(t.weight, h) && LexFrontier(f, t, h, m0, hm) && Within(l, m, h[|t.parent|..], H)
    requires RootCost(f, t, l, m) <= ToCome(f, t)
    ensures FinalHeight(f, t, h) <= H
    decreases |f| - |t.weight|
  {
    hide RootCost, RootLengths, Merge, NextHeight, Within, LexFrontier, LexSorted;
    SortedSize(t.weight, h);
    if |t.weight| == |f| - 1 {
      LastRoot(f, t, h, l, m, n, H);
    } else {
      var l', m' := MergeLengthsHigh(f, t, h, l, m, n, H);
      var k' := MergeFrontier(f, t, k);
      MergeInv(f, t, k);
      LowerBound(f, Merge(f, t), k', l', m', n);
      ToComeStep(f, t);
      var m1, hm1 := LexStep(f, t, h, m0, hm);
      LowerHeight(f, Merge(f, t), h + [NextHeight(f, t, h)], k', m1, hm1, l', m', n, H);
    }
  }

  lemma SortedSize(w: seq<nat>, h: seq<nat>)
    requires LexSorted(w, h)
    ensures |w| == |h|
  {
  }

  lemma LastRoot(f: seq<nat>, t: Forest, h: seq<nat>, l: seq<nat>, m: seq<nat>, n: nat, H: nat)
    requires |f| >= 2 && Inv(f, t) && |t.weight| == |f| - 1 == |h| && RootLengths(f, t, l, m, n)
    requires Within(l, m, h[|t.parent|..], H)
    ensures h[|h| - 1] <= H
  {
    hide TwoChildren, Feasible;
    var b := |t.parent|;
    assert b > 0 ==> b - 1 < t.parent[b - 1] < |t.weight|;
    assert h[b..][|h| - 1 - b] == h[|h| - 1];
  }

  // ---------------------------------------------------------------------------------------------
  // The height is the depth of the first internal node and one more.
  // ---------------------------------------------------------------------------------------------

  /** Heights grow from a node to its parent. */
  predicate Stacked(p: seq<nat>, h: seq<nat>) {
    |p| <= |h| && (forall j :: 0 <= j < |p| ==> p[j] < |h| && h[j] < h[p[j]]) && (h != [] ==> h[0] >= 1)
  }

  lemma StackedStep(f: seq<nat>, t: Forest, h: seq<nat>)
    requires Shape(f, t) && |t.weight| < |f| - 1 && |h| == |t.weight| && Stacked(t.parent, h)
    ensures Stacked(Merge(f, t).parent, h + [NextHeight(f, t, h)])
  {
    var g := h + [NextHeight(f, t, h)];
    var r := Merge(f, t);
    forall j | 0 <= j < |r.parent| ensures r.parent[j] < |g| && g[j] < g[r.parent[j]] {
      if j < |t.parent| { assert r.parent[j] == t.parent[j]; }
    }
  }

  lemma {:induction false} DeepestNode(p: seq<nat>, h: seq<nat>, j: nat)
    requires Rising(p) && Stacked(p, h) && j < |h| == |p| + 1
    ensures h[j] + Depth(p, j) <= h[|h| - 1]
    decreases |p| - j
  {
    if j < |p| { DeepestNode(p, h, p[j]); }
  }

  lemma {:induction false} HeightReaches(f: seq<nat>, t: Forest, h: seq<nat>)
    requires |f| >= 2 && Shape(f, t) && |h| == |t.weight| && Stacked(t.parent, h)
    requires var g := Grow(f, t); Rising(g.parent) && |g.parent| == |f| - 2
    ensures Depth(Grow(f, t).parent, 0) + 1 <= FinalHeight(f, t, h)
    decreases |f| - |t.weight|
  {
    hide NextHeight, Merge, Depth, Stacked;
    if |t.weight| == |f| - 1 {
      StackedFirst(t.parent, h);
      DeepestNode(t.parent, h, 0);
    } else {
      StackedStep(f, t, h);
      GrowStep(f, t);
      HeightReaches(f, Merge(f, t), h + [NextHeight(f, t, h)]);
    }
  }

  lemma StackedFirst(p: seq<nat>, h: seq<nat>)
    requires Stacked(p, h) && h != []
    ensures h[0] >= 1
  {
  }

  /** Lengths that cost no more than the tree's are somewhere at least as long as the tree is high. */
  lemma LeastHeight(f: seq<nat>, l: seq<nat>, n: nat, H: nat)
    requires |f| >= 2 && Ascending(f) && |l| == |f| && Feasible(l, n) && Cost(f, l) <= Cost(f, TreeLengths(f))
    requires forall k :: 0 <= k < |l| ==> l[k] <= H
    ensures Rising(Tree(f).parent) && Depth(Tree(f).parent, 0) + 1 <= H
  {
    hide Cost, KraftSum, Pow2, Grow, Depth, FinalHeight;
    Finished(f);
    var g := Tree(f);
    DepthCost(f, EMPTY, g);
    assert l + [] == l;
    var ld, id := LeafDepths(g), InternalDepths(g.parent, |g.weight|);
    assert f[0..] == f && ld[0..] == ld && id[0..0] == [] && EMPTY.weight[0..] == [];
    CostNothing();
    LowerHeight(f, EMPTY, [], 0, 0, 0, l, [], n, H);
    HeightReaches(f, EMPTY, []);
  }

  lemma CostNothing()
    ensures Cost([], []) == 0
  {
  }

  // ---------------------------------------------------------------------------------------------
  // The words of the tree.
  // ---------------------------------------------------------------------------------------------

  /** Each word extends an old one, and two that extend the same one differ at its end. */
  predicate Extends(a: seq<seq<bool>>, c: seq<seq<bool>>, o: seq<nat>) {
    && |o| == |c| && (forall k :: 0 <= k < |c| ==> o[k] < |a| && a[o[k]] <= c[k])
    && (forall j, k :: 0 <= j < k < |c| && o[j] == o[k] ==> !Comparable(c[j], c[k]))
  }

  lemma ExtendsPrefixCode(a: seq<seq<bool>>, c: seq<seq<bool>>, o: seq<nat>)
    requires PrefixCode(a) && Extends(a, c, o)
    ensures PrefixCode(c)
  {
    forall j, k | 0 <= j < k < |c| ensures !Comparable(c[j], c[k]) {
      if o[j] != o[k] {
        NotComparable(a, o[j], o[k]);
        LongerApart(a[o[j]], a[o[k]], c[j], c[k]);
      }
    }
  }

  lemma NotComparable(a: seq<seq<bool>>, i: nat, j: nat)
    requires PrefixCode(a) && i < |a| && j < |a| && i != j
    ensures !Comparable(a[i], a[j])
  {
    if i > j { assert !Comparable(a[j], a[i]); }
  }

  lemma LongerApart(v: seq<bool>, w: seq<bool>, v': seq<bool>, w': seq<bool>)
    requires !Comparable(v, w) && v <= v' && w <= w'
    ensures !Comparable(v', w')
  {
    if Comparable(v', w') { PrefixesCompare(v, w, if v' <= w' then w' else v'); }
  }

  lemma PrefixesCompare(v: seq<bool>, w: seq<bool>, z: seq<bool>)
    requires v <= z && w <= z
    ensures Comparable(v, w)
  {
    assert v == z[..|v|] && w == z[..|w|];
  }

  lemma Siblings(w: seq<bool>)
    ensures w <= w + [false] && w <= w + [true] && !Comparable(w + [false], w + [true])
  {
    assert (w + [false])[|w|] != (w + [true])[|w|];
  }

  /** Words for the leaves and the internal nodes that are still roots. */
  lemma {:induction false} RootWords(f: seq<nat>, t: Forest, g: Forest) returns (lw: seq<seq<bool>>, mw: seq<seq<bool>>)
    requires |f| >= 2 && Shape(f, t) && g == Grow(f, t) && Rising(g.parent) && |g.leafParent| == |f|
    requires |g.parent| == |g.weight| - 1
    ensures |lw| == |f| - |t.leafParent| && |mw| == |t.weight| - |t.parent| && PrefixCode(lw + mw)
    ensures forall k :: 0 <= k < |lw| ==> |lw[k]| == LeafDepths(g)[|t.leafParent| + k]
    ensures forall k :: 0 <= k < |mw| ==> |mw[k]| == InternalDepths(g.parent, |g.weight|)[|t.parent| + k]
    decreases |f| - |t.weight|
  {
    hide Depth, Merge, PrefixCode;
    if |t.weight| == |f| - 1 {
      GrowEnd(f, t);
      lw, mw := [], [[]];
      OneWord();
      assert lw + mw == [[]];
      DepthRoot(g.parent);
    } else {
      GrowStep(f, t);
      MergeCounts(f, t);
      MergeParts(f, t);
      MergedDepths(f, t, g);
      var l', m' := RootWords(f, Merge(f, t), g);
      lw, mw := SplitLast(l', m', |Merge(f, t).leafParent| - |t.leafParent|);
    }
  }

  lemma OneWord()
    ensures PrefixCode([[]])
  {
  }

  lemma GrowEnd(f: seq<nat>, t: Forest)
    requires Shape(f, t) && |t.weight| == |f| - 1
    ensures Grow(f, t) == t
  {
  }

  lemma DepthRoot(p: seq<nat>)
    requires Rising(p)
    ensures Depth(p, |p|) == 0
  {
  }

  /** The last internal word gives way to its two extensions, c of them for leaves. */
  lemma SplitLast(l: seq<seq<bool>>, m: seq<seq<bool>>, c: nat) returns (lw: seq<seq<bool>>, mw: seq<seq<bool>>)
    requires PrefixCode(l + m) && m != [] && c <= 2
    ensures PrefixCode(lw + mw) && |lw| == c + |l| && |mw| == 2 - c + |m| - 1
    ensures lw[c..] == l && mw[2 - c..] == m[..|m| - 1]
    ensures forall k :: 0 <= k < c ==> |lw[k]| == |m[|m| - 1]| + 1
    ensures forall k :: 0 <= k < 2 - c ==> |mw[k]| == |m[|m| - 1]| + 1
  {
    hide PrefixCode, Extends;
    var w := m[|m| - 1];
    var kids := [w + [false], w + [true]];
    lw, mw := kids[..c] + l, kids[c..] + m[..|m| - 1];
    SplitExtends(l, m, c, lw + mw);
    ExtendsPrefixCode(l + m, lw + mw, Origins(|l|, |m|, c));
  }

  /** Which old word each new one extends. */
  function Origins(n: nat, k: nat, c: nat): (o: seq<nat>)
    requires c <= 2 && k > 0
  {
    seq(c + n + (2 - c) + (k - 1), i requires 0 <= i =>
      if i < c || c + n <= i < n + 2 then n + k - 1 else if i < c + n then i - c else i - 2)
  }

  lemma SplitExtends(l: seq<seq<bool>>, m: seq<seq<bool>>, c: nat, r: seq<seq<bool>>)
    requires m != [] && c <= 2
    requires var kids := [m[|m| - 1] + [false], m[|m| - 1] + [true]];
      r == (kids[..c] + l) + (kids[c..] + m[..|m| - 1])
    ensures Extends(l + m, r, Origins(|l|, |m|, c))
  {
    hide Comparable;
    var a, o, w := l + m, Origins(|l|, |m|, c), m[|m| - 1];
    Siblings(w);
    forall k | 0 <= k < |r| ensures o[k] < |a| && a[o[k]] <= r[k] {
      if k < c {
      } else if k < c + |l| {
        assert r[k] == l[k - c];
      } else if k < |l| + 2 {
      } else {
        assert r[k] == m[k - 2 - |l|];
      }
    }
    forall j, k | 0 <= j < k < |r| && o[j] == o[k] ensures !Comparable(r[j], r[k]) {
      assert r[j] == w + [false] && r[k] == w + [true];
    }
  }

  /** A prefix code with the lengths of the tree. */
  lemma TreeWords(f: seq<nat>) returns (c: seq<seq<bool>>)
    requires |f| >= 2 && Ascending(f)
    ensures PrefixCode(c) && Lengths(c) == TreeLengths(f)
  {
    hide Grow, Depth, PrefixCode;
    Finished(f);
    var mw;
    c, mw := RootWords(f, EMPTY, Tree(f));
    assert c + mw == c;
  }
}
