/** The two-queue Huffman construction as a function of the sorted leaf frequencies, and what its
    depth pass relies on: weights and parents come out in non-decreasing order. */
module HuffmanTree {
  import opened Words
  import opened Canon

  /** Frequencies of the used symbols, ascending. */
  predicate Ascending(f: seq<nat>) {
    forall j, k :: 0 <= j <= k < |f| ==> f[j] <= f[k]
  }

  function Sum(f: seq<nat>): nat {
    if f == [] then 0 else f[0] + Sum(f[1..])
  }

  lemma {:induction false} SumConcat(a: seq<nat>, b: seq<nat>)
    ensures Sum(a + b) == Sum(a) + Sum(b)
  {
    if a == [] {
      assert a + b == b;
    } else {
      SumConcat(a[1..], b);
      assert (a + b)[1..] == a[1..] + b;
    }
  }

  lemma {:induction false} SumAtLeast(a: seq<nat>, k: nat)
    requires k < |a|
    ensures a[k] <= Sum(a)
  {
    if k > 0 { SumAtLeast(a[1..], k - 1); }
  }

  /** Weights of the internal nodes made so far; parents of the first internal nodes; parents of the
      first leaves. The next unparented internal node is |parent|, the next leaf is |leafParent|. */
  datatype Forest = Forest(weight: seq<nat>, parent: seq<nat>, leafParent: seq<nat>)

  /** Each internal node has two children, and the queues are where the counts say they are. */
  predicate Shape(f: seq<nat>, t: Forest) {
    && |t.leafParent| + |t.parent| == 2 * |t.weight|
    && |t.leafParent| <= |f| && |t.parent| <= |t.weight| < |f|
  }

  predicate TwoLeaves(f: seq<nat>, t: Forest)
    requires Shape(f, t)
  {
    var i, b, e := |t.leafParent|, |t.parent|, |t.weight|;
    i + 1 < |f| && (b == e || f[i + 1] <= t.weight[b])
  }

  predicate TwoInternals(f: seq<nat>, t: Forest)
    requires Shape(f, t)
  {
    var i, b, e := |t.leafParent|, |t.parent|, |t.weight|;
    b + 2 <= e && (i >= |f| || t.weight[b + 1] < f[i])
  }

  /** Merge the two roots at the heads of the queues. */
  function Merge(f: seq<nat>, t: Forest): (r: Forest)
    requires Shape(f, t) && |t.weight| < |f| - 1
    ensures Shape(f, r) && |r.weight| == |t.weight| + 1
  {
    var i, b, e := |t.leafParent|, |t.parent|, |t.weight|;
    if TwoLeaves(f, t) then
      Forest(t.weight + [f[i] + f[i + 1]], t.parent, t.leafParent + [e, e])
    else if TwoInternals(f, t) then
      Forest(t.weight + [t.weight[b] + t.weight[b + 1]], t.parent + [e, e], t.leafParent)
    else
      Forest(t.weight + [f[i] + t.weight[b]], t.parent + [e], t.leafParent + [e])
  }

  function Grow(f: seq<nat>, t: Forest): (r: Forest)
    requires Shape(f, t)
    ensures Shape(f, r) && |r.weight| == |f| - 1
    decreases |f| - |t.weight|
  {
    if |t.weight| == |f| - 1 then t else Grow(f, Merge(f, t))
  }

  const EMPTY := Forest([], [], [])

  function Tree(f: seq<nat>): (r: Forest)
    requires |f| >= 1
    ensures Shape(f, r) && |r.weight| == |f| - 1
  {
    Grow(f, EMPTY)
  }

  // ---------------------------------------------------------------------------------------------
  // What every merge keeps.
  // ---------------------------------------------------------------------------------------------

  /** A bound: no root weighs less than m, and no merge so far weighs more than 2m. */
  predicate Frontier(f: seq<nat>, t: Forest, m: nat)
    requires Shape(f, t)
  {
    && (forall k :: |t.leafParent| <= k < |f| ==> m <= f[k])
    && (forall k :: |t.parent| <= k < |t.weight| ==> m <= t.weight[k])
    && (forall k :: 0 <= k < |t.weight| ==> t.weight[k] <= 2 * m)
  }

  /** Parents appear after their children and never step backwards. */
  predicate Parents(p: seq<nat>, e: nat) {
    && (forall k :: 0 <= k < |p| ==> p[k] < e)
    && (forall j, k :: 0 <= j <= k < |p| ==> p[j] <= p[k])
  }

  predicate TwoChildren(t: Forest) {
    forall k :: 0 <= k < |t.weight| ==>
      CountTo(t.parent, k, |t.parent|) + CountTo(t.leafParent, k, |t.leafParent|) == 2
  }

  predicate Inv(f: seq<nat>, t: Forest) {
    && Shape(f, t)
    && Ascending(t.weight)
    && Parents(t.parent, |t.weight|)
    && Parents(t.leafParent, |t.weight|)
    && (forall k :: 0 <= k < |t.parent| ==> k < t.parent[k])
    && TwoChildren(t)
  }

  /** The total weight of the roots, which merging keeps. */
  function RootWeight(f: seq<nat>, t: Forest): nat
    requires Shape(f, t)
  {
    Sum(f[|t.leafParent|..]) + Sum(t.weight[|t.parent|..])
  }

  lemma {:induction false} CountAppend(p: seq<nat>, q: seq<nat>, k: nat)
    ensures CountTo(p + q, k, |p + q|) == CountTo(p, k, |p|) + CountTo(q, k, |q|)
  {
    if q == [] {
      assert p + q == p;
    } else {
      var r := q[..|q| - 1];
      CountAppend(p, r, k);
      assert p + q == (p + r) + [q[|q| - 1]];
      CountPrefix(p + q, k, |p + r|, p + r);
      CountPrefix(q, k, |r|, r);
    }
  }

  /** Counting reads only the part it counts. */
  lemma {:induction false} CountPrefix(p: seq<nat>, l: nat, k: nat, q: seq<nat>)
    requires k <= |p| && k <= |q| && p[..k] == q[..k]
    ensures CountTo(p, l, k) == CountTo(q, l, k)
  {
    if k > 0 {
      assert p[k - 1] == p[..k][k - 1] == q[k - 1];
      assert p[..k - 1] == p[..k][..k - 1] == q[..k - 1];
      CountPrefix(p, l, k - 1, q);
    }
  }

  lemma {:induction false} CountAbsent(p: seq<nat>, l: nat, k: nat)
    requires k <= |p| && forall j :: 0 <= j < k ==> p[j] != l
    ensures CountTo(p, l, k) == 0
  {
    if k > 0 { CountAbsent(p, l, k - 1); }
  }

  /** The parents given in one merge: [e, e] on one side or [e] on each. */
  lemma CountNew(p: seq<nat>, q: seq<nat>, e: nat, k: nat)
    requires |q| <= 2 && (forall j :: 0 <= j < |q| ==> q[j] == e) && Parents(p, e)
    ensures CountTo(p + q, k, |p + q|) == if k == e then |q| else CountTo(p, k, |p|)
  {
    CountAppend(p, q, k);
    if k == e { CountAbsent(p, e, |p|); }
    if |q| == 2 { assert CountTo(q, k, 2) == CountTo(q, k, 1) + if q[1] == k then 1 else 0; }
  }

  /** The new parents of leaves and of internal nodes in one merge. */
  function NewLeaves(f: seq<nat>, t: Forest): (q: seq<nat>)
    requires Shape(f, t)
    ensures |q| <= 2 && forall j :: 0 <= j < |q| ==> q[j] == |t.weight|
  {
    var e := |t.weight|;
    if TwoLeaves(f, t) then [e, e] else if TwoInternals(f, t) then [] else [e]
  }

  function NewInternals(f: seq<nat>, t: Forest): (q: seq<nat>)
    requires Shape(f, t)
    ensures |q| + |NewLeaves(f, t)| == 2 && forall j :: 0 <= j < |q| ==> q[j] == |t.weight|
  {
    var e := |t.weight|;
    if TwoLeaves(f, t) then [] else if TwoInternals(f, t) then [e, e] else [e]
  }

  lemma MergeParts(f: seq<nat>, t: Forest)
    requires Shape(f, t) && |t.weight| < |f| - 1
    ensures Merge(f, t).parent == t.parent + NewInternals(f, t)
    ensures Merge(f, t).leafParent == t.leafParent + NewLeaves(f, t)
    ensures |t.parent| + |NewInternals(f, t)| <= |t.weight|
  {
  }

  lemma ParentsAppend(p: seq<nat>, q: seq<nat>, e: nat)
    requires Parents(p, e) && forall j :: 0 <= j < |q| ==> q[j] == e
    ensures Parents(p + q, e + 1)
  {
  }

  /** Merging two least roots gives a weight at least as large as any before. */
  lemma MergeFrontier(f: seq<nat>, t: Forest, m: nat) returns (m': nat)
    requires Ascending(f) && Inv(f, t) && Frontier(f, t, m) && |t.weight| < |f| - 1
    ensures Ascending(Merge(f, t).weight) && Frontier(f, Merge(f, t), m') && m <= m'
  {
    hide CountTo, TwoChildren, Parents, Frontier, Merge, Ascending;
    var i, b := |t.leafParent|, |t.parent|;
    if TwoLeaves(f, t) {
      m' := f[i + 1];
      FrontierLeaves(f, t, m);
    } else if TwoInternals(f, t) {
      m' := t.weight[b + 1];
      FrontierInternals(f, t, m);
    } else {
      m' := if f[i] <= t.weight[b] then t.weight[b] else f[i];
      FrontierMixed(f, t, m);
    }
  }

  lemma FrontierLeaves(f: seq<nat>, t: Forest, m: nat)
    requires Ascending(f) && Inv(f, t) && Frontier(f, t, m) && |t.weight| < |f| - 1 && TwoLeaves(f, t)
    ensures var m' := f[|t.leafParent| + 1];
      Ascending(Merge(f, t).weight) && Frontier(f, Merge(f, t), m') && m <= m'
  {
    hide CountTo, TwoChildren, Parents, TwoInternals;
  }

  lemma FrontierInternals(f: seq<nat>, t: Forest, m: nat)
    requires Ascending(f) && Inv(f, t) && Frontier(f, t, m) && |t.weight| < |f| - 1
    requires !TwoLeaves(f, t) && TwoInternals(f, t)
    ensures var m' := t.weight[|t.parent| + 1];
      Ascending(Merge(f, t).weight) && Frontier(f, Merge(f, t), m') && m <= m'
  {
    hide CountTo, TwoChildren, Parents;
  }

  lemma FrontierMixed(f: seq<nat>, t: Forest, m: nat)
    requires Ascending(f) && Inv(f, t) && Frontier(f, t, m) && |t.weight| < |f| - 1
    requires !TwoLeaves(f, t) && !TwoInternals(f, t)
    ensures var v, w := f[|t.leafParent|], t.weight[|t.parent|];
      var m' := if v <= w then w else v;
      Ascending(Merge(f, t).weight) && Frontier(f, Merge(f, t), m') && m <= m'
  {
    hide CountTo, TwoChildren, Parents;
  }

  lemma MergeInv(f: seq<nat>, t: Forest, m: nat)
    requires Ascending(f) && Inv(f, t) && Frontier(f, t, m) && |t.weight| < |f| - 1
    ensures Inv(f, Merge(f, t))
  {
    hide CountTo, TwoLeaves, TwoInternals;
    var r, e := Merge(f, t), |t.weight|;
    MergeParts(f, t);
    var m' := MergeFrontier(f, t, m);
    ParentsAppend(t.parent, NewInternals(f, t), e);
    ParentsAppend(t.leafParent, NewLeaves(f, t), e);
    forall k | 0 <= k <= e
      ensures CountTo(r.parent, k, |r.parent|) + CountTo(r.leafParent, k, |r.leafParent|) == 2
    {
      CountNew(t.parent, NewInternals(f, t), e, k);
      CountNew(t.leafParent, NewLeaves(f, t), e, k);
    }
  }

  lemma {:induction false} GrowInv(f: seq<nat>, t: Forest, m: nat)
    requires Ascending(f) && Inv(f, t) && Frontier(f, t, m)
    ensures Inv(f, Grow(f, t))
    decreases |f| - |t.weight|
  {
    if |t.weight| < |f| - 1 {
      MergeInv(f, t, m);
      var m' := MergeFrontier(f, t, m);
      GrowInv(f, Merge(f, t), m');
    }
  }

  /** The finished tree: weights and parents are in order and every internal node has two children. */
  lemma TreeInv(f: seq<nat>)
    requires |f| >= 1 && Ascending(f)
    ensures Inv(f, Tree(f))
  {
    GrowInv(f, EMPTY, 0);
  }

  lemma SumSplit(a: seq<nat>, i: nat, k: nat)
    requires i + k <= |a| && k <= 2
    ensures k == 0 ==> Sum(a[i..]) == Sum(a[i + k..])
    ensures k == 1 ==> Sum(a[i..]) == a[i] + Sum(a[i + k..])
    ensures k == 2 ==> Sum(a[i..]) == a[i] + a[i + 1] + Sum(a[i + k..])
  {
    if k >= 1 { assert a[i..][1..] == a[i + 1..]; }
    if k == 2 { assert a[i + 1..][1..] == a[i + 2..]; }
  }

  /** Merging keeps the total weight of the roots. */
  lemma MergeWeight(f: seq<nat>, t: Forest)
    requires Shape(f, t) && |t.weight| < |f| - 1
    ensures RootWeight(f, Merge(f, t)) == RootWeight(f, t)
  {
    var i, b, e := |t.leafParent|, |t.parent|, |t.weight|;
    var r := Merge(f, t);
    var w := r.weight[e];
    SumSplit(f, i, |r.leafParent| - i);
    SumSplit(t.weight, b, |r.parent| - b);
    assert r.weight[|r.parent|..] == t.weight[|r.parent|..] + [w];
    SumConcat(t.weight[|r.parent|..], [w]);
    assert Sum([w]) == w;
  }
}
