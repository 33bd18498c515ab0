/** LZ77 items and what they expand to over a history. */
module Lz {
  import opened Words

  const MIN_MATCH: nat := 3
  const MAX_MATCH: nat := 258
  const MAX_DIST: nat := 32768

  datatype Item = Lit(b: byte) | Copy(len: nat, dist: nat)

  /** len more bytes, each the byte dist places before it. */
  function Extend(h: seq<byte>, len: nat, dist: nat): (r: seq<byte>)
    requires 1 <= dist <= |h|
    ensures |r| == |h| + len && h <= r
    decreases len
  {
    if len == 0 then h else Extend(h + [h[|h| - dist]], len - 1, dist)
  }

  /** A copy can reach back to dist. */
  predicate Valid(h: seq<byte>, x: Item) {
    x.Copy? ==> MIN_MATCH <= x.len <= MAX_MATCH && 1 <= x.dist <= MAX_DIST && x.dist <= |h|
  }

  function Apply(h: seq<byte>, x: Item): (r: seq<byte>)
    requires Valid(h, x)
    ensures h <= r
  {
    match x
    case Lit(b) => h + [b]
    case Copy(len, dist) => Extend(h, len, dist)
  }

  /** All items are valid, one after the other. */
  predicate AllValid(h: seq<byte>, xs: seq<Item>)
    decreases xs
  {
    xs == [] || (Valid(h, xs[0]) && AllValid(Apply(h, xs[0]), xs[1..]))
  }

  function Expand(h: seq<byte>, xs: seq<Item>): (r: seq<byte>)
    requires AllValid(h, xs)
    ensures h <= r
    decreases xs
  {
    if xs == [] then h else Expand(Apply(h, xs[0]), xs[1..])
  }

  /** Each byte of an extension repeats the one dist places before it. */
  lemma {:induction false} ExtendAt(h: seq<byte>, len: nat, dist: nat, k: nat)
    requires 1 <= dist <= |h| && |h| <= k < |h| + len
    ensures Extend(h, len, dist)[k] == Extend(h, len, dist)[k - dist]
    decreases len
  {
    var h' := h + [h[|h| - dist]];
    if k == |h| {
      assert Extend(h, len, dist)[..|h'|] == h';
      assert Extend(h, len, dist)[k] == h'[k];
      assert Extend(h, len, dist)[k - dist] == h'[k - dist];
    } else {
      ExtendAt(h', len - 1, dist, k);
    }
  }

  /** That property determines the extension. */
  lemma {:induction false} ExtendUnique(h: seq<byte>, len: nat, dist: nat, r: seq<byte>)
    requires 1 <= dist <= |h| && |r| == |h| + len && h <= r
    requires forall k :: |h| <= k < |r| ==> r[k] == r[k - dist]
    ensures r == Extend(h, len, dist)
    decreases len
  {
    if len > 0 {
      var h' := h + [h[|h| - dist]];
      assert r[..|h|] == h;
      assert r[|h|] == r[|h| - dist] == h[|h| - dist];
      assert r[..|h'|] == h';
      ExtendUnique(h', len - 1, dist, r);
    }
  }

  /** Two copies at one distance are one longer copy. */
  lemma {:induction false} ExtendSplit(h: seq<byte>, a: nat, b: nat, dist: nat)
    requires 1 <= dist <= |h|
    ensures Extend(Extend(h, a, dist), b, dist) == Extend(h, a + b, dist)
    decreases a
  {
    if a > 0 { ExtendSplit(h + [h[|h| - dist]], a - 1, b, dist); }
  }

  lemma {:induction false} ExpandConcat(h: seq<byte>, xs: seq<Item>, ys: seq<Item>)
    requires AllValid(h, xs)
    ensures AllValid(h, xs + ys) <==> AllValid(Expand(h, xs), ys)
    ensures AllValid(h, xs + ys) ==> Expand(h, xs + ys) == Expand(Expand(h, xs), ys)
    decreases xs
  {
    if xs == [] {
      assert xs + ys == ys;
    } else {
      ExpandConcat(Apply(h, xs[0]), xs[1..], ys);
      assert (xs + ys)[1..] == xs[1..] + ys;
    }
  }

  /** What was there before the history does not matter to what is added. */
  lemma {:induction false} ExtendFrame(p: seq<byte>, h: seq<byte>, len: nat, dist: nat)
    requires 1 <= dist <= |h|
    ensures Extend(p + h, len, dist) == p + Extend(h, len, dist)
    decreases len
  {
    if len > 0 {
      ExtendFrame(p, h + [h[|h| - dist]], len - 1, dist);
      assert (p + h) + [h[|h| - dist]] == p + (h + [h[|h| - dist]]);
      assert (p + h)[|p + h| - dist] == h[|h| - dist];
    }
  }

  lemma {:induction false} ExpandFrame(p: seq<byte>, h: seq<byte>, xs: seq<Item>)
    requires AllValid(h, xs)
    ensures AllValid(p + h, xs) && Expand(p + h, xs) == p + Expand(h, xs)
    decreases xs
  {
    if xs != [] {
      match xs[0] {
        case Lit(b) => assert (p + h) + [b] == p + (h + [b]);
        case Copy(len, dist) => ExtendFrame(p, h, len, dist);
      }
      ExpandFrame(p, Apply(h, xs[0]), xs[1..]);
    }
  }

  /** Literals for a string. */
  function Lits(s: seq<byte>): (xs: seq<Item>)
    ensures |xs| == |s|
  {
    if s == [] then [] else [Lit(s[0])] + Lits(s[1..])
  }

  lemma {:induction false} ExpandLits(h: seq<byte>, s: seq<byte>)
    ensures AllValid(h, Lits(s)) && Expand(h, Lits(s)) == h + s
    decreases s
  {
    if s == [] {
      assert h + s == h;
    } else {
      ExpandLits(h + [s[0]], s[1..]);
      assert h + [s[0]] + s[1..] == h + s;
      assert Lits(s)[1..] == Lits(s[1..]);
    }
  }
}
