/** How a block of literals is written: stored, into the open block, or as a new block. What is decided
    depends only on the input, on the open block's code and on the size of its header. */
module LiteralChoice {
  import opened Words
  import opened Canon
  import opened HuffmanTree
  import opened HuffmanOptimal
  import opened HuffmanSort
  import opened HuffmanCode
  import opened HuffmanEncoder
  import opened Lz
  import opened Format
  import opened Codegen
  import opened BitReader
  import opened HuffmanCodes

  const GUESS_HEADER_BITS: nat := 560
  const STORE_CHECK: nat := 1024

  /** Counts of the input's bytes and one end of block. */
  function ByteCounts(input: seq<byte>): (f: seq<nat>)
    ensures |f| == END_OF_BLOCK + 1
  {
    seq(END_OF_BLOCK + 1, v requires 0 <= v <= END_OF_BLOCK => if v == END_OF_BLOCK then 1 else ByteCount(input, v))
  }

  /** The lengths of the input's own code. */
  ghost predicate OwnLens(input: seq<byte>, lens: seq<nat>) {
    exists q :: SortedEntries(ByteCounts(input), q) && Built(ByteCounts(input), lens, 15, q)
  }

  lemma OwnOnce(input: seq<byte>, a: seq<nat>, b: seq<nat>)
    requires OwnLens(input, a) && OwnLens(input, b)
    ensures a == b
  {
    hide SortedEntries, Built, ByteCounts;
    var q :| SortedEntries(ByteCounts(input), q) && Built(ByteCounts(input), a, 15, q);
    var r :| SortedEntries(ByteCounts(input), r) && Built(ByteCounts(input), b, 15, r);
    BuiltOnce(ByteCounts(input), a, b, 15, q, r);
  }

  lemma OwnSize(input: seq<byte>, lens: seq<nat>)
    requires OwnLens(input, lens)
    ensures |lens| == END_OF_BLOCK + 1
  {
    hide SortedEntries, ByteCounts, Complete, TreeHeight, Listing, Ascending, Limited;
  }

  lemma OwnIs(input: seq<byte>, lens: seq<nat>, q: seq<nat>)
    requires SortedEntries(ByteCounts(input), q) && Built(ByteCounts(input), lens, 15, q)
    ensures OwnLens(input, lens)
  {
    hide SortedEntries, Built, ByteCounts;
  }

  // ---------------------------------------------------------------------------------------------
  // Input without a shape.
  // ---------------------------------------------------------------------------------------------

  function Square(x: int): (s: nat)
    ensures s == x * x
  {
    if x < 0 then assert x * x == (-x) * (-x); x * x else x * x
  }

  /** How far the first k counts are from all being equal: the squares of 256 times the differences. */
  function Spread(f: seq<nat>, n: nat, k: nat): nat
    requires k <= |f|
  {
    if k == 0 then 0 else Spread(f, n, k - 1) + Square(256 * f[k - 1] - n)
  }

  lemma {:induction false} SpreadGrows(f: seq<nat>, n: nat, j: nat, k: nat)
    requires j <= k <= |f|
    ensures Spread(f, n, j) <= Spread(f, n, k)
  {
    if j < k { SpreadGrows(f, n, j, k - 1); }
  }

  /** The counts are so even that no code can help. */
  predicate Shapeless(input: seq<byte>) {
    |input| > STORE_CHECK && Spread(ByteCounts(input), |input|, 256) < 131072 * |input|
  }

  /** The quick check, which stops as soon as the counts are too uneven. */
  method QuickCheck(input: seq<byte>, f: seq<nat>) returns (b: bool)
    requires |f| >= 256 && forall v :: 0 <= v < 256 ==> f[v] == ByteCounts(input)[v]
    ensures b <==> Shapeless(input)
  {
    hide ByteCount, Square;
    if |input| <= STORE_CHECK {
      return false;
    }
    ghost var c := ByteCounts(input);
    var abs: nat := 0;
    var max: nat := 131072 * |input|;
    for i := 0 to 256
      invariant abs == Spread(c, |input|, i) <= max
    {
      abs := abs + Square(256 * f[i] - |input|);
      if abs > max {
        SpreadGrows(c, |input|, i + 1, 256);
        return false;
      }
    }
    b := abs < max;
  }

  // ---------------------------------------------------------------------------------------------
  // Estimated sizes.
  // ---------------------------------------------------------------------------------------------

  /** The expected size with a code of its own: its symbols, a header, and a penalty. */
  function Estimated(own: nat, lastHeader: nat, penalty: nat): nat {
    var e := own + if lastHeader == 0 then GUESS_HEADER_BITS else lastHeader;
    e + Shr(e, penalty)
  }

  /** The size under a code made for other data; more than any block when it lacks a symbol. */
  function ReuseSize(codes: seq<nat>, freq: seq<nat>): nat
    requires |freq| <= |codes|
  {
    if Reusable(codes, freq) then SizeTo(codes, freq, |freq|) else MAX_INT32
  }

  /** The input would be smaller stored. */
  predicate StoreWins(input: seq<byte>, estBits: nat) {
    (|input| + 5) * 8 <= estBits
  }

  /** The size of the input and one end of block with the input's own code. */
  ghost predicate OwnCost(input: seq<byte>, cost: nat) {
    exists lens :: OwnLens(input, lens) && |lens| == END_OF_BLOCK + 1 && cost == Cost(ByteCounts(input), lens)
  }

  /** The input is stored. */
  ghost predicate Storing(input: seq<byte>, lastHeader: nat, penalty: nat) {
    Shapeless(input) || (exists c :: OwnCost(input, c) && StoreWins(input, Estimated(c, lastHeader, penalty)))
  }

  /** The input goes into the open block, whose code words are given. */
  ghost predicate Continuing(input: seq<byte>, lastHeader: nat, penalty: nat, codes: seq<nat>) {
    && lastHeader > 0 && !Storing(input, lastHeader, penalty) && |codes| >= 256
    && exists c :: OwnCost(input, c) && ReuseSize(codes, ByteCounts(input)[..256]) <= Estimated(c, lastHeader, penalty)
  }

  lemma OwnCostIs(input: seq<byte>, lens: seq<nat>)
    requires OwnLens(input, lens) && |lens| == END_OF_BLOCK + 1
    ensures OwnCost(input, Cost(ByteCounts(input), lens))
    ensures forall c :: OwnCost(input, c) ==> c == Cost(ByteCounts(input), lens)
  {
    hide OwnLens, ByteCounts, Cost;
    forall c | OwnCost(input, c) ensures c == Cost(ByteCounts(input), lens) {
      var l :| OwnLens(input, l) && |l| == END_OF_BLOCK + 1 && c == Cost(ByteCounts(input), l);
      OwnOnce(input, l, lens);
    }
  }

  /** Both, knowing the lengths. */
  lemma Decided(input: seq<byte>, lastHeader: nat, penalty: nat, codes: seq<nat>, lens: seq<nat>)
    requires OwnLens(input, lens) && |codes| >= 256
    ensures |lens| == END_OF_BLOCK + 1
    ensures var estBits := Estimated(Cost(ByteCounts(input), lens), lastHeader, penalty);
      && (Storing(input, lastHeader, penalty) <==> Shapeless(input) || StoreWins(input, estBits))
      && (Continuing(input, lastHeader, penalty, codes) <==>
          lastHeader > 0 && !Shapeless(input) && !StoreWins(input, estBits)
          && ReuseSize(codes, ByteCounts(input)[..256]) <= estBits)
  {
    OwnSize(input, lens);
    hide OwnLens, Estimated, StoreWins, ByteCounts, Shapeless, ReuseSize, Cost, OwnCost;
    OwnCostIs(input, lens);
  }
}
