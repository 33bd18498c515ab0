/** A block of literals that asks to be the last: when it is not, for which inputs, and one of them. */
module LostFinal {
  import opened Words
  import opened Canon
  import opened HuffmanTree
  import opened HuffmanSort
  import opened HuffmanCode
  import opened HuffmanEncoder
  import HuffmanOptimal
  import opened Lz
  import opened LzCodes
  import opened Format
  import opened Codegen
  import opened Tokens
  import opened TokenBuffer
  import opened BitReader
  import opened BitWriter
  import opened Blocks
  import opened HuffmanCodes
  import opened BlockSize
  import opened LiteralChoice
  import opened HeaderWriter
  import opened WriterState
  import opened BlockWriter
  import opened WriterRun

  /** Writes the input as the end of the stream. No final block is written exactly if the open block takes
      the input in, which the state before the call decides. */
  method EndWithLiterals(w: Writer, input: seq<byte>) returns (ghost lost: bool)
    requires w.Ready() && |input| <= MAX_BLOCK && NoneFinal(w.AllClosed())
    modifies w.Footprint()
    ensures w.Inv() && w.open == NoBlock && w.Items() == old(w.Items()) + Lits(input)
    ensures lost <==> old(Continuing(input, w.lastHeader, w.logNewTablePenalty, w.LitCodes()))
    ensures lost <==> NoneFinal(w.closed)
  {
    hide Writer.Base, Continuing, Storing, OwnLens, Lits, NoneFinal, OneBlock, StateBits, StateItems, GoodBlocks,
         GoodOpen;
    hide HeaderOk, Stream, Writer.Apart;
    lost := w.WriteBlockHuff(true, input, true);
    assert w.closed + [] == w.closed;
    if lost {
      var o := old(w.open);
      SameFinal(old(w.closed), o, o.(items := o.items + Lits(input)));
    } else {
      FinalAdded(old(w.AllClosed()), w.AllClosed());
    }
  }

  lemma FinalAdded(before: seq<Block>, after: seq<Block>)
    requires OneBlock(before, after, true)
    ensures !NoneFinal(after)
  {
    assert after[|before|].final;
  }

  // ---------------------------------------------------------------------------------------------
  // The same input twice.
  // ---------------------------------------------------------------------------------------------

  lemma {:induction false} CostPart(f: seq<nat>, l: seq<nat>, k: nat)
    requires |f| == |l| && k <= |f|
    ensures HuffmanOptimal.Cost(f[..k], l[..k]) <= HuffmanOptimal.Cost(f, l)
  {
    assert f == f[..k] + f[k..] && l == l[..k] + l[k..];
    HuffmanOptimal.CostConcat(f[..k], f[k..], l[..k], l[k..]);
  }

  /** Unless it is stored, input that the open block's code was made for goes into that block. */
  lemma SameAgain(input: seq<byte>, lens: seq<nat>, codes: seq<nat>, lastHeader: nat, penalty: nat)
    requires OwnLens(input, lens) && Table(lens, codes) && |codes| >= 256
    requires lastHeader > 0 && !Storing(input, lastHeader, penalty)
    ensures Continuing(input, lastHeader, penalty, codes)
  {
    hide ByteCounts, Built, SortedEntries, Table, HLen, Storing, HuffmanOptimal.Cost, OwnCost, SizeTo, GoodCode;
    OwnSize(input, lens);
    OwnCostIs(input, lens);
    var f := ByteCounts(input);
    var q :| SortedEntries(f, q) && Built(f, lens, 15, q);
    BuiltLengths(f, lens, 15, q);
    TableZero(lens, codes);
    var g := f[..256];
    SizeIsCost(codes, g, lens[..256], 256);
    assert g[..256] == g && lens[..256][..256] == lens[..256];
    CostPart(f, lens, 256);
  }

  // ---------------------------------------------------------------------------------------------
  // Zero bytes.
  // ---------------------------------------------------------------------------------------------

  lemma {:induction false} ZeroByteCount(n: nat, v: nat)
    ensures ByteCount(ZeroBytes(n), v) == if v == 0 then n else 0
  {
    if n > 0 {
      ZeroByteCount(n - 1, v);
      assert ZeroBytes(n)[1..] == ZeroBytes(n - 1);
    }
  }

  lemma ZeroCounts(n: nat)
    ensures ByteCounts(ZeroBytes(n)) == [n] + Repeat(0, 255) + [1]
  {
    hide ByteCount;
    forall v ensures ByteCount(ZeroBytes(n), v) == if v == 0 then n else 0 { ZeroByteCount(n, v); }
  }

  /** Of three listed symbols, one is neither a nor b. */
  lemma ThirdListed(sy: seq<nat>, n: nat, a: nat, b: nat)
    requires Listing(sy, n) && |sy| > 2
    ensures exists k :: 0 <= k < |sy| && sy[k] != a && sy[k] != b
  {
    var k := if sy[0] != a && sy[0] != b then 0 else if sy[1] != a && sy[1] != b then 1 else 2;
    assert sy[k] != a && sy[k] != b;
  }

  /** Two different symbols listed, and no others. */
  lemma TwoOnly(sy: seq<nat>, n: nat, a: nat, b: nat)
    requires Listing(sy, n) && a != b && a in sy && b in sy && forall k :: 0 <= k < |sy| ==> sy[k] == a || sy[k] == b
    ensures |sy| == 2
  {
    var i, j :| 0 <= i < |sy| && 0 <= j < |sy| && sy[i] == a && sy[j] == b;
    if |sy| > 2 { ThirdListed(sy, n, a, b); }
  }

  /** Two used symbols have one bit each. */
  lemma TwoLens(f: seq<nat>, lens: seq<nat>, q: seq<nat>, a: nat, b: nat)
    requires SortedEntries(f, q) && Built(f, lens, 15, q) && a < b < |f|
    requires forall s :: 0 <= s < |f| ==> (f[s] > 0 <==> s == a || s == b)
    ensures |lens| == |f| && lens[a] == 1 && lens[b] == 1
  {
    hide Complete, HuffmanOptimal.TreeLengths, TreeHeight, Limited, SortedEntries, Ascending;
    SortedListing(f, q);
    var sy := Symbols(q);
    assert a in sy && b in sy;
    forall k | 0 <= k < |sy| ensures sy[k] == a || sy[k] == b { assert sy[k] in sy; }
    TwoOnly(sy, |lens|, a, b);
    TwoHigh(Weights(q));
    TwoLeafTree(Weights(q));
    forall k | 0 <= k < |sy| ensures lens[sy[k]] == 1 { assert Pick(lens, sy)[k] == lens[sy[k]]; }
  }

  /** Zero bytes and the end of block have one bit each. */
  lemma ZeroLens(n: nat, lens: seq<nat>)
    requires n > 0 && OwnLens(ZeroBytes(n), lens)
    ensures |lens| == END_OF_BLOCK + 1 && HuffmanOptimal.Cost(ByteCounts(ZeroBytes(n)), lens) == n + 1
  {
    ZeroCounts(n);
    hide ByteCounts, Built, SortedEntries, HuffmanOptimal.Cost, ZeroBytes;
    var f := ByteCounts(ZeroBytes(n));
    var q :| SortedEntries(f, q) && Built(f, lens, 15, q);
    TwoLens(f, lens, q, 0, END_OF_BLOCK);
    ZeroCost(n, lens);
  }

  lemma {:induction false} CostNothing(n: nat, l: seq<nat>)
    requires |l| == n
    ensures HuffmanOptimal.Cost(Repeat(0, n), l) == 0
  {
    if n > 0 {
      assert Repeat(0, n)[1..] == Repeat(0, n - 1);
      CostNothing(n - 1, l[1..]);
    }
  }

  lemma ZeroCost(n: nat, lens: seq<nat>)
    requires |lens| == END_OF_BLOCK + 1 && lens[0] == 1 && lens[END_OF_BLOCK] == 1
    ensures HuffmanOptimal.Cost([n] + Repeat(0, 255) + [1], lens) == n + 1
  {
    hide HuffmanOptimal.Cost;
    var m := lens[1..256];
    assert lens == [lens[0]] + m + [lens[256]];
    HuffmanOptimal.CostConcat([n] + Repeat(0, 255), [1], [lens[0]] + m, [lens[256]]);
    HuffmanOptimal.CostConcat([n], Repeat(0, 255), [lens[0]], m);
    HuffmanOptimal.CostOne(n, 1);
    HuffmanOptimal.CostOne(1, 1);
    CostNothing(255, m);
  }

  lemma FirstSquare(f: seq<nat>)
    requires |f| > 0 && f[0] == 4096
    ensures Spread(f, 4096, 1) >= 131072 * 4096
  {
    hide Square;
    assert Spread(f, 4096, 0) == 0;
    assert 256 * f[0] - 4096 == 1044480;
    assert Square(1044480) == 1044480 * 1044480;
  }

  lemma ZerosHaveShape()
    ensures !Shapeless(ZeroBytes(4096))
  {
    hide ByteCounts, Square, Spread;
    ZeroCounts(4096);
    SpreadGrows(ByteCounts(ZeroBytes(4096)), 4096, 1, 256);
    FirstSquare(ByteCounts(ZeroBytes(4096)));
  }

  lemma SmallEstimate(c: nat, lastHeader: nat, penalty: nat)
    requires c == 4097 && lastHeader <= HEADER_LIMIT
    ensures Estimated(c, lastHeader, penalty) <= 24578
  {
    hide Shr;
  }

  /** Four thousand zero bytes are not stored, whatever header is in front. */
  lemma ZerosNotStored(lastHeader: nat, penalty: nat)
    requires lastHeader <= HEADER_LIMIT
    ensures !Storing(ZeroBytes(4096), lastHeader, penalty)
  {
    hide ByteCounts, OwnLens, HuffmanOptimal.Cost, Estimated, ZeroBytes, Shapeless;
    var z := ZeroBytes(4096);
    ZerosHaveShape();
    forall c | OwnCost(z, c) ensures !StoreWins(z, Estimated(c, lastHeader, penalty)) {
      var lens :| OwnLens(z, lens) && |lens| == END_OF_BLOCK + 1 && c == HuffmanOptimal.Cost(ByteCounts(z), lens);
      ZeroLens(4096, lens);
      SmallEstimate(c, lastHeader, penalty);
    }
  }

  lemma ZerosContinue(w: Writer)
    requires w.Ready() && w.open.OpenBlock? && OwnLens(ZeroBytes(4096), w.litLens)
    ensures Continuing(ZeroBytes(4096), w.lastHeader, w.logNewTablePenalty, w.LitCodes())
  {
    hide OpenOk, CacheOk, GoodGlobals, GoodBlocks, GoodOpen, StateBits, Stream, Table, ZeroBytes, Storing, Continuing,
         OwnLens;
    w.CodesApart();
    HeaderOpen(w.open, w.lastHeader);
    ZerosNotStored(w.lastHeader, w.logNewTablePenalty);
    SameAgain(ZeroBytes(4096), w.litLens, w.LitCodes(), w.lastHeader, w.logNewTablePenalty);
  }

  /** Zero bytes in a block of their own, which stays open. */
  method ZerosOnce(w: Writer)
    requires w.Ready() && w.open == NoBlock && NoneFinal(w.closed)
    modifies w.Footprint()
    ensures w.Ready() && w.open.OpenBlock? && OwnLens(ZeroBytes(4096), w.litLens) && NoneFinal(w.AllClosed())
    ensures w.Items() == old(w.Items()) + Lits(ZeroBytes(4096)) && w.Footprint() == old(w.Footprint())
  {
    hide Writer.Base, OwnLens, OwnCost, Lits, NoneFinal, OneBlock, StateBits, StateItems, GoodBlocks, GoodOpen, Stream;
    hide Storing, ReuseSize, ZeroBytes, HeaderOk;
    NoneHeader(w);
    ZerosNotStored(w.lastHeader, w.logNewTablePenalty);
    assert w.closed + [] == w.closed;
    ghost var continued := w.WriteBlockHuff(false, ZeroBytes(4096), false);
    OneNotFinal(old(w.closed), w.AllClosed());
  }

  lemma NoneHeader(w: Writer)
    requires w.Ready() && w.open == NoBlock
    ensures w.lastHeader == 0
  {
    hide OpenOk, CacheOk, GoodGlobals, GoodBlocks, StateBits, Stream, Table;
  }

  /** After these two blocks the stream that was to end has no final block. */
  method ZerosTwice(w: Writer)
    requires w.Ready() && w.open == NoBlock && NoneFinal(w.closed)
    modifies w.Footprint()
    ensures w.Inv() && w.open == NoBlock && NoneFinal(w.closed)
    ensures w.Items() == old(w.Items()) + Lits(ZeroBytes(4096)) + Lits(ZeroBytes(4096))
  {
    hide Writer.Base, OwnLens, OwnCost, Lits, NoneFinal, OneBlock, StateBits, StateItems, GoodBlocks, GoodOpen, Stream;
    hide Storing, Continuing, ZeroBytes, HeaderOk, Writer.Footprint, Writer.Inv;
    ZerosOnce(w);
    ZerosContinue(w);
    ghost var lost := EndWithLiterals(w, ZeroBytes(4096));
  }
}
