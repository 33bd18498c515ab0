/** A preset dictionary of one byte and 256 bytes of data for which levels 7 to 9 give the dictionary back
    as data: the first block is stored with the dictionary in front. */
module DictStored {
  import opened Words
  import opened Canon
  import HuffmanOptimal
  import opened HuffmanTree
  import opened HuffmanSort
  import opened HuffmanCode
  import opened HuffmanEncoder
  import opened Lz
  import opened LzCodes
  import opened Format
  import opened Tokens
  import opened TokenBuffer
  import opened Codegen
  import opened Header
  import opened Covering
  import opened BitReader
  import opened BitWriter
  import opened Blocks
  import opened Trim
  import opened HuffmanCodes
  import opened BlockSize
  import opened HeaderWriter
  import opened WriterState
  import opened BlockWriter
  import opened WriterRun
  import opened RoundTrip
  import opened EndToEnd
  import Lazy

  // ---------------------------------------------------------------------------------------------
  // Data without matches.
  // ---------------------------------------------------------------------------------------------

  /** No two neighbours occur twice. */
  predicate NoRepeats(h: seq<byte>) {
    forall i, j :: 0 <= i < j && j + 1 < |h| ==> h[i] != h[j] || h[i + 1] != h[j + 1]
  }

  /** A copy of two bytes or more repeats two neighbours. */
  lemma CopyRepeats(h: seq<byte>, a: seq<byte>, len: nat, dist: nat)
    requires len >= 2 && 0 < dist <= |a| && Extend(a, len, dist) <= h
    ensures !NoRepeats(h)
  {
    var r, i := Extend(a, len, dist), |a| - dist;
    ExtendAt(a, len, dist, |a|);
    ExtendAt(a, len, dist, |a| + 1);
    assert r[i] == r[|a|] && r[i + 1] == r[|a| + 1];
    assert h[i] == r[i] && h[i + 1] == r[i + 1] && h[|a|] == r[|a|] && h[|a| + 1] == r[|a| + 1];
  }

  /** Items that give data without repeats are its bytes. */
  lemma {:induction false} OnlyLits(a: seq<byte>, xs: seq<Item>, h: seq<byte>)
    requires AllValid(a, xs) && Expand(a, xs) <= h && NoRepeats(h)
    ensures xs == Lits(Expand(a, xs)[|a|..])
    decreases xs
  {
    hide NoRepeats, Extend;
    if xs != [] {
      var b := Apply(a, xs[0]);
      assert b <= Expand(a, xs) <= h;
      if xs[0].Copy? { CopyRepeats(h, a, xs[0].len, xs[0].dist); }
      OnlyLits(b, xs[1..], h);
      var r := Expand(a, xs);
      assert r[|a|] == b[|a|] && r[|a|..][1..] == r[|b|..];
    }
  }

  /** Tokens for literals are the bytes. */
  lemma {:induction false} PlainTokens(ts: seq<nat>, s: seq<byte>)
    requires AllTokens(ts) && Items(ts) == Lits(s)
    ensures ts == Plain(s)
  {
    hide IsMatch, TokLength, TokOffset;
    if ts != [] {
      assert |s| == |Lits(s)| == |ts|;
      assert Items(ts)[0] == Lits(s)[0] && Items(ts)[1..] == Items(ts[1..]) && Lits(s)[1..] == Lits(s[1..]);
      PlainTokens(ts[1..], s[1..]);
      assert Plain(s)[1..] == Plain(s[1..]);
    }
  }

  /** Tokens that cover data without repeats. */
  lemma CoveredPlain(h: seq<byte>, from: nat, ts: seq<nat>, to: nat)
    requires Covered(h, from, ts, to) && NoRepeats(h)
    ensures from <= to <= |h| && ts == Plain(h[from..to])
  {
    OnlyLits(h[..from], Items(ts), h);
    assert h[..to][from..] == h[from..to];
    PlainTokens(ts, h[from..to]);
  }

  /** Every byte once. */
  function Bytes(n: nat): (s: seq<byte>)
    requires n <= 256
    ensures |s| == n && forall k :: 0 <= k < n ==> s[k] == k
  {
    seq(n, k requires 0 <= k < n => k)
  }

  lemma BytesDiffer()
    ensures NoRepeats([7] + Bytes(256))
  {
  }

  // ---------------------------------------------------------------------------------------------
  // The counts, and the size of any block for them.
  // ---------------------------------------------------------------------------------------------

  lemma {:induction false} PlainCounts(n: nat, s: nat)
    requires n <= 256
    ensures SymbolCount(Plain(Bytes(n)), s) == if s < n then 1 else 0
    ensures forall c :: OffsetCount(Plain(Bytes(n)), c) == 0
  {
    if n > 0 {
      var ts := Plain(Bytes(n));
      assert ts[..n - 1] == Plain(Bytes(n - 1)) && ts[n - 1] == n - 1;
      PlainCounts(n - 1, s);
    }
  }

  /** Every byte and the end of block are counted once. */
  lemma EndCounts(s: nat)
    ensures var ts := Plain(Bytes(256)) + [EOB_TOKEN];
      SymbolCount(ts, s) == (if s <= END_OF_BLOCK then 1 else 0) && forall c :: OffsetCount(ts, c) == 0
  {
    var us := Plain(Bytes(256));
    var ts := us + [EOB_TOKEN];
    assert ts[..256] == us && ts[256] == EOB_TOKEN;
    PlainCounts(256, s);
  }

  /** Sum of lengths. */
  function Total(l: seq<nat>): nat {
    if l == [] then 0 else l[0] + Total(l[1..])
  }

  lemma LengthWorth(l: nat)
    requires l <= 15
    ensures 128 * l + Pow2(15 - l) >= 1152
  {
    hide Pow2;
    Pow2Small();
    Pow2Large();
    if l < 9 { Pow2Mono(7, 15 - l); }
    if l == 7 { assert Pow2(8) == 256; }
    if l < 7 { Pow2Mono(9, 15 - l); }
    if l < 6 { Pow2Mono(10, 15 - l); }
    if l < 2 { Pow2Mono(11, 15 - l); }
  }

  /** Lengths that satisfy the Kraft inequality are nine on average, less two for every 128 of them. */
  lemma {:induction false} TotalLarge(l: seq<nat>)
    requires forall k :: 0 <= k < |l| ==> l[k] <= 15
    ensures 128 * Total(l) + HuffmanOptimal.KraftSum(l, 15) >= 1152 * |l|
  {
    hide Pow2;
    if l != [] {
      LengthWorth(l[0]);
      TotalLarge(l[1..]);
    }
  }

  lemma {:induction false} CostOnes(f: seq<nat>, l: seq<nat>, n: nat)
    requires |f| == |l| && n <= |f| && (forall s :: 0 <= s < n ==> f[s] == 1) && forall s :: n <= s < |f| ==> f[s] == 0
    ensures HuffmanOptimal.Cost(f, l) == Total(l[..n])
  {
    if f != [] {
      CostOnes(f[1..], l[1..], if n > 0 then n - 1 else 0);
      if n > 0 { assert l[..n][1..] == l[1..][..n - 1]; }
    }
  }

  lemma ZeroRun(cg: seq<nat>, acc: seq<nat>)
    requires GoodHead(cg, acc) && cg[0] > 16
    ensures (acc + HeadLengths(cg, acc))[|acc|] == 0
  {
  }

  /** Without zeros among the lengths, a code adds at most six of them and takes at least one bit. */
  lemma {:induction false} CodesTakeBits(codes: seq<nat>, cl: seq<nat>, cg: seq<nat>, acc: seq<nat>)
    requires |codes| == |cl| == CODEGEN_CODES && GoodCodegen(cg, acc) && UsedAll(cl, cg, acc)
    requires forall c :: 0 <= c < CODEGEN_CODES ==> HLen(codes[c]) == cl[c]
    requires acc != [] ==> acc[|acc| - 1] != 0
    requires forall k :: |acc| <= k < |ExpandCodegen(cg, acc)| ==> ExpandCodegen(cg, acc)[k] != 0
    ensures 6 * |CodegenEmit(codes, cg, acc)| >= |ExpandCodegen(cg, acc)| - |acc|
    decreases |cg|
  {
    hide HLen, CodeEmit;
    if cg != [] {
      var next := acc + HeadLengths(cg, acc);
      var r := ExpandCodegen(cg, acc);
      assert r == ExpandCodegen(cg[HeadSize(cg)..], next) && next <= r;
      forall k | |acc| <= k < |next| ensures next[k] != 0 { assert r[k] == next[k]; }
      if cg[0] > 16 { ZeroRun(cg, acc); }
      assert next[|next| - 1] != 0;
      CodesTakeBits(codes, cl, cg[HeadSize(cg)..], next);
      assert HLen(codes[cg[0]]) >= 1;
    }
  }

  /** A header for 258 lengths, none of them zero. */
  lemma LargeHeader(h: Hdr)
    requires GoodHdr(h) && |h.lit + h.off| == 258 && forall k :: 0 <= k < 258 ==> (h.lit + h.off)[k] != 0
    ensures |HdrBits(h)| >= 69
  {
    hide HLen, CodegenEmit, Fits, Acceptable, GoodCodegen, ExpandCodegen, UsedAll, CanonCodes;
    HdrSizes(h);
    var cl := LensOf(h.codes, CODEGEN_CODES);
    CodesTakeBits(h.codes, cl, h.cg, []);
  }

  /** Lengths for 257 symbols that all occur once. */
  lemma LargeTable(f: seq<nat>, lens: seq<nat>)
    requires OwnTable(f, lens) && |f| == LITERAL_CODES
    requires (forall s :: 0 <= s <= END_OF_BLOCK ==> f[s] == 1) && forall s :: END_OF_BLOCK < s < |f| ==> f[s] == 0
    ensures |lens| == |f| && (forall s :: 0 <= s <= END_OF_BLOCK ==> lens[s] > 0) &&
      HuffmanOptimal.Cost(f, lens) >= 2057
  {
    hide SortedEntries, Built, Complete, Single, Fits, HuffmanOptimal.Cost, HuffmanOptimal.KraftSum;
    var q :| SortedEntries(f, q) && Built(f, lens, 15, q);
    GeneratedTable(f, lens, 15, q);
    var sy := seq(257, k requires 0 <= k < 257 => k);
    PickFeasible(lens, sy);
    assert Pick(lens, sy) == lens[..257];
    TotalLarge(lens[..257]);
    KraftTop();
    CostOnes(f, lens, 257);
  }

  lemma KraftTop()
    ensures Pow2(15) == 32768
  {
    Pow2Large();
    assert Pow2(15) == 2 * Pow2(14) && Pow2(14) == 2 * Pow2(13);
  }

  /** With their own code the tokens take more than the 2096 bits of 257 stored bytes. */
  lemma LargeBlock(z: Sizes)
    requires FreshSizes(Plain(Bytes(256)) + [EOB_TOKEN], true, z)
    ensures z.dynamic >= 2096
  {
    hide GoodHdr, Standard, HdrBits, OwnTable, HuffmanOptimal.Cost, ExtraSize, ValidFreq, SymbolCount, OffsetCount,
         Plain, Bytes;
    var ts := Plain(Bytes(256)) + [EOB_TOKEN];
    var lf, of, a, b, lit, off, h :| FreshFrom(ts, true, lf, of, a, b, lit, off, h, z);
    forall s: nat ensures SymbolCount(ts, s) == (if s <= END_OF_BLOCK then 1 else 0) && NoMatches(ts) { EndCounts(s); }
    assert a == 257 by { assert lf[END_OF_BLOCK] != 0; }
    OffsetNothing(ts);
    assert b == 1;
    LargeTable(lf[..LITERAL_CODES], lit);
    OwnTableOf(of[..MAX_DIST_CODES], off);
    assert off[0] > 0;
    LargeHeader(h);
  }

  lemma OffsetNothing(ts: seq<nat>)
    requires NoMatches(ts)
    ensures forall c :: 0 <= c < OFFSET_SLOTS ==> OffsetCount(ts, c) == 0
  {
  }

  /** The block is stored. */
  lemma StoredAnyway(input: seq<byte>, asStored: bool)
    requires |input| == 257 && Chosen(Plain(Bytes(256)) + [EOB_TOKEN], Some(input), asStored)
    ensures asStored
  {
    hide FreshSizes;
    var ts := Plain(Bytes(256)) + [EOB_TOKEN];
    var z :| FreshSizes(ts, Storable(Some(input)), z) && (asStored <==> StoredWins(|ts|, z, Some(input)));
    LargeBlock(z);
  }

  // ---------------------------------------------------------------------------------------------
  // The run.
  // ---------------------------------------------------------------------------------------------

  /** What the compressor hands over for the dictionary 7 and every byte once: one block. */
  method Handed(nice: nat, lazy: nat, chain: nat)
    returns (written: seq<Lazy.Handed>, ghost cuts: seq<nat>, ghost leads: seq<nat>)
    requires chain > 0
    ensures |written| == 1 && written[0].Block? && written[0].sync && written[0].input == Some([7] + Bytes(256))
    ensures Lazy.Logged([7] + Bytes(256), written, cuts, leads) && cuts[0] == 1 && cuts[1] == 257
  {
    hide Lazy.Compressor.Valid, Lazy.Logged, Bytes;
    var c := new Lazy.Compressor(nice, lazy, chain);
    c.FillWindow([7]);
    assert c.all == [7];
    SmallWindow(c);
    c.Write(Bytes(256));
    c.Close();
    written, cuts, leads := c.written, c.cuts, c.leads;
    assert c.all[1 - 1..] == c.all;
  }

  lemma SmallWindow(c: Lazy.Compressor)
    requires c.Valid() && c.all == [7]
    ensures c.windowEnd <= 1
  {
  }

  /** The call for that block. */
  lemma CallFor(written: seq<Lazy.Handed>, cuts: seq<nat>, leads: seq<nat>, c: Call)
    requires |written| == 1 && written[0].Block? && written[0].sync && written[0].input == Some([7] + Bytes(256))
    requires Lazy.Logged([7] + Bytes(256), written, cuts, leads) && cuts[0] == 1 && cuts[1] == 257
    requires SameCall(written[0], c)
    ensures c.DynamicCall? && c.tokens == Plain(Bytes(256)) && c.sync && c.given && c.front + c.data == [7] + Bytes(256)
  {
    hide Covered, Plain, NoRepeats;
    var all := [7] + Bytes(256);
    assert Lazy.Piece(all, written[0], cuts[0], cuts[1], leads[0]);
    BytesDiffer();
    CoveredPlain(all, 1, written[0].tokens, 257);
    assert all[1..257] == Bytes(256);
  }

  lemma OneCall(cs: seq<Call>)
    requires |cs| == 1
    ensures AllData(cs) == DataOf(cs[0])
  {
    assert cs[1..] == [];
  }

  lemma OneStored(cs: seq<Call>, stored: seq<bool>)
    requires |cs| == |stored| == 1 && cs[0].DynamicCall? && stored[0]
    ensures Fronts(cs, stored) == cs[0].front
  {
    assert cs[1..] == [] && stored[1..] == [];
  }

  /** With the dictionary 7, what comes out for every byte once is the dictionary and then every byte. */
  method DictStored(w: Writer, nice: nat, lazy: nat, chain: nat, sizes: seq<nat>, partialFlush: bool)
    returns (out: seq<byte>)
    requires Idle(w) && !w.hdr.valid && chain > 0 && sizes != [] && forall k :: 0 <= k < |sizes| ==> sizes[k] > 0
    modifies w.Footprint()
    ensures out == [7] + Bytes(256) != Bytes(256) && Idle(w)
  {
    hide Idle, Writer.Footprint, GoodCalls, AllData, Fronts, Bytes, Chosen, SameCall, Lazy.Logged, FrontOnce, Preset;
    PresetSize([7]);
    var written;
    ghost var cuts, leads;
    written, cuts, leads := Handed(nice, lazy, chain);
    ghost var all := [7] + Bytes(256);
    assert all[..1] == [7] && all[..257] == all;
    LoggedSizes(all, written, cuts, leads);
    var calls := CallsFrom(written, [7], all, cuts, leads);
    CallFor(written, cuts, leads, calls[0]);
    OneCall(calls);
    Rest([7], calls[0].data, Bytes(256));
    ghost var stored;
    out, stored := EncodeDecode(w, [7], calls, sizes, partialFlush);
    StoredAnyway(calls[0].front + calls[0].data, stored[0]);
    OneStored(calls, stored);
    Same7(calls[0].front, Bytes(256));
    Rest([7], out, [7] + Bytes(256));
  }

  lemma LoggedSizes(all: seq<byte>, written: seq<Lazy.Handed>, cuts: seq<nat>, leads: seq<nat>)
    requires Lazy.Logged(all, written, cuts, leads)
    ensures |cuts| == |written| + 1
  {
  }

  /** What is in front of the data is the dictionary. */
  lemma Same7(front: seq<byte>, data: seq<byte>)
    requires front + data == [7] + data
    ensures front == [7] && [7] + data != data
  {
    assert |front| == 1;
    assert front == (front + data)[..1];
    assert |[7] + data| == |data| + 1;
  }
}
