/** Sizes of a block in its three forms, as the block writer computes them, and the choice they give. */
module BlockSize {
  import opened Words
  import opened Canon
  import HuffmanOptimal
  import opened Lz
  import opened LzCodes
  import opened Format
  import opened Tokens
  import opened TokenBuffer
  import opened BitReader
  import opened Blocks
  import opened HuffmanCodes

  /** Blocks with fewer tokens may take the fixed code. */
  const MAX_PREDEFINED: nat := 250

  /** Extra bits of the lengths with the first k codes. */
  function LengthExtras(lf: seq<nat>, k: nat): nat
    requires k <= 29 && END_OF_BLOCK + 1 + k <= |lf|
  {
    if k == 0 then 0 else LengthExtras(lf, k - 1) + lf[END_OF_BLOCK + k] * LengthExtra(k - 1)
  }

  /** Extra bits of the distances with the first k codes. */
  function OffsetExtras(of: seq<nat>, k: nat): nat
    requires k <= 30 && k <= |of|
  {
    if k == 0 then 0 else OffsetExtras(of, k - 1) + of[k - 1] * OffsetExtra(k - 1)
  }

  function ExtraSize(lf: seq<nat>, of: seq<nat>): nat
    requires |lf| >= LITERAL_CODES && |of| >= MAX_DIST_CODES
  {
    LengthExtras(lf, 29) + OffsetExtras(of, 30)
  }

  method ExtraBitSize(lf: seq<nat>, of: seq<nat>) returns (total: nat)
    requires |lf| >= LITERAL_CODES && |of| >= MAX_DIST_CODES
    ensures total == ExtraSize(lf, of)
  {
    total := 0;
    for i := 0 to 29
      invariant total == LengthExtras(lf, i)
    {
      total := total + lf[END_OF_BLOCK + 1 + i] * LengthExtra(i);
    }
    for i := 0 to 30
      invariant total == LengthExtras(lf, 29) + OffsetExtras(of, i)
    {
      total := total + of[i] * OffsetExtra(i);
    }
  }

  /** Sizes with a code of the block's own, header included, and with the fixed code. */
  datatype Sizes = Sizes(dynamic: nat, fixed: nat)

  /** The fixed code is at least as good, and the block is small enough for it. */
  predicate FixedWins(n: nat, z: Sizes) {
    n < MAX_PREDEFINED && z.fixed <= z.dynamic
  }

  function StoredSize(input: seq<byte>): nat {
    (|input| + 5) * 8
  }

  /** Stored bytes are at least as good as the better of the two codes. */
  predicate StoredWins(n: nat, z: Sizes, input: Option<seq<byte>>) {
    && input.Some? && |input.value| <= MAX_STORED
    && StoredSize(input.value) <= if FixedWins(n, z) then z.fixed else z.dynamic
  }

  /** Both sizes, from the lengths of the codes and the size of the header. */
  ghost function SizesOf(lf: seq<nat>, of: seq<nat>, lit: seq<nat>, off: seq<nat>, header: nat, extra: nat): Sizes
    requires |lf| >= LITERAL_CODES == |lit| && |of| >= MAX_DIST_CODES == |off|
  {
    FixedSizes();
    var l, o := lf[..LITERAL_CODES], of[..MAX_DIST_CODES];
    Sizes(header + HuffmanOptimal.Cost(l, lit) + HuffmanOptimal.Cost(o, off) + extra,
          3 + HuffmanOptimal.Cost(l, FixedLit()[..LITERAL_CODES]) +
            HuffmanOptimal.Cost(o, FixedOff()[..MAX_DIST_CODES]) + extra)
  }

  lemma FixedSizes()
    ensures |FixedLit()| >= LITERAL_CODES && |FixedOff()| >= MAX_DIST_CODES
  {
  }

  /** The size of the symbols under a table with these lengths. */
  method TableBits(codes: seq<nat>, freq: seq<nat>, ghost lens: seq<nat>) returns (total: nat)
    requires |freq| == |lens| <= |codes| && forall s :: 0 <= s < |freq| ==> HLen(codes[s]) == lens[s]
    ensures total == HuffmanOptimal.Cost(freq, lens)
  {
    hide HLen, SizeTo, HuffmanOptimal.Cost;
    total := BitLength(codes, freq);
    SizeIsCost(codes, freq, lens, |freq|);
    assert freq[..|freq|] == freq && lens[..|freq|] == lens;
  }

  /** The sizes, as the sums that the encoders keep. */
  method ComputeSizes(lf: seq<nat>, of: seq<nat>, litCodes: seq<nat>, offCodes: seq<nat>, fixedLit: seq<nat>,
          fixedOff: seq<nat>, header: nat, extra: nat, ghost lit: seq<nat>, ghost off: seq<nat>)
    returns (z: Sizes)
    requires |lf| >= LITERAL_CODES == |lit| == |litCodes| == |fixedLit|
    requires |of| >= MAX_DIST_CODES == |off| == |offCodes| == |fixedOff|
    requires forall s :: 0 <= s < LITERAL_CODES ==> HLen(litCodes[s]) == lit[s] && HLen(fixedLit[s]) == FixedLit()[s]
    requires forall s :: 0 <= s < MAX_DIST_CODES ==> HLen(offCodes[s]) == off[s] && HLen(fixedOff[s]) == FixedOff()[s]
    ensures z == SizesOf(lf, of, lit, off, header, extra)
  {
    hide HLen, HuffmanOptimal.Cost, FixedLit, FixedOff;
    FixedSizes();
    var l, o := lf[..LITERAL_CODES], of[..MAX_DIST_CODES];
    var a := TableBits(litCodes, l, lit);
    var b := TableBits(offCodes, o, off);
    var c := TableBits(fixedLit, l, FixedLit()[..LITERAL_CODES]);
    var d := TableBits(fixedOff, o, FixedOff()[..MAX_DIST_CODES]);
    z := Sizes(header + a + b + extra, 3 + c + d + extra);
  }

  /** Sizes by code words are sizes by lengths. */
  lemma {:induction false} SizeIsCost(codes: seq<nat>, freq: seq<nat>, lens: seq<nat>, k: nat)
    requires k <= |freq| == |lens| <= |codes| && forall s :: 0 <= s < |freq| ==> HLen(codes[s]) == lens[s]
    ensures SizeTo(codes, freq, k) == HuffmanOptimal.Cost(freq[..k], lens[..k])
  {
    hide HLen;
    if k == 0 {
      assert freq[..0] == [] && lens[..0] == [];
    } else {
      SizeIsCost(codes, freq, lens, k - 1);
      assert freq[..k] == freq[..k - 1] + [freq[k - 1]] && lens[..k] == lens[..k - 1] + [lens[k - 1]];
      HuffmanOptimal.CostConcat(freq[..k - 1], [freq[k - 1]], lens[..k - 1], [lens[k - 1]]);
      HuffmanOptimal.CostOne(freq[k - 1], lens[k - 1]);
    }
  }
}
