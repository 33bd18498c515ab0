/** Run-length coding of code lengths (section 3.2.7 of RFC 1951), done in place: lengths turn into
    codes 0 to 18 with their repeat counts without overwriting lengths that are still to be read. */
module Codegen {
  import opened Words
  import opened Canon

  const BAD_CODE: nat := 255
  const CODEGEN_CODES: nat := 19
  const CODEGEN_SIZE: nat := 317

  function Repeat(v: nat, n: nat): (s: seq<nat>)
    ensures |s| == n && forall k :: 0 <= k < n ==> s[k] == v
  {
    seq(n, _ => v)
  }

  /** The first code of cg, with its count when it is a repeat, can follow the lengths acc. */
  predicate GoodHead(cg: seq<nat>, acc: seq<nat>) {
    && cg != []
    && (cg[0] < 16 || (|cg| >= 2 && (
        || (cg[0] == 16 && cg[1] <= 3 && acc != [])
        || (cg[0] == 17 && cg[1] <= 7)
        || (cg[0] == 18 && cg[1] <= 127))))
  }

  /** How many entries the first code takes. */
  function HeadSize(cg: seq<nat>): nat
    requires cg != []
  {
    if cg[0] < 16 then 1 else 2
  }

  /** The lengths that the first code adds. */
  function HeadLengths(cg: seq<nat>, acc: seq<nat>): (r: seq<nat>)
    requires GoodHead(cg, acc)
    ensures |r| >= 1
  {
    if cg[0] < 16 then [cg[0]]
    else if cg[0] == 16 then Repeat(acc[|acc| - 1], 3 + cg[1])
    else if cg[0] == 17 then Repeat(0, 3 + cg[1])
    else Repeat(0, 11 + cg[1])
  }

  predicate GoodCodegen(cg: seq<nat>, acc: seq<nat>)
    decreases |cg|
  {
    cg == [] || (GoodHead(cg, acc) && GoodCodegen(cg[HeadSize(cg)..], acc + HeadLengths(cg, acc)))
  }

  /** The lengths that the codes stand for, after those in acc. */
  function ExpandCodegen(cg: seq<nat>, acc: seq<nat>): (r: seq<nat>)
    requires GoodCodegen(cg, acc)
    ensures acc <= r
    decreases |cg|
  {
    if cg == [] then acc else ExpandCodegen(cg[HeadSize(cg)..], acc + HeadLengths(cg, acc))
  }

  /** How often code c occurs. */
  function CodeCount(cg: seq<nat>, acc: seq<nat>, c: nat): nat
    requires GoodCodegen(cg, acc)
    decreases |cg|
  {
    if cg == [] then 0
    else (if cg[0] == c then 1 else 0) + CodeCount(cg[HeadSize(cg)..], acc + HeadLengths(cg, acc), c)
  }

  lemma {:induction false} CodegenConcat(a: seq<nat>, b: seq<nat>, acc: seq<nat>)
    requires GoodCodegen(a, acc) && GoodCodegen(b, ExpandCodegen(a, acc))
    ensures GoodCodegen(a + b, acc)
    ensures ExpandCodegen(a + b, acc) == ExpandCodegen(b, ExpandCodegen(a, acc))
    ensures forall c :: CodeCount(a + b, acc, c) == CodeCount(a, acc, c) + CodeCount(b, ExpandCodegen(a, acc), c)
    decreases |a|
  {
    hide HeadLengths, HeadSize, GoodHead;
    if a == [] {
      assert a + b == b;
    } else {
      HeadConcat(a, b, acc);
      CodegenConcat(a[HeadSize(a)..], b, acc + HeadLengths(a, acc));
    }
  }

  lemma HeadConcat(a: seq<nat>, b: seq<nat>, acc: seq<nat>)
    requires GoodHead(a, acc)
    ensures GoodHead(a + b, acc) && HeadSize(a + b) == HeadSize(a) && HeadLengths(a + b, acc) == HeadLengths(a, acc)
    ensures 1 <= HeadSize(a) <= |a| && (a + b)[HeadSize(a)..] == a[HeadSize(a)..] + b && (a + b)[0] == a[0]
  {
  }

  /** One code with its count. */
  lemma OneCode(x: seq<nat>, acc: seq<nat>)
    requires GoodHead(x, acc) && |x| == HeadSize(x)
    ensures GoodCodegen(x, acc) && ExpandCodegen(x, acc) == acc + HeadLengths(x, acc)
    ensures forall c :: CodeCount(x, acc, c) == if x[0] == c then 1 else 0
  {
    assert x[HeadSize(x)..] == [];
  }

  /** Codes written so far, what they stand for, and how often each occurs. */
  ghost predicate Coded(cg: seq<nat>, freq: seq<nat>, lens: seq<nat>) {
    && GoodCodegen(cg, []) && ExpandCodegen(cg, []) == lens && |freq| == CODEGEN_CODES
    && forall c :: 0 <= c < CODEGEN_CODES ==> freq[c] == CodeCount(cg, [], c)
  }

  /** Adding one code. */
  lemma AddCode(cg: seq<nat>, freq: seq<nat>, lens: seq<nat>, x: seq<nat>)
    requires Coded(cg, freq, lens) && GoodHead(x, lens) && |x| == HeadSize(x)
    ensures x[0] < CODEGEN_CODES
    ensures Coded(cg + x, freq[x[0] := freq[x[0]] + 1], lens + HeadLengths(x, lens))
  {
    OneCode(x, lens);
    CodegenConcat(cg, x, []);
  }

  /** The codes of a run of count lengths, greedily from its start. */
  function RunCode(size: nat, count: nat): seq<nat>
    requires count >= 1
  {
    if size != 0 then [size] + RestCode(size, count - 1) else ZeroCodes(count)
  }

  /** The rest of a run that is not of zeros: repeats of up to six, and at most two plain lengths. */
  function RestCode(size: nat, left: nat): seq<nat> {
    if left < 3 then Repeat(size, left)
    else var n := if left < 6 then left else 6; [16, n - 3] + RestCode(size, left - n)
  }

  /** A run of zeros: repeats of up to 138, then one of up to ten or at most two plain zeros. */
  function ZeroCodes(left: nat): seq<nat> {
    if left < 3 then Repeat(0, left)
    else if left < 11 then [17, left - 3]
    else var n := if left < 138 then left else 138; [18, n - 11] + ZeroCodes(left - n)
  }

  /** How many equal lengths there are at the end. */
  function LastRun(lens: seq<nat>): (c: nat)
    requires lens != []
    ensures 1 <= c <= |lens| && forall k :: |lens| - c <= k < |lens| ==> lens[k] == lens[|lens| - 1]
    ensures c < |lens| ==> lens[|lens| - c - 1] != lens[|lens| - 1]
  {
    var k := |lens| - 1;
    if k > 0 && lens[k - 1] == lens[k] then 1 + LastRun(lens[..k]) else 1
  }

  /** The run-length codes of a vector: run by run. */
  function CodegenOf(lens: seq<nat>): seq<nat> {
    if lens == [] then []
    else
      var c := LastRun(lens);
      CodegenOf(lens[..|lens| - c]) + RunCode(lens[|lens| - 1], c)
  }

  /** A run that is as long as it can be is coded after what is in front of it. */
  lemma CodegenOfRun(a: seq<nat>, size: nat, count: nat)
    requires count >= 1 && (a != [] ==> a[|a| - 1] != size)
    ensures CodegenOf(a + Repeat(size, count)) == CodegenOf(a) + RunCode(size, count)
  {
    hide RunCode, LastRun;
    var s := a + Repeat(size, count);
    LastRunIs(a, size, count);
    assert s[|s| - 1] == size && s[..|s| - count] == a;
  }

  lemma LastRunIs(a: seq<nat>, size: nat, count: nat)
    requires count >= 1 && (a != [] ==> a[|a| - 1] != size)
    ensures LastRun(a + Repeat(size, count)) == count
  {
    var s := a + Repeat(size, count);
    hide *;
    assert forall k :: |a| <= k < |s| ==> s[k] == size;
    if a != [] { assert s[|a| - 1] != size; }
  }

  lemma RepeatAdd(v: nat, m: nat, n: nat)
    ensures Repeat(v, m) + Repeat(v, n) == Repeat(v, m + n)
  {
  }

  /** State of the coding in the middle of a run: done counts of the run are coded. */
  ghost predicate Running(codegen: array<nat>, freq: array<nat>, outIndex: nat, before: seq<nat>, size: nat, done: nat)
    reads codegen, freq
  {
    && codegen.Length == CODEGEN_SIZE && outIndex <= CODEGEN_SIZE && freq.Length == CODEGEN_CODES
    && Coded(codegen[..outIndex], freq[..], before + Repeat(size, done))
  }

  /** Writes one plain length. */
  method PutLength(codegen: array<nat>, freq: array<nat>, outIndex: nat, size: nat, ghost before: seq<nat>,
          ghost done: nat)
    requires codegen != freq && size < 16 && outIndex < CODEGEN_SIZE == codegen.Length
    requires Running(codegen, freq, outIndex, before, size, done)
    modifies codegen, freq
    ensures Running(codegen, freq, outIndex + 1, before, size, done + 1)
    ensures codegen[..outIndex + 1] == old(codegen[..outIndex]) + [size]
    ensures forall k :: outIndex + 1 <= k < CODEGEN_SIZE ==> codegen[k] == old(codegen[k])
  {
    ghost var cg, fr := codegen[..outIndex], freq[..];
    AddCode(cg, fr, before + Repeat(size, done), [size]);
    codegen[outIndex] := size;
    freq[size] := freq[size] + 1;
    assert codegen[..outIndex + 1] == cg + [size];
    assert freq[..] == fr[size := fr[size] + 1];
    RepeatAdd(size, done, 1);
    assert before + Repeat(size, done) + [size] == before + Repeat(size, done + 1);
  }

  /** Writes one repeat code for n counts of the run. */
  method PutRepeat(codegen: array<nat>, freq: array<nat>, outIndex: nat, code: nat, x: nat, ghost size: nat,
                   ghost before: seq<nat>, ghost done: nat, ghost n: nat)
    requires codegen != freq && outIndex + 1 < CODEGEN_SIZE == codegen.Length
    requires Running(codegen, freq, outIndex, before, size, done)
    requires (code == 16 && x <= 3 && n == x + 3 && done > 0)
      || (size == 0 && code == 17 && x <= 7 && n == x + 3) || (size == 0 && code == 18 && x <= 127 && n == x + 11)
    modifies codegen, freq
    ensures Running(codegen, freq, outIndex + 2, before, size, done + n)
    ensures codegen[..outIndex + 2] == old(codegen[..outIndex]) + [code, x]
    ensures forall k :: outIndex + 2 <= k < CODEGEN_SIZE ==> codegen[k] == old(codegen[k])
  {
    ghost var cg, fr := codegen[..outIndex], freq[..];
    ghost var acc := before + Repeat(size, done);
    AddCode(cg, fr, acc, [code, x]);
    codegen[outIndex] := code;
    codegen[outIndex + 1] := x;
    freq[code] := freq[code] + 1;
    assert codegen[..outIndex + 2] == cg + [code, x];
    assert freq[..] == fr[code := fr[code] + 1];
    assert HeadLengths([code, x], acc) == Repeat(size, n);
    RepeatAdd(size, done, n);
    assert acc + Repeat(size, n) == before + Repeat(size, done + n);
  }

  /** The rest of a run as plain lengths. */
  method EmitPlain(codegen: array<nat>, freq: array<nat>, outIndex: nat, size: nat, count: nat,
                   ghost before: seq<nat>, ghost done: nat)
    returns (out: nat)
    requires codegen != freq && size < 16 && outIndex + count < CODEGEN_SIZE == codegen.Length
    requires Running(codegen, freq, outIndex, before, size, done)
    modifies codegen, freq
    ensures out == outIndex + count && Running(codegen, freq, out, before, size, done + count)
    ensures codegen[..out] == old(codegen[..outIndex]) + Repeat(size, count)
    ensures forall k :: outIndex + count <= k < CODEGEN_SIZE ==> codegen[k] == old(codegen[k])
  {
    hide Running;
    out := outIndex;
    var left: nat := count;
    ghost var all := codegen[..out] + Repeat(size, left);
    while left > 0
      invariant left <= count && out + left == outIndex + count
      invariant Running(codegen, freq, out, before, size, done + count - left)
      invariant codegen[..out] + Repeat(size, left) == all
      invariant forall k :: outIndex + count <= k < CODEGEN_SIZE ==> codegen[k] == old(codegen[k])
    {
      RepeatMore(codegen[..out], size, left);
      PutLength(codegen, freq, out, size, before, done + count - left);
      out := out + 1;
      left := left - 1;
    }
    assert codegen[..out] + Repeat(size, 0) == codegen[..out];
  }

  /** The rest of a run that is not of zeros. */
  method EmitRest(codegen: array<nat>, freq: array<nat>, outIndex: nat, size: nat, count: nat,
                  ghost before: seq<nat>, ghost done: nat)
    returns (out: nat)
    requires codegen != freq && size < 16 && outIndex + count < CODEGEN_SIZE == codegen.Length && done > 0
    requires Running(codegen, freq, outIndex, before, size, done)
    modifies codegen, freq
    ensures out <= outIndex + count && Running(codegen, freq, out, before, size, done + count)
    ensures codegen[..out] == old(codegen[..outIndex]) + RestCode(size, count)
    ensures forall k :: outIndex + count <= k < CODEGEN_SIZE ==> codegen[k] == old(codegen[k])
  {
    hide Running;
    out := outIndex;
    var left: nat := count;
    ghost var all := codegen[..out] + RestCode(size, left);
    while left >= 3
      invariant left <= count && out + left <= outIndex + count
      invariant Running(codegen, freq, out, before, size, done + count - left)
      invariant codegen[..out] + RestCode(size, left) == all
      invariant forall k :: outIndex + count <= k < CODEGEN_SIZE ==> codegen[k] == old(codegen[k])
    {
      var n := if left < 6 then left else 6;
      Join(codegen[..out], [16, n - 3], RestCode(size, left - n));
      PutRepeat(codegen, freq, out, 16, n - 3, size, before, done + count - left, n);
      out := out + 2;
      left := left - n;
    }
    out := EmitPlain(codegen, freq, out, size, left, before, done + count - left);
  }

  /** A run of zeros. */
  method EmitZeros(codegen: array<nat>, freq: array<nat>, outIndex: nat, count: nat, ghost before: seq<nat>)
    returns (out: nat)
    requires codegen != freq && outIndex + count < CODEGEN_SIZE == codegen.Length
    requires Running(codegen, freq, outIndex, before, 0, 0)
    modifies codegen, freq
    ensures out <= outIndex + count && Running(codegen, freq, out, before, 0, count)
    ensures codegen[..out] == old(codegen[..outIndex]) + ZeroCodes(count)
    ensures forall k :: outIndex + count <= k < CODEGEN_SIZE ==> codegen[k] == old(codegen[k])
  {
    hide Running;
    out := outIndex;
    var left: nat := count;
    ghost var all := codegen[..out] + ZeroCodes(left);
    while left >= 11
      invariant left <= count && out + left <= outIndex + count
      invariant Running(codegen, freq, out, before, 0, count - left)
      invariant codegen[..out] + ZeroCodes(left) == all
      invariant forall k :: outIndex + count <= k < CODEGEN_SIZE ==> codegen[k] == old(codegen[k])
    {
      var n := if left < 138 then left else 138;
      Join(codegen[..out], [18, n - 11], ZeroCodes(left - n));
      PutRepeat(codegen, freq, out, 18, n - 11, 0, before, count - left, n);
      out := out + 2;
      left := left - n;
    }
    if left >= 3 {
      PutRepeat(codegen, freq, out, 17, left - 3, 0, before, count - left, left);
      out := out + 2;
      return;
    }
    out := EmitPlain(codegen, freq, out, 0, left, before, count - left);
  }

  /** Codes a run of count lengths; it needs no more room than the run itself took. */
  method EmitRun(codegen: array<nat>, freq: array<nat>, outIndex: nat, size: nat, count: nat, ghost before: seq<nat>)
    returns (out: nat)
    requires codegen != freq && size < 16 && count >= 1 && outIndex + count < CODEGEN_SIZE == codegen.Length
    requires Running(codegen, freq, outIndex, before, size, 0)
    modifies codegen, freq
    ensures out <= outIndex + count && Running(codegen, freq, out, before, size, count)
    ensures codegen[..out] == old(codegen[..outIndex]) + RunCode(size, count)
    ensures forall k :: outIndex + count <= k < CODEGEN_SIZE ==> codegen[k] == old(codegen[k])
  {
    hide Running, RestCode, ZeroCodes;
    if size != 0 {
      Join(codegen[..outIndex], [size], RestCode(size, count - 1));
      PutLength(codegen, freq, outIndex, size, before, 0);
      out := EmitRest(codegen, freq, outIndex + 1, size, count - 1, before, 1);
    } else {
      out := EmitZeros(codegen, freq, outIndex, count, before);
    }
  }

  lemma Join(s: seq<nat>, a: seq<nat>, b: seq<nat>)
    ensures s + (a + b) == s + a + b
  {
  }

  lemma RepeatMore(s: seq<nat>, v: nat, n: nat)
    requires n > 0
    ensures s + Repeat(v, n) == s + [v] + Repeat(v, n - 1)
  {
  }

  /** Lengths of the first n code words. */
  function LensOf(codes: seq<nat>, n: nat): (l: seq<nat>)
    requires n <= |codes|
    ensures |l| == n && forall k :: 0 <= k < n ==> l[k] == HLen(codes[k])
  {
    seq(n, k requires 0 <= k < n => HLen(codes[k]))
  }

  /** The unread lengths and the end mark are where the copy put them. */
  predicate Unread(codegen: array<nat>, lens: seq<nat>, inIndex: nat)
    reads codegen
  {
    && codegen.Length == CODEGEN_SIZE && inIndex <= |lens| < CODEGEN_SIZE
    && (forall k :: inIndex <= k < |lens| ==> codegen[k] == lens[k]) && codegen[|lens|] == BAD_CODE
  }

  /** Copies both length arrays behind each other and marks the end. */
  method CopyLengths(codegen: array<nat>, litCodes: seq<nat>, numLiterals: nat, offCodes: seq<nat>, numOffsets: nat)
    requires codegen.Length == CODEGEN_SIZE && numLiterals + numOffsets < CODEGEN_SIZE
    requires numLiterals <= |litCodes| && numOffsets <= |offCodes|
    modifies codegen
    ensures Unread(codegen, LensOf(litCodes, numLiterals) + LensOf(offCodes, numOffsets), 0)
  {
    for i := 0 to numLiterals
      invariant forall k :: 0 <= k < i ==> codegen[k] == HLen(litCodes[k])
    {
      codegen[i] := HLen(litCodes[i]);
    }
    for i := 0 to numOffsets
      invariant forall k :: 0 <= k < numLiterals ==> codegen[k] == HLen(litCodes[k])
      invariant forall k :: numLiterals <= k < numLiterals + i ==> codegen[k] == HLen(offCodes[k - numLiterals])
    {
      codegen[numLiterals + i] := HLen(offCodes[i]);
    }
    codegen[numLiterals + numOffsets] := BAD_CODE;
  }

  /** The run that has been read but not coded. */
  predicate Pending(lens: seq<nat>, inIndex: nat, size: nat, count: nat) {
    && 1 <= count <= inIndex <= |lens| && size < 16
    && lens[..inIndex] == lens[..inIndex - count] + Repeat(size, count)
    && (count < inIndex ==> lens[inIndex - count - 1] != size)
  }

  lemma PendingMore(lens: seq<nat>, inIndex: nat, size: nat, count: nat)
    requires Pending(lens, inIndex, size, count) && inIndex < |lens| && lens[inIndex] == size
    ensures Pending(lens, inIndex + 1, size, count + 1)
  {
    assert lens[..inIndex + 1] == lens[..inIndex] + [size];
    assert Repeat(size, count) + [size] == Repeat(size, count + 1);
    assert lens[..inIndex + 1 - (count + 1)] == lens[..inIndex - count];
  }

  lemma PendingNew(lens: seq<nat>, inIndex: nat)
    requires inIndex < |lens| && lens[inIndex] < 16 && (inIndex > 0 ==> lens[inIndex - 1] != lens[inIndex])
    ensures Pending(lens, inIndex + 1, lens[inIndex], 1)
  {
    assert lens[..inIndex + 1] == lens[..inIndex] + [lens[inIndex]];
    assert Repeat(lens[inIndex], 1) == [lens[inIndex]];
  }

  lemma NothingCoded()
    ensures Coded([], Repeat(0, CODEGEN_CODES), []) && CodegenOf([]) == []
  {
  }

  lemma RunDone(codegen: array<nat>, freq: array<nat>, out: nat, lens: seq<nat>, inIndex: nat, size: nat, count: nat,
          next: nat)
    requires Pending(lens, inIndex, size, count)
    requires Running(codegen, freq, out, lens[..inIndex - count], size, count)
    ensures Running(codegen, freq, out, lens[..inIndex], next, 0)
    ensures CodegenOf(lens[..inIndex]) == CodegenOf(lens[..inIndex - count]) + RunCode(size, count)
    ensures lens[inIndex - 1] == size
  {
    hide CodegenOf, RunCode;
    assert lens[..inIndex] + Repeat(next, 0) == lens[..inIndex];
    assert lens[..inIndex][inIndex - 1] == Repeat(size, count)[count - 1];
    var a := lens[..inIndex - count];
    if a != [] { assert a[|a| - 1] == lens[inIndex - count - 1]; }
    CodegenOfRun(a, size, count);
  }

  /** Run-length codes the lengths of the first code words of both tables. */
  method GenerateCodegen(codegen: array<nat>, freq: array<nat>, litCodes: seq<nat>, numLiterals: nat,
                         offCodes: seq<nat>, numOffsets: nat) returns (ghost n: nat)
    requires codegen != freq && codegen.Length == CODEGEN_SIZE && freq.Length == CODEGEN_CODES
    requires 1 <= numLiterals && numLiterals + numOffsets < CODEGEN_SIZE
    requires numLiterals <= |litCodes| && numOffsets <= |offCodes|
    requires GoodCodes(litCodes) && GoodCodes(offCodes)
    modifies codegen, freq
    ensures n < CODEGEN_SIZE && codegen[n] == BAD_CODE
    ensures Coded(codegen[..n], freq[..], LensOf(litCodes, numLiterals) + LensOf(offCodes, numOffsets))
    ensures codegen[..n] == CodegenOf(LensOf(litCodes, numLiterals) + LensOf(offCodes, numOffsets))
  {
    hide Coded, GoodCodes, Pending, CodegenOf, RunCode;
    for i := 0 to CODEGEN_CODES
      invariant forall k :: 0 <= k < i ==> freq[k] == 0
    {
      freq[i] := 0;
    }
    CopyLengths(codegen, litCodes, numLiterals, offCodes, numOffsets);
    ghost var lens := LensOf(litCodes, numLiterals) + LensOf(offCodes, numOffsets);
    SmallLengths(litCodes, numLiterals, offCodes, numOffsets);
    NothingCoded();
    assert codegen[..0] == [] && freq[..] == Repeat(0, CODEGEN_CODES) &&
      lens[..0] + Repeat(lens[0], 0) == lens[..0] == [];
    UnreadAt(codegen, lens, 0);
    var size: nat := codegen[0];
    var count: nat := 1;
    var outIndex: nat := 0;
    PendingNew(lens, 0);
    var inIndex: nat := 1;
    UnreadNext(codegen, lens, 0);
    while size != BAD_CODE
      invariant outIndex < CODEGEN_SIZE
      invariant size == BAD_CODE ==> Running(codegen, freq, outIndex, lens, 0, 0) && outIndex <= |lens|
      invariant size == BAD_CODE ==> codegen[..outIndex] == CodegenOf(lens)
      invariant size != BAD_CODE ==>
        && Pending(lens, inIndex, size, count) && Unread(codegen, lens, inIndex) && outIndex + count <= inIndex
        && Running(codegen, freq, outIndex, lens[..inIndex - count], size, 0)
        && codegen[..outIndex] == CodegenOf(lens[..inIndex - count])
      decreases CODEGEN_SIZE - inIndex, size != BAD_CODE
    {
      hide Running;
      PendingSize(lens, inIndex, size, count);
      UnreadAt(codegen, lens, inIndex);
      var nextSize: nat := codegen[inIndex];
      if nextSize == size {
        count := count + 1;
        PendingMore(lens, inIndex, size, count - 1);
        UnreadNext(codegen, lens, inIndex);
        assert inIndex + 1 - count == inIndex - (count - 1);
      } else {
        ghost var q := codegen[..];
        ghost var out := outIndex;
        outIndex := EmitRun(codegen, freq, outIndex, size, count, lens[..inIndex - count]);
        UnreadKept(codegen, q, lens, inIndex);
        if nextSize == BAD_CODE {
          EndMark(lens, inIndex, nextSize);
          RunDone(codegen, freq, outIndex, lens, inIndex, size, count, 0);
          assert lens[..inIndex] == lens;
        } else {
          EndMark(lens, inIndex, nextSize);
          RunDone(codegen, freq, outIndex, lens, inIndex, size, count, nextSize);
          PendingNew(lens, inIndex);
          UnreadNext(codegen, lens, inIndex);
        }
        size := nextSize;
        count := 1;
      }
      inIndex := inIndex + 1;
    }
    n := outIndex;
    assert lens + Repeat(0, 0) == lens;
    ghost var cg := codegen[..n];
    codegen[outIndex] := BAD_CODE;
    assert codegen[..n] == cg;
  }

  /** All lengths fit in four bits. */
  predicate Small(lens: seq<nat>) {
    forall k :: 0 <= k < |lens| ==> lens[k] < 16
  }

  lemma SmallLengths(litCodes: seq<nat>, m: nat, offCodes: seq<nat>, n: nat)
    requires GoodCodes(litCodes) && GoodCodes(offCodes) && m <= |litCodes| && n <= |offCodes|
    ensures Small(LensOf(litCodes, m) + LensOf(offCodes, n))
  {
  }

  lemma UnreadAt(codegen: array<nat>, lens: seq<nat>, k: nat)
    requires Unread(codegen, lens, k)
    ensures codegen.Length == CODEGEN_SIZE && k <= |lens| < CODEGEN_SIZE
    ensures codegen[k] == if k < |lens| then lens[k] else BAD_CODE
  {
  }

  lemma UnreadNext(codegen: array<nat>, lens: seq<nat>, k: nat)
    requires Unread(codegen, lens, k) && k < |lens|
    ensures Unread(codegen, lens, k + 1)
  {
  }

  lemma UnreadKept(codegen: array<nat>, q: seq<nat>, lens: seq<nat>, k: nat)
    requires codegen.Length == CODEGEN_SIZE == |q| && k <= |lens| < CODEGEN_SIZE
    requires forall i :: k <= i < CODEGEN_SIZE ==> codegen[i] == q[i]
    requires (forall i :: k <= i < |lens| ==> q[i] == lens[i]) && q[|lens|] == BAD_CODE
    ensures Unread(codegen, lens, k)
  {
  }

  lemma PendingSize(lens: seq<nat>, inIndex: nat, size: nat, count: nat)
    requires Pending(lens, inIndex, size, count)
    ensures 1 <= count <= inIndex <= |lens| && size < 16
  {
  }

  lemma EndMark(lens: seq<nat>, k: nat, v: nat)
    requires k <= |lens| && Small(lens) && v == if k < |lens| then lens[k] else BAD_CODE
    ensures v == BAD_CODE <==> k == |lens|
  {
  }
}
