/** Encoder and decoder together: whatever goes into the writer comes out of the reader. */
module RoundTrip {
  import opened Words
  import opened Canon
  import opened DecoderTable
  import opened HuffmanDecoder
  import opened Lz
  import opened Format
  import opened BitReader
  import opened Blocks
  import opened ReadSpec
  import opened ReadAgrees
  import opened DictDecoder
  import opened HeaderReader
  import opened Inflate
  import opened BlockWriter
  import opened WriterRun

  /** The lengths of the fixed literal code (section 3.2.6 of RFC 1951), in the decoder's order. */
  method FixedLengths() returns (lens: array<nat>)
    ensures fresh(lens) && lens[..] == FixedLit()
  {
    lens := new nat[288];
    for i := 0 to 144
      invariant forall k :: 0 <= k < i ==> lens[k] == 8
    {
      lens[i] := 8;
    }
    for i := 144 to 256
      invariant forall k :: 0 <= k < i ==> lens[k] == FixedLength(k)
    {
      lens[i] := 9;
    }
    for i := 256 to 280
      invariant forall k :: 0 <= k < i ==> lens[k] == FixedLength(k)
    {
      lens[i] := 7;
    }
    for i := 280 to 288
      invariant forall k :: 0 <= k < i ==> lens[k] == FixedLength(k)
    {
      lens[i] := 8;
    }
  }

  /** The tables of the fixed literal code. */
  method FixedHuffmanDecoderInit() returns (d: Decoder)
    ensures fresh(d) && fresh(d.chunks) && d.chunks.Length == NUM_CHUNKS && d.maxRead == 7 && d.Holds(FixedLit())
  {
    hide Complete, Single, Empty, Decoder.Holds, FixedLit;
    d := new Decoder();
    var lens := FixedLengths();
    FixedLitComplete();
    FixedIsValid();
    var ok := d.Init(lens[..]);
    FixedShortest(d.maxRead);
  }

  lemma FixedIsValid()
    ensures ValidLens(FixedLit()) && !Empty(FixedLit()) && |FixedLit()| == 288
  {
    assert FixedLit()[0] == 8;
  }

  lemma FixedShortest(min: nat)
    requires Shortest(FixedLit(), min)
    ensures min == 7
  {
    assert FixedLit()[256] == 7;
  }

  /** Tables and scratch arrays of a decoder. */
  method NewTables() returns (h1: Decoder, h2: Decoder, fixedDecoder: Decoder, bits: array<nat>, codebits: array<nat>)
    ensures Places(h1, h2, bits, codebits) && h1.maxRead == 0 && h2.maxRead == 0
    ensures h1.Kept() && h2.Kept() && h1.last == [] && h2.last == []
    ensures fixedDecoder.chunks.Length == NUM_CHUNKS && fixedDecoder.maxRead == 7 && fixedDecoder.Holds(FixedLit())
    ensures fixedDecoder != h1 && fixedDecoder != h2
    ensures fixedDecoder.chunks !in {h1.chunks, h2.chunks, bits, codebits}
    ensures fresh({h1, h2, fixedDecoder} + {h1.chunks as object, h2.chunks, fixedDecoder.chunks, bits, codebits})
  {
    hide Decoder.Holds, Decoder.Kept, FixedLit;
    fixedDecoder := FixedHuffmanDecoderInit();
    h1 := new Decoder();
    h2 := new Decoder();
    bits := new nat[316];
    codebits := new nat[19];
    NewPlaces(h1, h2, bits, codebits);
  }

  method NewDict(preset: seq<byte>) returns (dict: Dict)
    ensures fresh(dict) && fresh(dict.hist) && dict.Valid() && dict.hist.Length == WINDOW && dict.AvailWrite() > 0
    ensures dict.all == dict.preset == Last(preset, Min(WINDOW, |preset|)) && dict.given == []
  {
    hide Dict.Valid;
    dict := new Dict();
    dict.Init(WINDOW, preset);
  }

  /** What the decoder gives for these bytes, after what counts of a preset dictionary. */
  function FateOf(data: seq<byte>, preset: seq<byte>): Fate {
    StreamOf(BytesBits(data), preset, Tables([], []), false)
  }

  /** A decoder for these bytes, with a preset dictionary. */
  method NewReader(data: seq<byte>, preset: seq<byte>, partialFlush: bool) returns (d: Decompressor)
    ensures fresh(d) && fresh(Parts(d)) && d.Running() && d.returned == []
    ensures d.dict.preset == Last(preset, Min(WINDOW, |preset|))
    ensures d.goal == FateOf(data, d.dict.preset)
  {
    hide StreamOf, BytesBits, BitsOf, Decoder.Holds, Decoder.Kept, Dict.Valid, Places, Decompressor.Running;
    var f := new Reader(data);
    var dict := NewDict(preset);
    var h1, h2, fixedDecoder, bits, codebits := NewTables();
    d := new Decompressor(f, h1, h2, fixedDecoder, bits, codebits, dict, partialFlush);
  }

  /** A decoder used again for other bytes: its tables are what they were, and empty codes are then read with
      them. */
  method ResetReader(d: Decompressor, data: seq<byte>, preset: seq<byte>) returns (r: Decompressor)
    requires d.Running() || d.Over()
    ensures fresh(r) && r.h1 == d.h1 && r.h2 == d.h2 && r.Running() && r.returned == []
    ensures r.dict.preset == Last(preset, Min(WINDOW, |preset|))
    ensures r.goal == StreamOf(BytesBits(data), r.dict.preset, d.Last(), false)
  {
    hide StreamOf, BytesBits, BitsOf, Decoder.Holds, Decoder.Kept, Dict.Valid, Places, Decompressor.Running,
         Decompressor.Over;
    TablesStay(d);
    var f := new Reader(data);
    var dict := NewDict(preset);
    r := new Decompressor(f, d.h1, d.h2, d.fixedDecoder, d.bits, d.codebits, dict, false);
  }

  lemma TablesStay(d: Decompressor)
    requires d.Running() || d.Over()
    ensures d.Apart() && d.TablesKept()
  {
  }

  lemma NewPlaces(h1: Decoder, h2: Decoder, bits: array<nat>, codebits: array<nat>)
    requires h1 != h2 && h1.chunks.Length == h2.chunks.Length == NUM_CHUNKS && bits.Length == 316 &&
      codebits.Length == 19
    requires bits != codebits && h1.chunks != h2.chunks
    requires bits != h1.chunks && bits != h2.chunks && codebits != h1.chunks && codebits != h2.chunks
    ensures Places(h1, h2, bits, codebits)
  {
  }

  /** Everything that reading may change. */
  ghost function Parts(d: Decompressor): set<object>
    reads d.dict`hist
  {
    {d as object, d.f, d.h1, d.h1.chunks, d.h2, d.h2.chunks, d.bits, d.codebits, d.dict, d.dict.hist}
  }

  /** Reads to the end, in pieces of any sizes: all bytes that the input gives, and the error that it gives. */
  method ReadAll(d: Decompressor, sizes: seq<nat>) returns (all: seq<byte>, e: Err)
    requires d.Running() && d.returned == [] && sizes != [] && forall k :: 0 <= k < |sizes| ==> sizes[k] > 0
    modifies Parts(d)
    ensures d.dict.preset == old(d.dict.preset)
    ensures d.dict.preset + all == old(d.goal).h && e == EndOf(old(d.goal)) && d.Over()
  {
    hide Decompressor.Running, Decompressor.Ended, Decompressor.Over;
    all, e := [], NoError;
    var i := 0;
    ghost var goal, preset := d.goal, d.dict.preset;
    d.GivenIsPrefix();
    assert preset + [] == preset && preset <= preset + d.dict.given;
    while e == NoError
      invariant (d.Running() || d.Over()) && d.returned == all && d.goal == goal && d.dict.preset == preset
      invariant d.dict.hist == old(d.dict.hist) && i < |sizes|
      invariant preset + all <= goal.h
      invariant e != NoError ==> preset + all == goal.h && e == EndOf(goal) && d.Over()
      decreases |goal.h| - |all|, if e == NoError then 1 else 0
    {
      var out;
      out, e := d.Read(sizes[i]);
      all := all + out;
      assert |preset + all| <= |goal.h|;
      i := if i + 1 < |sizes| then i + 1 else 0;
    }
  }

  /** What of a preset dictionary counts: its last 32768 bytes. */
  function Preset(dict: seq<byte>): (r: seq<byte>)
    ensures |dict| <= WINDOW ==> r == dict
  {
    Last(dict, Min(WINDOW, |dict|))
  }

  /** Any sequence of calls on a writer, over any number of streams, read back in pieces of any sizes. */
  method EncodeDecode(w: Writer, dict: seq<byte>, calls: seq<Call>, sizes: seq<nat>, partialFlush: bool)
    returns (out: seq<byte>, ghost stored: seq<bool>)
    requires Idle(w) && GoodCalls(Preset(dict), calls)
    requires sizes != [] && forall k :: 0 <= k < |sizes| ==> sizes[k] > 0
    modifies w.Footprint()
    ensures |stored| == |calls| && Preset(dict) + out == Fronts(calls, stored) + (Preset(dict) + AllData(calls))
    ensures calls != [] && !old(w.hdr.valid) ==> Decides(calls[0], stored[0])
    ensures Idle(w) && w.Footprint() == old(w.Footprint())
  {
    hide Idle, GoodCalls, ReadStream, BytesBits, Writer.Footprint, Decompressor.Running, Decides, Fronts, Preset;
    var bytes;
    ghost var padding;
    bytes, padding, stored := RunStream(w, Preset(dict), calls);
    out := Decode(bytes, dict, sizes, partialFlush);
  }

  /** Any bytes, read in pieces of any sizes: what they give and how they end. Of a stream the end is reported
      and its data given. */
  method DecodeAny(bytes: seq<byte>, dict: seq<byte>, sizes: seq<nat>, partialFlush: bool)
    returns (out: seq<byte>, e: Err)
    requires sizes != [] && forall k :: 0 <= k < |sizes| ==> sizes[k] > 0
    ensures var f := FateOf(bytes, Preset(dict)); Preset(dict) + out == f.h && e == EndOf(f)
    ensures var r := ReadStream(BytesBits(bytes), Preset(dict));
      r.Some? ==> Preset(dict) + out == r.value.0 && e == Eof
  {
    hide ReadStream, StreamOf, BytesBits, Decompressor.Running, Decompressor.Over;
    var d := NewReader(bytes, dict, partialFlush);
    StreamAgrees(BytesBits(bytes), Preset(dict), Tables([], []));
    out, e := ReadAll(d, sizes);
  }

  method Decode(bytes: seq<byte>, dict: seq<byte>, sizes: seq<nat>, partialFlush: bool) returns (out: seq<byte>)
    requires ReadStream(BytesBits(bytes), Preset(dict)).Some?
    requires sizes != [] && forall k :: 0 <= k < |sizes| ==> sizes[k] > 0
    ensures Preset(dict) + out == ReadStream(BytesBits(bytes), Preset(dict)).value.0
  {
    hide ReadStream, FateOf;
    var e;
    out, e := DecodeAny(bytes, dict, sizes, partialFlush);
  }
}
