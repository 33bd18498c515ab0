/** Two bytes that are no stream, but cut off where the reader takes the end of the input for the end of the
    stream. */
module CutStream {
  import opened Words
  import opened Canon
  import opened Lz
  import opened LzCodes
  import opened Format
  import opened BitReader
  import opened Blocks
  import opened InflateSpec
  import opened ReadSpec
  import opened ReadAgrees
  import opened RoundTrip

  /** A final block with the fixed code, cut off inside the extra bits of its first distance. */
  function CutStream(): seq<bool> {
    Opening(true, 1) + CodeBits(1, 7) + CodeBits(6, 5) + [false]
  }

  lemma FixedMatchBits()
    ensures Used(FixedLit(), FIRST_LENGTH) && SymBits(FixedLit(), FIRST_LENGTH) == CodeBits(1, 7)
    ensures Used(FixedOff(), 6) && SymBits(FixedOff(), 6) == CodeBits(6, 5)
  {
    hide FixedLit, FixedOff, CodeBits;
    FixedLitCode(FIRST_LENGTH);
    FixedOffCode(6);
  }

  lemma CutSymbols(rest: seq<bool>)
    requires rest == CodeBits(1, 7) + (CodeBits(6, 5) + [false])
    ensures DecodeSym(FixedLit(), rest) == Some(FIRST_LENGTH)
    ensures var r := rest[FixedLit()[FIRST_LENGTH]..]; DecodeSym(FixedOff(), r) == Some(6) && |r[FixedOff()[6]..]| == 1
  {
    hide FixedLit, FixedOff, CodeBits, SymBits, DecodeTo, Complete, Fits;
    var b, c := CodeBits(6, 5), [false];
    FixedMatchBits();
    FixedLitComplete();
    FixedOffComplete();
    CompleteFits(FixedLit());
    CompleteFits(FixedOff());
    SymFront(FixedLit(), FIRST_LENGTH, b + c);
    SymFront(FixedOff(), 6, c);
  }

  lemma CutStreamParts()
    ensures |CutStream()| == 16 && CutStream()[0] && CutStream()[1] && !CutStream()[2]
    ensures CutStream()[3..] == CodeBits(1, 7) + (CodeBits(6, 5) + [false])
  {
    var a, b := CodeBits(1, 7), CodeBits(6, 5);
    KindOf(CutStream());
    assert CutStream() == Opening(true, 1) + (a + (b + [false]));
  }


  lemma CutToken(t: Tables)
    ensures CutOff(FixedCodes(t), CutStream()[3..])
  {
    hide CutStream, FixedLit, FixedOff, CodeBits, DecodeTo;
    CutStreamParts();
    CutSymbols(CutStream()[3..]);
    FixedNotEmpty();
    var rest := CutStream()[3..][FixedLit()[FIRST_LENGTH]..];
    assert LengthExtra(0) == 0 && rest[0..] == rest;
  }

  /** They are no stream, and what they give is no data and a plain end. */
  lemma CutStreamIsCutOff(h: seq<byte>, t: Tables)
    ensures BytesBits(BytesOf(CutStream())) == CutStream() && |BytesOf(CutStream())| == 2
    ensures StreamOf(CutStream(), h, t, false) == Failed(h, Eof) && ReadStream(CutStream(), h) == None
  {
    hide CutStream, FixedLit, FixedOff, CodeBits, TokenOf, CutOff, ReadStream, BytesBits, BytesOf, ValueOf, HeaderOf;
    CutStreamParts();
    BitsOfBytes(CutStream());
    CutToken(t);
    CutIsEof(FixedCodes(t), CutStream()[3..]);
    KindOf(CutStream());
    StreamAgrees(CutStream(), h, t);
  }

  /** Read to the end, they give nothing and a plain end of input, although they are no stream. */
  method ReadCutStream(sizes: seq<nat>, partialFlush: bool) returns (out: seq<byte>, e: Err)
    requires sizes != [] && forall k :: 0 <= k < |sizes| ==> sizes[k] > 0
    ensures ReadStream(CutStream(), []) == None && out == [] && e == Eof
  {
    hide CutStream, ReadStream, StreamOf, BytesBits, BytesOf;
    CutStreamIsCutOff([], Tables([], []));
    out, e := DecodeAny(BytesOf(CutStream()), [], sizes, partialFlush);
    assert Preset([]) == [];
  }
}
