/** The decoder: it stops whenever its window is full and goes on from where it stopped, and hands out,
    whatever the sizes of the reads, the bytes that the input stands for, and then the error that it ends with. */
module Inflate {
  import opened Words
  import opened Canon
  import opened DecoderTable
  import opened HuffmanDecoder
  import opened Lz
  import opened LzCodes
  import opened Format
  import opened Codegen
  import opened Header
  import opened BitReader
  import BitWriter
  import opened Blocks
  import opened InflateSpec
  import opened ReadSpec
  import opened DictDecoder
  import opened HeaderReader
  import opened TokenReader

  const WINDOW: nat := 32768

  datatype Step = StepNextBlock | StepCopyData | StepHuffman

  datatype State = StateInit | StateDict

  /** What the rest of the input gives after a copy that may not be finished. */
  function CopyOf(c: Codes, bits: seq<bool>, h: seq<byte>, len: nat, dist: nat, final: bool, borrowed: bool): Fate {
    if 1 <= dist <= |h| then BodyOf(c, bits, Extend(h, len, dist), final, borrowed) else Failed(h, CorruptInput)
  }

  class Decompressor {
    const f: Reader
    const h1: Decoder
    const h2: Decoder
    const fixedDecoder: Decoder
    const bits: array<nat>
    const codebits: array<nat>
    const dict: Dict
    const partialFlush: bool
    var step: Step
    var stepState: State
    var err: Err
    var toRead: seq<byte>
    /** Whether the block has the fixed codes: hl is then the fixed decoder and hd is nil. */
    var fixed: bool
    var copyLen: nat
    var copyDist: nat
    var final: bool

    /** What the input gives. */
    ghost var goal: Fate
    /** The codes of the block. */
    ghost var codes: Codes
    /** Whether an empty code has been read with what an earlier one had left. */
    ghost var borrowed: bool
    /** What Read has returned. */
    ghost var returned: seq<byte>

    /** The bits after the stream, if its end is reached. */
    ghost function Rest(): nat
      reads this`goal
    {
      if goal.Done? then |goal.rest| else 0
    }

    /** The codes that the tables were last made for. */
    ghost function Last(): Tables
      reads h1`last, h2`last
    {
      Tables(h1.last, h2.last)
    }

    /** Nothing is shared. */
    predicate Apart()
      reads dict`hist
    {
      && Places(h1, h2, bits, codebits) && fixedDecoder.chunks.Length == NUM_CHUNKS
      && fixedDecoder != h1 && fixedDecoder != h2
      && fixedDecoder.chunks != h1.chunks && fixedDecoder.chunks != h2.chunks
      && fixedDecoder.chunks != bits && fixedDecoder.chunks != codebits
      && dict.hist as object != bits && dict.hist as object != codebits
      && dict.hist as object != h1.chunks && dict.hist as object != h2.chunks
      && dict.hist as object != fixedDecoder.chunks
    }

    /** The tables hold what they were last made for, and those of the fixed code are in place. */
    ghost predicate TablesKept()
      reads h1, h1.chunks, h2, h2.chunks, fixedDecoder, fixedDecoder.chunks
    {
      && h1.Kept() && h2.Kept() && h1.maxRead <= 25 && h2.maxRead <= 25
      && fixedDecoder.maxRead == 7 && fixedDecoder.Holds(FixedLit())
    }

    /** What holds at any time. */
    ghost predicate Safe()
      reads this, f, h1, h1.chunks, h2, h2.chunks, fixedDecoder, fixedDecoder.chunks, dict, dict.hist
    {
      && Apart() && f.Valid() && dict.Valid() && dict.hist.Length == WINDOW && TablesKept()
      && (stepState == StateDict ==> 1 <= copyDist <= dict.HistSize())
      && dict.given == returned + toRead
    }

    /** The codes of the block are in place. */
    ghost predicate CodesIn()
      reads this`fixed, this`codes, this`final, h1, h1.chunks, h2, h2.chunks
    {
      && fixed == codes.fixed && Asks(codes, final)
      && if fixed then codes == FixedCodes(Last()) else HeaderIn(h1, h2, codes)
    }

    /** What the state stands for: all that decoding from here gives. */
    ghost function Meaning(): Fate
      reads this, f, dict, h1`last, h2`last
    {
      match step
      case StepNextBlock => StreamOf(f.Bits(), dict.all, Last(), borrowed)
      case StepCopyData => StoredOf(copyLen, f.Bits(), dict.all, final, Last(), borrowed)
      case StepHuffman => InsideMeaning(stepState == StateDict)
    }

    /** What is left inside a block stands for. */
    ghost function InsideMeaning(copying: bool): Fate
      reads this, f, dict
    {
      if copying then CopyOf(codes, f.Bits(), dict.all, copyLen, copyDist, final, borrowed)
      else BodyOf(codes, f.Bits(), dict.all, final, borrowed)
    }

    /** Nothing after the stream has been read. */
    ghost predicate Unread()
      reads this`goal, f
    {
      goal.Done? ==> f.Tight(Rest())
    }

    /** Between steps: the state stands for what the input gives. */
    ghost predicate Running()
      reads this, f, h1, h1.chunks, h2, h2.chunks, fixedDecoder, fixedDecoder.chunks, dict, dict.hist
    {
      && Safe() && err == NoError && dict.AvailWrite() > 0
      && (step == StepCopyData ==> f.nb == 0)
      && (step == StepNextBlock || (step == StepHuffman && stepState == StateInit) ==> copyLen == 0)
      && Meaning() == goal && Unread() && (step == StepHuffman ==> CodesIn())
    }

    /** At the end: what the input gives is there, with the error that it gives; and if it ends as a stream does,
        nothing after that has been read. */
    ghost predicate Ended()
      reads this, f, h1, h1.chunks, h2, h2.chunks, fixedDecoder, fixedDecoder.chunks, dict, dict.hist
    {
      && Safe() && err != NoError && err == EndOf(goal) && dict.all == goal.h
      && (goal.Done? ==> f.Bits() == goal.rest && f.nb < 8)
      && (toRead == [] || dict.Pending() == [])
    }

    /** At the end, with nothing left in the window. */
    ghost predicate Over()
      reads this, f, h1, h1.chunks, h2, h2.chunks, fixedDecoder, fixedDecoder.chunks, dict, dict.hist
    {
      Ended() && dict.rdPos <= dict.wrPos <= dict.hist.Length && dict.Pending() == []
    }

    constructor (f: Reader, h1: Decoder, h2: Decoder, fixedDecoder: Decoder, bits: array<nat>, codebits: array<nat>,
                 dict: Dict, partialFlush: bool)
      requires Places(h1, h2, bits, codebits) && fixedDecoder.chunks.Length == NUM_CHUNKS
      requires fixedDecoder != h1 && fixedDecoder != h2
      requires fixedDecoder.chunks != h1.chunks && fixedDecoder.chunks != h2.chunks
      requires fixedDecoder.chunks != bits && fixedDecoder.chunks != codebits
      requires dict.hist as object !in {bits as object, codebits, h1.chunks, h2.chunks, fixedDecoder.chunks}
      requires f.Valid() && dict.Valid() && dict.hist.Length == WINDOW && dict.AvailWrite() > 0 && dict.given == []
      requires h1.Kept() && h2.Kept() && h1.maxRead <= 25 && h2.maxRead <= 25
      requires fixedDecoder.maxRead == 7 && fixedDecoder.Holds(FixedLit()) && f.nb < 8
      ensures this.f == f && this.dict == dict && this.h1 == h1 && this.h2 == h2
      ensures this.bits == bits && this.codebits == codebits && Running() && returned == [] && toRead == []
      ensures goal == StreamOf(f.Bits(), dict.all, Tables(h1.last, h2.last), false)
    {
      hide BytesBits, BitsOf, Pow2, StreamOf, Window, Places, Decoder.Holds, Decoder.Kept, FixedLit;
      this.f, this.h1, this.h2, this.fixedDecoder, this.bits, this.codebits := f, h1, h2, fixedDecoder, bits, codebits;
      this.dict, this.partialFlush := dict, partialFlush;
      step, stepState, err, toRead := StepNextBlock, StateInit, NoError, [];
      fixed, copyLen, copyDist, final := false, 0, 0, false;
      goal := StreamOf(f.Bits(), dict.all, Tables(h1.last, h2.last), false);
      codes, borrowed, returned := FixedCodes(Tables([], [])), false, [];
      f.BitCount();
      StreamTakes(f.Bits(), dict.all, Tables(h1.last, h2.last), false);
    }

    // -------------------------------------------------------------------------------------------
    // Steps.
    // -------------------------------------------------------------------------------------------

    /** Hands out what is in the window. */
    method HandOut()
      requires Safe() && toRead == []
      modifies this`toRead, dict`rdPos, dict`wrPos, dict`flushed, dict`full, dict`given
      ensures Safe() && dict.AvailWrite() > 0 && dict.Pending() == [] && dict.HistSize() == old(dict.HistSize())
      ensures toRead == old(dict.Pending())
    {
      hide Window, Places, Decoder.Holds, Decoder.Kept, BytesBits, BitsOf, Pow2;
      toRead := dict.ReadFlush();
    }

    /** Ends a block. */
    method FinishBlock()
      requires Safe() && err == NoError && dict.AvailWrite() > 0 && copyLen == 0 &&
        (toRead == [] || dict.Pending() == [])
      requires AfterBlock(f.Bits(), dict.all, final, Last(), borrowed) == goal && Unread()
      modifies this`step, this`err, this`toRead, dict`rdPos, dict`wrPos, dict`flushed, dict`full, dict`given
      ensures if err == NoError then Running() && step == StepNextBlock else Ended()
      ensures f.Bits() == old(f.Bits())
    {
      hide BytesBits, BitsOf, Pow2, StreamOf, Window, Places, Decoder.Holds, Decoder.Kept;
      f.BitCount();
      dict.HistSizeIs();
      if final {
        if dict.AvailRead() > 0 {
          HandOut();
        }
        err := Eof;
      } else if partialFlush && dict.AvailRead() > 0 {
        HandOut();
      }
      step := StepNextBlock;
    }

    /** Takes bytes of a stored block to the window, as many as there are room for and input. */
    method TakeStored() returns (ok: bool)
      requires Safe() && err == NoError && f.nb == 0
      modifies this`copyLen, f`input, dict`wrPos, dict`all, dict.hist
      ensures Safe() && copyLen <= old(copyLen) && |f.Bits()| + 8 * (old(copyLen) - copyLen) == |old(f.Bits())|
      ensures StoredOf(copyLen, f.Bits(), dict.all, final, Last(), borrowed) ==
        StoredOf(old(copyLen), old(f.Bits()), old(dict.all), final, Last(), borrowed)
      ensures !ok ==> StoredOf(copyLen, f.Bits(), dict.all, final, Last(), borrowed) == Failed(dict.all, UnexpectedEof)
      ensures ok ==> dict.AvailWrite() == old(dict.AvailWrite()) - (old(copyLen) - copyLen)
      ensures ok && copyLen > 0 ==> dict.AvailWrite() == 0
    {
      hide BytesBits, BitsOf, Pow2, StreamOf, Window, Places, Decoder.Holds, Decoder.Kept, StoredOf;
      f.BitsAligned();
      f.BitCount();
      var cnt := Min(dict.AvailWrite(), copyLen);
      var data := f.input[..Min(cnt, |f.input|)];
      StoredBytes(copyLen, data, f.input, dict.all, final, Last(), borrowed);
      f.input := f.input[|data|..];
      copyLen := copyLen - |data|;
      dict.WriteSlice(data);
      f.BitsAligned();
      f.BitCount();
      ok := |data| == cnt;
      if !ok { NothingStored(copyLen, f.input, dict.all, final, Last(), borrowed); }
    }

    /** Stops inside a stored block with a full window. */
    method PauseStored()
      requires Safe() && err == NoError && dict.AvailWrite() == 0 && dict.Pending() != []
      requires toRead == [] && f.nb == 0
      requires StoredOf(copyLen, f.Bits(), dict.all, final, Last(), borrowed) == goal && Unread()
      modifies this`step, this`toRead, dict`rdPos, dict`wrPos, dict`flushed, dict`full, dict`given
      ensures Running() && toRead != [] && f.Bits() == old(f.Bits())
    {
      hide BytesBits, BitsOf, Pow2, Window, Places, Decoder.Holds, Decoder.Kept, StoredOf, CodesIn;
      dict.HistSizeIs();
      HandOut();
      step := StepCopyData;
    }

    /** Copies bytes of a stored block to the window; hands them out when it is full. */
    method CopyData()
      requires Safe() && err == NoError && dict.AvailWrite() > 0 && toRead == [] && f.nb == 0
      requires StoredOf(copyLen, f.Bits(), dict.all, final, Last(), borrowed) == goal && Unread()
      modifies this`step, this`err, this`toRead, this`copyLen, f`input, dict`wrPos, dict`rdPos, dict`flushed, dict`full,
               dict`all, dict`given, dict.hist
      ensures if err == NoError then Running() else Ended()
      ensures |f.Bits()| <= |old(f.Bits())|
      ensures err == NoError && toRead == [] ==> step == StepNextBlock
    {
      hide BytesBits, BitsOf, Pow2, Window, Places, Decoder.Holds, Decoder.Kept, StoredOf, CodesIn, AfterBlock;
      var ok := TakeStored();
      if !ok {
        Fail(UnexpectedEof);
        return;
      }
      f.BitCount();
      StoredTakes(copyLen, f.Bits(), dict.all, final, Last(), borrowed);
      if dict.AvailWrite() == 0 || copyLen > 0 {
        PauseStored();
        return;
      }
      NoneStored(f.Bits(), dict.all, final, Last(), borrowed);
      FinishBlock();
    }

    // -------------------------------------------------------------------------------------------
    // Coded blocks.
    // -------------------------------------------------------------------------------------------

    /** As much of a copy as there is room for. */
    method CopySome()
      requires Safe() && dict.AvailWrite() > 0 && 1 <= copyDist <= dict.HistSize()
      modifies this`copyLen, dict`wrPos, dict`all, dict.hist
      ensures Safe() && 1 <= copyDist <= dict.HistSize() && copyLen <= old(copyLen)
      ensures old(copyDist <= |dict.all|) && dict.all == Extend(old(dict.all), old(copyLen) - copyLen, copyDist)
      ensures copyLen > 0 ==> dict.AvailWrite() == 0
      ensures dict.Pending() == [] ==> dict.AvailWrite() > 0
    {
      hide BytesBits, BitsOf, Pow2, Window, Places, Decoder.Holds, Decoder.Kept, Extend;
      dict.HistSizeIs();
      ghost var h := dict.all;
      var cnt := dict.TryWriteCopy(copyDist, copyLen);
      if cnt == 0 {
        CopyNone(h, copyDist);
        cnt := dict.WriteCopy(copyDist, copyLen);
      }
      copyLen := copyLen - cnt;
    }

    /** Stops inside a block with a full window. */
    method Pause(copying: bool)
      requires Safe() && err == NoError && toRead == [] && dict.AvailWrite() == 0 && dict.Pending() != []
      requires if copying then 1 <= copyDist <= dict.HistSize() else copyLen == 0
      requires CodesIn() && Unread() && goal == InsideMeaning(copying)
      modifies this`toRead, this`step, this`stepState, dict`rdPos, dict`wrPos, dict`flushed, dict`full, dict`given
      ensures Running() && toRead != [] && err == NoError
    {
      hide BytesBits, BitsOf, Pow2, Window, Places, Decoder.Holds, Decoder.Kept, BodyOf, CopyOf, CodesIn;
      HandOut();
      step := StepHuffman;
      stepState := if copying then StateDict else StateInit;
    }

    /** Goes on with a copy; hands the window out when it is full. */
    method CopyHistory() returns (stop: bool)
      requires Inside(true)
      modifies this`copyLen, this`toRead, this`step, this`stepState, dict`wrPos, dict`rdPos, dict`flushed, dict`full,
               dict`all, dict`given, dict.hist
      ensures if stop then Running() && toRead != [] else Inside(false) && stepState == old(stepState)
    {
      hide BytesBits, BitsOf, Pow2, Window, Places, Decoder.Holds, Decoder.Kept, BodyOf, Extend, CodesIn, Dict.Valid;
      KnownHistory();
      ghost var h, n := dict.all, copyLen;
      CopySome();
      ExtendSplit(h, n - copyLen, copyLen, copyDist);
      KnownHistory();
      stop := dict.AvailWrite() == 0 || copyLen > 0;
      if stop {
        Pause(true);
      } else {
        CopyNone(dict.all, copyDist);
      }
    }

    /** The window reaches no further than the history. */
    lemma KnownHistory()
      requires Safe()
      ensures dict.HistSize() <= |dict.all| && (dict.HistSize() < WINDOW ==> dict.HistSize() == |dict.all|)
      ensures h1.chunks.Length == h2.chunks.Length == fixedDecoder.chunks.Length == NUM_CHUNKS
      ensures dict.rdPos <= dict.wrPos <= dict.hist.Length
    {
      dict.HistSizeIs();
    }

    /** The decoder for literals and lengths. */
    function Hl(): Decoder
      reads this`fixed
    {
      if fixed then fixedDecoder else h1
    }

    /** The tables are ready, and on a stream enough bits remain to ask for so many at once. */
    lemma ReadyToRead()
      requires Safe() && CodesIn() && BodyOf(codes, f.Bits(), dict.all, final, borrowed) == goal
      ensures TablesIn(Hl(), h2, fixed, codes)
      ensures goal.Done? ==> codes.ask + Rest() <= |f.Bits()|
    {
      hide BytesBits, BitsOf, Pow2, Window, Places, Decoder.Holds, Decoder.Kept, BodyOf, FixedLit, FixedOff, InPlace,
           AskFor, Complete, Single;
      KnownHistory();
      BodyTakes(codes, f.Bits(), dict.all, final, borrowed);
      FixedNotEmpty();
    }

    /** Ends with an error. */
    method Fail(e: Err)
      requires Safe() && e != NoError && toRead == [] && goal == Failed(dict.all, e)
      modifies this`err
      ensures Ended() && err == e
    {
      hide Window, Places, Decoder.Holds, Decoder.Kept, Dict.Valid, BytesBits, BitsOf, Pow2;
      err := e;
    }

    /** Inside a block, about to read a token or in the middle of a copy. */
    ghost predicate Inside(copying: bool)
      reads this, f, h1, h1.chunks, h2, h2.chunks, fixedDecoder, fixedDecoder.chunks, dict, dict.hist
    {
      && Safe() && err == NoError && toRead == [] && dict.AvailWrite() > 0
      && (if copying then 1 <= copyDist <= dict.HistSize() else copyLen == 0)
      && CodesIn() && Unread() && goal == InsideMeaning(copying)
    }

    /** A literal; hands the window out when it is full. */
    method PutLiteral(b: byte) returns (stop: bool)
      requires Safe() && err == NoError && toRead == [] && dict.AvailWrite() > 0 && copyLen == 0
      requires CodesIn() && Unread() && goal == BodyOf(codes, f.Bits(), dict.all + [b], final, borrowed)
      modifies this`toRead, this`step, this`stepState, dict`wrPos, dict`rdPos, dict`flushed, dict`full, dict`all,
               dict`given, dict.hist
      ensures if stop then Running() && toRead != [] else Inside(false) && stepState == old(stepState)
    {
      hide BytesBits, BitsOf, Pow2, Window, Places, Decoder.Holds, Decoder.Kept, BodyOf, CodesIn;
      dict.WriteByte(b);
      stop := dict.AvailWrite() == 0;
      if stop {
        Pause(false);
      }
    }

    /** What the rest of the input gives after a token. */
    ghost function TokenMeaning(tok: Token): Fate
      reads this, f, dict, h1`last, h2`last
    {
      match tok
      case TErr(e) => Failed(dict.all, e)
      case TLit(b) => BodyOf(codes, f.Bits(), dict.all + [b], final, borrowed)
      case TEnd => AfterBlock(f.Bits(), dict.all, final, Last(), borrowed)
      case TMatch(len, dist) =>
        CopyOf(codes, f.Bits(), dict.all, len, dist, final, borrowed || Borrows(codes, Copy(len, dist)))
    }

    /** Reads the token that comes next. */
    method NextToken() returns (tok: Token)
      requires Inside(false)
      modifies f
      ensures Safe() && CodesIn() && goal == TokenMeaning(tok)
      ensures !tok.TErr? ==> |f.Bits()| < |old(f.Bits())| && Unread()
      ensures (tok.TErr? ==> tok.e != NoError) && (tok.TMatch? ==> 1 <= tok.dist <= MAX_DIST)
    {
      hide BytesBits, BitsOf, Pow2, Window, Places, Decoder.Holds, Decoder.Kept, FixedLit, FixedOff, Empty, InPlace,
           TokenOf, Extend, BodyOf, CopyOf, AfterBlock, HeaderIn, Asks;
      ReadyToRead();
      KnownHistory();
      LastCodes();
      ghost var bits := f.Bits();
      BodyUnfold(codes, bits, dict.all, final, borrowed);
      tok := ReadToken(f, Hl(), h2, fixed, codes, Rest());
      TokenRest(codes, bits, dict.all, final, borrowed);
    }

    /** What is in the tables after the block is what is in them now. */
    lemma LastCodes()
      requires CodesIn()
      ensures TablesAfter(codes) == Last()
    {
    }

    /** Reads a token and does what it says, up to the copy of a match. */
    method OneToken() returns (stop: bool, copying: bool)
      requires Inside(false)
      modifies this`copyLen, this`copyDist, this`toRead, this`step, this`stepState, this`err, this`borrowed, f,
               dict`wrPos, dict`rdPos, dict`flushed, dict`full, dict`all, dict`given, dict.hist
      ensures if stop then (if err == NoError then Running() else Ended()) else Inside(copying)
      ensures err == NoError ==> |f.Bits()| < |old(f.Bits())|
    {
      hide BytesBits, BitsOf, Pow2, Window, Places, Decoder.Holds, Decoder.Kept, BodyOf, CodesIn, Dict.Valid,
           AfterBlock;
      copying := false;
      stop := true;
      KnownHistory();
      var tok := NextToken();
      KnownHistory();
      match tok
      case TErr(e) =>
        Fail(e);
      case TLit(c) =>
        stop := PutLiteral(c);
      case TEnd =>
        FinishBlock();
      case TMatch(length, dist) =>
        if dist > dict.HistSize() {
          Fail(CorruptInput);
          return;
        }
        copyLen, copyDist := length, dist;
        borrowed := borrowed || Borrows(codes, Copy(length, dist));
        copying := true;
        stop := false;
    }

    /** Decodes a block from where it is: in the middle of a copy, or before a token. */
    method HuffmanReader()
      requires Inside(stepState == StateDict)
      modifies this`copyLen, this`copyDist, this`toRead, this`step, this`stepState, this`err, this`borrowed, f,
               dict`wrPos, dict`rdPos, dict`flushed, dict`full, dict`all, dict`given, dict.hist
      ensures if err == NoError then Running() else Ended()
      ensures err == NoError && toRead == [] ==> |f.Bits()| < |old(f.Bits())|
      ensures |f.Bits()| <= |old(f.Bits())| || err != NoError
    {
      hide BytesBits, BitsOf, Pow2, Window, Places, Decoder.Holds, Decoder.Kept, FixedLit, FixedOff, Empty, InPlace,
           BodyOf, CopyOf, Extend, Dict.Valid, CodesIn;
      var copying := stepState == StateDict;
      while true
        invariant Inside(copying) && |f.Bits()| <= |old(f.Bits())|
        decreases |f.Bits()|, if copying then 1 else 0
      {
        var stop;
        if copying {
          stop := CopyHistory();
          if stop {
            return;
          }
          copying := false;
        } else {
          stop, copying := OneToken();
          if stop {
            return;
          }
        }
      }
    }

    // -------------------------------------------------------------------------------------------
    // Blocks.
    // -------------------------------------------------------------------------------------------

    /** Discards the rest of a byte and reads the length of a stored block and its complement, from the bytes in
        the accumulator first. */
    method ReadStoredLen() returns (ok: bool, n: nat, nn: nat)
      requires f.Valid() && f.nb <= 31
      modifies f
      ensures f.Valid() && f.nb == 0 && |f.Bits()| <= |old(f.Bits())|
      ensures var b := old(f.Bits());
        var p := |b| % 8;
        && (ok <==> |b| >= p + 32)
        && (ok ==> n == ValueOf(b[p..p + 16]) && nn == ValueOf(b[p + 16..p + 32]) && f.Bits() == b[p + 32..])
      ensures ok ==> n < 0x1_0000
    {
      hide BytesBits, BitsOf, Pow2, Low, Shr, ValueOf;
      ghost var rest := f.Bits();
      f.BitCount();
      var left := f.nb % 8;
      WholeRest(f.nb, |f.input|);
      ghost var dropped := BitsOf(f.b, left);
      f.Drop(left);
      Cut(dropped, f.Bits());
      var offBytes := f.nb / 8;
      var buf := BitWriter.LeBytes(f.b, offBytes);
      BitWriter.LeBytesBits(f.b, offBytes);
      BytesBitsConcat(buf, f.input);
      ghost var s := buf + f.input;
      assert rest[left..] == BytesBits(s);
      f.nb, f.b := 0, 0;
      n, nn := 0, 0;
      var more := 4 - offBytes;
      BitWriter.NoBuffer([], []);
      if |f.input| < more {
        ShortLength(rest, left, s);
        f.input := [];
        f.BitsAligned();
        BytesNone();
        return false, 0, 0;
      }
      buf := buf + f.input[..more];
      f.input := f.input[more..];
      f.BitsAligned();
      assert buf == s[..4] && f.input == s[4..];
      n, nn := Uint16(buf[0], buf[1]), Uint16(buf[2], buf[3]);
      FourBytes(rest, left, s);
      ok := true;
    }

    /** A stored block. Without a length, or with a complement that is not one, nothing is taken from it. */
    method DataBlock()
      requires Safe() && err == NoError && toRead == [] && dict.AvailWrite() > 0 && copyLen == 0 && f.nb <= 29
      requires Unread() && goal == StoredBlockOf(f.Bits(), dict.all, final, Last(), borrowed)
      modifies this`copyLen, this`toRead, this`step, this`err, f, dict`wrPos, dict`rdPos, dict`flushed, dict`full,
               dict`all, dict`given, dict.hist
      ensures if err == NoError then Running() else Ended()
      ensures err == NoError ==> |f.Bits()| < |old(f.Bits())|
      ensures StoredLen(old(f.Bits())) == None ==> dict.all == old(dict.all)
      ensures StoredLen(old(f.Bits())) == None ==>
        err == if |old(f.Bits())| < |old(f.Bits())| % 8 + 32 then UnexpectedEof else CorruptInput
    {
      hide BytesBits, BitsOf, Pow2, Window, Places, Decoder.Holds, Decoder.Kept, StoredOf, AfterBlock, ValueOf;
      f.BitCount();
      StoredLenIs(f.Bits());
      StoredBlockTakes(f.Bits(), dict.all, final, Last(), borrowed);
      var ok, n, nn := ReadStoredLen();
      if !ok {
        Fail(UnexpectedEof);
        return;
      }
      if nn != 0xffff - n {
        Fail(CorruptInput);
        return;
      }
      f.BitCount();
      StoredTakes(n, f.Bits(), dict.all, final, Last(), borrowed);
      if n == 0 {
        NoneStored(f.Bits(), dict.all, final, Last(), borrowed);
        if !partialFlush {
          HandOut();
        }
        FinishBlock();
        return;
      }
      copyLen := n;
      CopyData();
    }

    /** A block with the fixed codes. */
    method FixedBlock()
      requires Safe() && err == NoError && toRead == [] && dict.AvailWrite() > 0 && copyLen == 0
      requires Unread() && goal == BodyOf(FixedCodes(Last()), f.Bits(), dict.all, final, borrowed)
      modifies this`fixed, this`codes
      modifies this`copyLen, this`copyDist, this`toRead, this`step, this`stepState, this`err, this`borrowed, f,
               dict`wrPos, dict`rdPos, dict`flushed, dict`full, dict`all, dict`given, dict.hist
      ensures if err == NoError then Running() else Ended()
      ensures err == NoError ==> |f.Bits()| <= |old(f.Bits())|
    {
      hide BytesBits, BitsOf, Pow2, Window, Places, Decoder.Holds, Decoder.Kept, FixedLit, FixedOff, BodyOf;
      KnownHistory();
      fixed := true;
      codes := FixedCodes(Last());
      if stepState == StateDict { CopyNone(dict.all, copyDist); }
      HuffmanReader();
    }

    /** Reads the codes of a block. */
    method LoadCodes() returns (e: Err)
      requires Safe() && err == NoError && toRead == [] && dict.AvailWrite() > 0 && copyLen == 0
      requires Unread() && goal == DynamicOf(f.Bits(), dict.all, final, Last(), borrowed)
      modifies this`fixed, this`codes, this`borrowed, h1, h1.chunks, h2, h2.chunks, bits, codebits, f
      ensures |f.Bits()| <= |old(f.Bits())|
      ensures if e == NoError then Inside(stepState == StateDict) else Safe() && goal == Failed(dict.all, e)
    {
      hide BytesBits, BitsOf, Pow2, Window, Places, Decoder.Holds, Decoder.Kept, BodyOf, HeaderOf, HeaderIn,
           Dict.Valid, AskFor, Empty;
      ghost var t, b, d := Last(), f.Bits(), HeaderOf(f.Bits(), h1.last);
      DynamicUnfold(b, dict.all, final, t, borrowed);
      KnownHistory();
      e := ReadHuffman(f, h1, h2, bits, codebits, final, Rest());
      if e == NoError {
        BodyTakes(DeclaredCodes(d, t, final), f.Bits(), dict.all, final, borrowed || Empty(d.cl) || Empty(d.lit));
        SetCodes(d, t);
      }
    }

    /** Goes on with the codes read. */
    method SetCodes(ghost d: HeaderRead, ghost t: Tables)
      requires Safe() && err == NoError && toRead == [] && dict.AvailWrite() > 0 && copyLen == 0
      requires d.Declares? && |d.lit| > END_OF_BLOCK && HeaderIn(h1, h2, DeclaredCodes(d, t, final)) && Unread()
      requires goal == BodyOf(DeclaredCodes(d, t, final), f.Bits(), dict.all, final,
        borrowed || Empty(d.cl) || Empty(d.lit))
      modifies this`fixed, this`codes, this`borrowed
      ensures Inside(stepState == StateDict)
    {
      hide BytesBits, BitsOf, Pow2, Window, Places, Decoder.Holds, Decoder.Kept, BodyOf, HeaderIn, Dict.Valid, Empty,
           AskFor;
      KnownHistory();
      fixed := false;
      codes := DeclaredCodes(d, t, final);
      borrowed := borrowed || Empty(d.cl) || Empty(d.lit);
      if stepState == StateDict { CopyNone(dict.all, copyDist); }
    }

    /** A block with codes of its own. */
    method DynamicBlock()
      requires Safe() && err == NoError && toRead == [] && dict.AvailWrite() > 0 && copyLen == 0
      requires Unread() && goal == DynamicOf(f.Bits(), dict.all, final, Last(), borrowed)
      modifies this`fixed, this`codes, h1, h1.chunks, h2, h2.chunks, bits, codebits
      modifies this`copyLen, this`copyDist, this`toRead, this`step, this`stepState, this`err, this`borrowed, f,
               dict`wrPos, dict`rdPos, dict`flushed, dict`full, dict`all, dict`given, dict.hist
      ensures if err == NoError then Running() else Ended()
      ensures err == NoError ==> |f.Bits()| <= |old(f.Bits())|
    {
      hide BytesBits, BitsOf, Pow2, Window, Places, Decoder.Holds, Decoder.Kept, Inside, DynamicOf, BodyOf, CopyOf,
           StoredOf, StreamOf;
      var e := LoadCodes();
      if e != NoError {
        Fail(e);
        return;
      }
      HuffmanReader();
    }

    /** Reads the three bits that open a block. */
    method OpenBlock() returns (ok: bool, typ: nat)
      requires Running() && step == StepNextBlock && toRead == []
      modifies f, this`final
      ensures Safe() && |f.Bits()| <= |old(f.Bits())|
      ensures ok ==> |f.Bits()| < |old(f.Bits())| && f.nb <= 29 && typ < 4 && Unread()
      ensures goal == if ok then BlockOf(typ, f.Bits(), dict.all, final, Last(), borrowed)
        else Failed(dict.all, UnexpectedEof)
    {
      hide BytesBits, BitsOf, Pow2, Window, Places, Decoder.Holds, Decoder.Kept, BlockOf, ValueOf, CodesIn, Dict.Valid;
      ghost var b := f.Bits();
      StreamTakes(b, dict.all, Last(), borrowed);
      var last;
      ok, last, typ := BlockHead(f, Rest());
      if ok {
        final := last;
      }
    }

    /** The next block. */
    method NextBlock()
      requires Running() && step == StepNextBlock && toRead == []
      modifies this`fixed, this`codes, this`final, h1, h1.chunks, h2, h2.chunks, bits, codebits
      modifies this`copyLen, this`copyDist, this`toRead, this`step, this`stepState, this`err, this`borrowed, f,
               dict`wrPos, dict`rdPos, dict`flushed, dict`full, dict`all, dict`given, dict.hist
      ensures if err == NoError then Running() else Ended()
      ensures err == NoError ==> |f.Bits()| < |old(f.Bits())|
    {
      hide BytesBits, BitsOf, Pow2, Window, Places, Decoder.Holds, Decoder.Kept, BodyOf, StoredBlockOf, DynamicOf,
           StreamOf, CodesIn, Dict.Valid;
      var ok, typ := OpenBlock();
      if !ok {
        Fail(UnexpectedEof);
        return;
      }
      if typ == 0 {
        DataBlock();
      } else if typ == 1 {
        FixedBlock();
      } else if typ == 2 {
        DynamicBlock();
      } else {
        Fail(CorruptInput);
      }
    }

    /** One step. */
    method DoStep()
      requires Running() && toRead == []
      modifies this`fixed, this`codes, this`final, h1, h1.chunks, h2, h2.chunks, bits, codebits
      modifies this`copyLen, this`copyDist, this`toRead, this`step, this`stepState, this`err, this`borrowed, f,
               dict`wrPos, dict`rdPos, dict`flushed, dict`full, dict`all, dict`given, dict.hist
      ensures if err == NoError then Running() else Ended()
      ensures err == NoError && toRead == [] ==> |f.Bits()| <= |old(f.Bits())|
      ensures err == NoError && toRead == [] ==>
        |f.Bits()| < |old(f.Bits())| || (old(step) == StepCopyData && step == StepNextBlock)
    {
      hide BytesBits, BitsOf, Pow2, Window, Places, Decoder.Holds, Decoder.Kept, BodyOf, CopyOf, StoredOf, StreamOf,
           CodesIn, Dict.Valid;
      match step
      case StepCopyData => CopyData();
      case StepNextBlock => NextBlock();
      case StepHuffman => HuffmanReader();
    }

    /** Bytes handed out so far are the beginning of what the input gives; at the end they are all of it. */
    lemma GivenIsPrefix()
      requires Running() || Ended()
      ensures dict.preset + dict.given <= goal.h && dict.given == returned + toRead
      ensures Ended() && dict.Pending() == [] ==> dict.preset + dict.given == goal.h
    {
      hide BytesBits, BitsOf, Pow2, Window, Places, Decoder.Holds, Decoder.Kept, CodesIn, BodyOf, StoredOf, StreamOf;
      if err == NoError {
        assert goal == Meaning();
        StreamTakes(f.Bits(), dict.all, Last(), borrowed);
        StoredTakes(copyLen, f.Bits(), dict.all, final, Last(), borrowed);
        BodyTakes(codes, f.Bits(), dict.all, final, borrowed);
        if 1 <= copyDist <= |dict.all| {
          BodyTakes(codes, f.Bits(), Extend(dict.all, copyLen, copyDist), final, borrowed);
        }
      }
      assert dict.all <= goal.h;
      assert Ended() && dict.Pending() == [] ==> dict.all == dict.preset + dict.given;
    }

    /** Gives the first bytes of what is to be read. */
    method Give(n: nat) returns (out: seq<byte>, e: Err)
      requires (Running() || Over()) && toRead != []
      modifies this`returned, this`toRead
      ensures (Running() || Over()) && |out| <= n && returned == old(returned) + out
      ensures n > 0 ==> out != []
      ensures dict.preset + returned <= goal.h
      ensures e != NoError ==> e == EndOf(goal) && dict.preset + returned == goal.h && Over()
    {
      hide BytesBits, BitsOf, Pow2, Window, Places, Decoder.Holds, Decoder.Kept, BodyOf, StoredOf, StreamOf, CodesIn,
           Dict.Valid, AfterBlock;
      GivenIsPrefix();
      var k := Min(n, |toRead|);
      out := toRead[..k];
      ghost var was := toRead;
      toRead := toRead[k..];
      ghost var before := returned;
      returned := returned + out;
      assert was == out + toRead;
      Assoc(before, out, toRead);
      Assoc(dict.preset, returned, toRead);
      e := if toRead == [] then err else NoError;
      assert toRead == [] ==> returned + toRead == returned;
    }

    /** Hands out what is left after an error. */
    method HandOutRest()
      requires Ended() && toRead == []
      modifies this`toRead, dict`rdPos, dict`wrPos, dict`flushed, dict`full, dict`given
      ensures Over()
    {
      hide BytesBits, BitsOf, Pow2, Window, Places, Decoder.Holds, Decoder.Kept;
      HandOut();
    }

    /** Gives at most n bytes. What Read has given, in pieces of whatever sizes, is the beginning of what the input
        gives, and all of it when an error is reported; the error is the one that the input gives. */
    method Read(n: nat) returns (out: seq<byte>, e: Err)
      requires Running() || Over()
      modifies this`returned
      modifies this`fixed, this`codes, this`final, h1, h1.chunks, h2, h2.chunks, bits, codebits
      modifies this`copyLen, this`copyDist, this`toRead, this`step, this`stepState, this`err, this`borrowed, f,
               dict`wrPos, dict`rdPos, dict`flushed, dict`full, dict`all, dict`given, dict.hist
      ensures (Running() || Over()) && |out| <= n && returned == old(returned) + out
      ensures n > 0 ==> out != [] || e != NoError
      ensures dict.preset + returned <= goal.h
      ensures e != NoError ==> e == EndOf(goal) && dict.preset + returned == goal.h && Over()
      ensures e != NoError && goal.Done? ==> f.nb < 8 && f.Bits() == goal.rest
    {
      hide BytesBits, BitsOf, Pow2, Window, Places, Decoder.Holds, Decoder.Kept, BodyOf, StoredOf, StreamOf, CodesIn,
           Meaning;
      while true
        invariant (Running() || Over()) && returned == old(returned)
        decreases if toRead != [] || err != NoError then 0 else 2 * |f.Bits()| + if step == StepCopyData then 2 else 1
      {
        if |toRead| > 0 {
          out, e := Give(n);
          return;
        }
        if err != NoError {
          GivenIsPrefix();
          assert returned + [] == returned;
          return [], err;
        }
        DoStep();
        if err != NoError && |toRead| == 0 {
          HandOutRest();
        }
      }
    }
  }

  /** Discarding what the accumulator has beyond whole bytes leaves whole bytes. */
  lemma WholeRest(nb: nat, n: nat)
    ensures (nb + 8 * n) % 8 == nb % 8 && (nb - nb % 8) / 8 * 8 == nb - nb % 8
  {
    var q := nb / 8;
    DivUnique(nb + 8 * n, q + n, nb % 8, 8);
    DivUnique(nb - nb % 8, q, 0, 8);
  }

  lemma BytesNone()
    ensures BytesBits([]) == []
  {
  }

  /** Two bytes as a number, low byte first. */
  function Uint16(x: byte, y: byte): (n: nat)
    ensures n < 0x1_0000
  {
    (x as int) + 256 * (y as int)
  }

  lemma TwoBytes(x: byte, y: byte)
    ensures |BytesBits([x, y])| == 16 && ValueOf(BytesBits([x, y])) == Uint16(x, y)
  {
    hide BitsOf;
    Pow2Values();
    BytesBitsConcat([x], [y]);
    assert [x] + [y] == [x, y];
    BitWriter.OneByte(x);
    BitWriter.OneByte(y);
    BitsOfJoin(x, 8, y, 8);
    MulAdd(y, 0, 256);
    FieldBack(Uint16(x, y), 16);
  }

  /** Where the two length fields of a stored block and its data are. */
  lemma FieldBits(rest: seq<bool>, left: nat, s: seq<byte>)
    requires left <= |rest| && rest[left..] == BytesBits(s) && |s| >= 4
    ensures |rest| >= left + 32 && rest[left + 32..] == BytesBits(s[4..])
    ensures rest[left..left + 16] == BytesBits([s[0], s[1]]) && rest[left + 16..left + 32] == BytesBits([s[2], s[3]])
  {
    hide BytesBits;
    var a, b, c := [s[0], s[1]], [s[2], s[3]], s[4..];
    assert s == a + (b + c);
    BytesBitsConcat(a, b + c);
    BytesBitsConcat(b, c);
    LengthFields(rest, left, BytesBits(a), BytesBits(b), BytesBits(c));
  }

  /** The two length fields of a stored block are in the four bytes after the rest of a byte. */
  lemma FourBytes(rest: seq<bool>, left: nat, s: seq<byte>)
    requires left == |rest| % 8 && rest[left..] == BytesBits(s) && |s| >= 4
    ensures |rest| >= left + 32 && rest[left + 32..] == BytesBits(s[4..])
    ensures ValueOf(rest[left..left + 16]) == Uint16(s[0], s[1])
    ensures ValueOf(rest[left + 16..left + 32]) == Uint16(s[2], s[3])
  {
    hide BytesBits, ValueOf, Uint16;
    FieldBits(rest, left, s);
    TwoBytes(s[0], s[1]);
    TwoBytes(s[2], s[3]);
  }

  lemma LengthFields(rest: seq<bool>, left: nat, a: seq<bool>, b: seq<bool>, c: seq<bool>)
    requires left <= |rest| && rest[left..] == a + (b + c) && |a| == |b| == 16
    ensures |rest| >= left + 32 && rest[left..left + 16] == a && rest[left + 16..left + 32] == b &&
      rest[left + 32..] == c
  {
    Slices(rest, left, 16);
    Slices(rest, left + 16, 16);
    Cut(a, b + c);
    Cut(b, c);
  }

  lemma ShortLength(rest: seq<bool>, left: nat, s: seq<byte>)
    requires left == |rest| % 8 && rest[left..] == BytesBits(s) && |s| < 4
    ensures |rest| < left + 32
  {
    hide BytesBits;
    assert |rest| == left + 8 * |s|;
  }

  lemma StoredLenIs(bits: seq<bool>)
    ensures var p := |bits| % 8;
      if |bits| < p + 32 then StoredLen(bits) == None
      else StoredLen(bits) == None <==> ValueOf(bits[p + 16..p + 32]) != MAX_STORED - ValueOf(bits[p..p + 16])
  {
    hide ValueOf;
  }

  lemma CopyNone(h: seq<byte>, dist: nat)
    requires 1 <= dist <= |h|
    ensures Extend(h, 0, dist) == h
  {
  }

  /** Lengths and distances of a match are those of the format. */
  lemma TokenBounds(c: Codes, bits: seq<bool>)
    ensures var r := TokenOf(c, bits);
      r.Next? && r.x.Copy? ==> MIN_MATCH <= r.x.len <= MAX_MATCH && 1 <= r.x.dist <= MAX_DIST
    ensures TokenOf(c, bits).NoToken? ==> TokenOf(c, bits).e != NoError
  {
    hide InTables, DistOf, ValueOf, Pow2;
    var r := AskedSymbol(c.lit, c.was.lit, c.ask, bits);
    if r.Found? && FIRST_LENGTH <= r.v < MAX_LIT {
      var l := r.v - FIRST_LENGTH;
      var n := LengthExtra(l);
      if |r.rest| >= n {
        LengthTop(l, r.rest[..n]);
        var d := DistOf(c, r.rest[n..]);
        if d.Found? && d.v < MAX_DIST_CODES && |d.rest| >= OffsetExtra(d.v) {
          DistTop(d.v, d.rest[..OffsetExtra(d.v)]);
        }
      }
    }
  }

  lemma LengthTop(l: nat, b: seq<bool>)
    requires l <= 28 && |b| == LengthExtra(l)
    ensures LengthBase(l) + ValueOf(b) + MIN_MATCH <= MAX_MATCH
  {
    hide ValueOf;
    Pow2Small();
    assert ValueOf(b) < Pow2(LengthExtra(l));
  }

  lemma DistTop(d: nat, b: seq<bool>)
    requires d < MAX_DIST_CODES && |b| == OffsetExtra(d)
    ensures OffsetBase(d) + ValueOf(b) + 1 <= MAX_DIST
  {
    hide ValueOf;
    Pow2Small();
    Pow2Large();
    assert ValueOf(b) < Pow2(OffsetExtra(d));
  }

  /** What a token leaves to decode. */
  function RestOf(c: Codes, r: TokenRead, h: seq<byte>, final: bool, borrowed: bool): Fate {
    match r
    case NoToken(e) => Failed(h, e)
    case BlockEnd(rest) => AfterBlock(rest, h, final, TablesAfter(c), borrowed)
    case Next(x, rest) =>
      if x.Lit? then BodyOf(c, rest, h + [x.b], final, borrowed)
      else CopyOf(c, rest, h, x.len, x.dist, final, borrowed || Borrows(c, x))
  }

  lemma BodyUnfold(c: Codes, bits: seq<bool>, h: seq<byte>, final: bool, borrowed: bool)
    ensures BodyOf(c, bits, h, final, borrowed) == RestOf(c, TokenOf(c, bits), h, final, borrowed)
    ensures var r := TokenOf(c, bits);
      (r.NoToken? ==> r.e != NoError) && (r.Next? && r.x.Copy? ==> 1 <= r.x.dist <= MAX_DIST)
  {
    hide TokenOf, Extend, AfterBlock;
    TokenBounds(c, bits);
  }

  /** What comes after a token still has the rest of the stream in it. */
  lemma TokenRest(c: Codes, bits: seq<bool>, h: seq<byte>, final: bool, borrowed: bool)
    ensures var r, f := TokenOf(c, bits), BodyOf(c, bits, h, final, borrowed);
      !r.NoToken? && f.Done? ==> |f.rest| <= |r.rest|
  {
    hide TokenOf, Extend, AfterBlock, BodyOf;
    BodyUnfold(c, bits, h, final, borrowed);
    match TokenOf(c, bits)
    case NoToken(_) =>
    case BlockEnd(rest) => AfterTakes(rest, h, final, TablesAfter(c), borrowed);
    case Next(x, rest) =>
      if x.Lit? {
        BodyTakes(c, rest, h + [x.b], final, borrowed);
      } else if 1 <= x.dist <= |h| {
        BodyTakes(c, rest, Extend(h, x.len, x.dist), final, borrowed || Borrows(c, x));
      }
  }

  lemma DynamicUnfold(bits: seq<bool>, h: seq<byte>, final: bool, t: Tables, borrowed: bool)
    ensures var d := HeaderOf(bits, t.lit);
      DynamicOf(bits, h, final, t, borrowed) ==
        if d.NoHeader? then Failed(h, d.e)
        else BodyOf(DeclaredCodes(d, t, final), d.rest, h, final, borrowed || Empty(d.cl) || Empty(d.lit))
  {
    hide HeaderOf, BodyOf, Empty, AskFor;
    HeaderShorter(bits, t.lit);
  }

  lemma NoneStored(bits: seq<bool>, h: seq<byte>, final: bool, t: Tables, borrowed: bool)
    ensures StoredOf(0, bits, h, final, t, borrowed) == AfterBlock(bits, h, final, t, borrowed)
  {
    hide AfterBlock;
    assert bits[0..] == bits && bits[..0] == [] && h + [] == h;
  }

  /** Taking bytes of a stored block from the input. */
  lemma StoredBytes(n: nat, data: seq<byte>, input: seq<byte>, h: seq<byte>, final: bool, t: Tables, borrowed: bool)
    requires |data| <= n && data <= input
    ensures StoredOf(n, BytesBits(input), h, final, t, borrowed)
      == StoredOf(n - |data|, BytesBits(input[|data|..]), h + data, final, t, borrowed)
  {
    hide BytesOf, BytesBits, AfterBlock;
    var rest := BytesBits(input[|data|..]);
    assert input == data + input[|data|..];
    BytesBitsConcat(data, input[|data|..]);
    var bits, k := BytesBits(input), |data|;
    Cut(BytesBits(data), rest);
    BytesOfJoin(data, rest);
    Assoc(h, data, BytesOf(rest));
    if |rest| >= 8 * (n - k) {
      var a := rest[..8 * (n - k)];
      assert bits[..8 * n] == BytesBits(data) + a;
      assert bits[8 * n..] == rest[8 * (n - k)..];
      BytesOfJoin(data, a);
      Assoc(h, data, BytesOf(a));
    }
  }

  lemma NothingStored(n: nat, input: seq<byte>, h: seq<byte>, final: bool, t: Tables, borrowed: bool)
    requires input == [] && n > 0
    ensures StoredOf(n, BytesBits(input), h, final, t, borrowed) == Failed(h, UnexpectedEof)
  {
    hide AfterBlock;
    assert h + [] == h;
  }
}
