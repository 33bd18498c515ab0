/** The encoder's bit accumulator and byte buffer. Fields are appended above the bits waiting in a
    64-bit word; whole bytes leave in groups of six, or as many as there are, through an 8-byte
    store that may overwrite free space; every discipline appends exactly the same bits. */
module BitWriter {
  import opened Words
  import opened Canon
  import opened BitReader
  import opened Lz
  import opened LzCodes
  import opened Format
  import opened Tokens

  const BUFFER_SIZE: nat := 264
  const FLUSH_SIZE: nat := 246

  function LowByte(v: nat): (b: byte) {
    v % 256
  }

  lemma LowByteIs(v: nat)
    ensures LowByte(v) == Low(v, 8)
  {
    ShiftIsDivision(v, 8);
    Pow2Values();
  }

  /** The first k bytes of a word, lowest first. */
  function LeBytes(v: nat, k: nat): (s: seq<byte>)
    ensures |s| == k
  {
    if k == 0 then [] else [LowByte(v)] + LeBytes(Shr(v, 8), k - 1)
  }

  lemma {:induction false} LeBytesAt(v: nat, k: nat, i: nat)
    requires i < k
    ensures LeBytes(v, k)[i] == LowByte(Shr(v, 8 * i))
  {
    if i > 0 {
      LeBytesAt(Shr(v, 8), k - 1, i - 1);
      ShrShr(v, 8, 8 * (i - 1));
    }
  }

  /** Bytes of a word stand for its bits. */
  lemma {:induction false} LeBytesBits(v: nat, k: nat)
    ensures BytesBits(LeBytes(v, k)) == BitsOf(v, 8 * k)
  {
    hide LowByte;
    if k == 0 {
    } else {
      LowByteIs(v);
      BitsOfLow(v, 8);
      BitsOfSplit(v, 8, 8 * (k - 1));
      LeBytesBits(Shr(v, 8), k - 1);
      assert LeBytes(v, k)[1..] == LeBytes(Shr(v, 8), k - 1);
    }
  }

  lemma {:induction false} LeBytesPrefix(v: nat, k: nat, n: nat)
    requires k <= n
    ensures LeBytes(v, n)[..k] == LeBytes(v, k)
  {
    if k > 0 { LeBytesPrefix(Shr(v, 8), k - 1, n - 1); }
  }

  /** All bits given to the writer so far: those handed on, those in the buffer, those waiting. */
  function Stream(out: seq<byte>, buf: seq<byte>, nbytes: nat, bits: nat, nbits: nat): seq<bool>
    requires nbytes <= |buf|
  {
    BytesBits(out + buf[..nbytes]) + BitsOf(bits, nbits)
  }

  /** An 8-byte store at position n. */
  function Stored(buf: seq<byte>, n: nat, v: nat): (r: seq<byte>)
    requires n + 8 <= |buf|
    ensures |r| == |buf|
  {
    buf[..n] + LeBytes(v, 8) + buf[n + 8..]
  }

  /** Storing the waiting bits and moving k whole bytes of them into the buffer changes nothing. */
  lemma Advance(out: seq<byte>, buf: seq<byte>, n: nat, bits: nat, nbits: nat, k: nat)
    requires n + 8 <= |buf| && k <= 8 && 8 * k <= nbits && bits < Pow2(nbits)
    ensures Stream(out, Stored(buf, n, bits), n + k, Shr(bits, 8 * k), nbits - 8 * k)
      == Stream(out, buf, n, bits, nbits)
    ensures Shr(bits, 8 * k) < Pow2(nbits - 8 * k)
  {
    hide BytesBits, LeBytes, BitsOf, Pow2, Shr;
    var r := Stored(buf, n, bits);
    assert r[..n + k] == buf[..n] + LeBytes(bits, 8)[..k];
    LeBytesPrefix(bits, k, 8);
    LeBytesBits(bits, k);
    assert out + r[..n + k] == (out + buf[..n]) + LeBytes(bits, k);
    BytesBitsConcat(out + buf[..n], LeBytes(bits, k));
    BitsOfSplit(bits, 8 * k, nbits - 8 * k);
    ShrBound(bits, 8 * k, nbits - 8 * k);
  }

  /** Handing the buffered bytes on changes nothing. */
  lemma HandOn(out: seq<byte>, buf: seq<byte>, n: nat, bits: nat, nbits: nat)
    requires n <= |buf|
    ensures Stream(out + buf[..n], buf, 0, bits, nbits) == Stream(out, buf, n, bits, nbits)
  {
    assert out + buf[..n] + buf[..0] == out + buf[..n];
  }

  /** Appending a field of m bits above the waiting ones. */
  lemma AppendField(out: seq<byte>, buf: seq<byte>, n: nat, bits: nat, nbits: nat, c: nat, m: nat)
    requires n <= |buf| && bits < Pow2(nbits) && c < Pow2(m) && nbits + m <= 64
    ensures Or(bits, Shl64(c, nbits)) < Pow2(nbits + m)
    ensures Stream(out, buf, n, Or(bits, Shl64(c, nbits)), nbits + m)
      == Stream(out, buf, n, bits, nbits) + BitsOf(c, m)
  {
    hide BytesBits, BitsOf, Pow2, Or, Shl64;
    AppendBits(bits, nbits, c, m);
  }

  class Sink {
    var bits: nat
    var nbits: nat
    var nbytes: nat
    const bytes: array<byte>
    var out: seq<byte>
    var writes: nat
    /** Set when bytes are to follow unfinished bits; nothing is written after that. */
    var failed: bool

    /** What holds between calls. */
    predicate Valid()
      reads this
    {
      bytes.Length == BUFFER_SIZE && nbytes < FLUSH_SIZE && nbits <= 47 && bits < Pow2(nbits)
    }

    function Emitted(): seq<bool>
      requires nbytes <= bytes.Length
      reads this, bytes
    {
      Stream(out, bytes[..], nbytes, bits, nbits)
    }

    constructor ()
      ensures Valid() && fresh(bytes) && Emitted() == [] && out == [] && writes == 0 && !failed
      ensures nbits == 0 && nbytes == 0
    {
      bits, nbits, nbytes, out, writes, failed := 0, 0, 0, [], 0, false;
      bytes := new byte[BUFFER_SIZE](_ => 0);
    }

    /** An 8-byte little-endian store. */
    method Store64(n: nat, v: nat)
      requires n + 8 <= bytes.Length
      modifies bytes
      ensures bytes[..] == Stored(old(bytes[..]), n, v)
    {
      ghost var q := bytes[..];
      for i := 0 to 8
        invariant bytes[..n] == q[..n] && bytes[n + 8..] == q[n + 8..]
        invariant forall k :: 0 <= k < i ==> bytes[n + k] == LowByte(Shr(v, 8 * k))
      {
        bytes[n + i] := LowByte(Shr(v, 8 * i));
      }
      forall k | 0 <= k < 8
        ensures bytes[n + k] == LeBytes(v, 8)[k]
      {
        LeBytesAt(v, 8, k);
      }
      assert bytes[n..n + 8] == LeBytes(v, 8);
      assert bytes[..] == bytes[..n] + bytes[n..n + 8] + bytes[n + 8..];
    }

    /** Hands the first n bytes of the buffer to the underlying writer. */
    method Write(n: nat)
      requires n <= bytes.Length
      modifies this`out, this`writes
      ensures out == old(out) + bytes[..n] && writes == old(writes) + 1
    {
      out := out + bytes[..n];
      writes := writes + 1;
    }

    /** Moves six bytes of waiting bits into the buffer. */
    method WriteOutBits()
      requires bytes.Length == BUFFER_SIZE && nbytes < FLUSH_SIZE && 48 <= nbits <= 64 && bits < Pow2(nbits)
      modifies this`bits, this`nbits, this`nbytes, this`out, this`writes, bytes
      ensures Valid() && nbits == old(nbits) - 48 && Emitted() == old(Emitted())
      ensures old(nbytes) < FLUSH_SIZE - 6 ==> nbytes == old(nbytes) + 6 && writes == old(writes) && out == old(out)
      ensures old(nbytes) >= FLUSH_SIZE - 6 ==>
        nbytes == 0 && writes == old(writes) + 1 && |out| >= |old(out)| + FLUSH_SIZE
    {
      hide Stream, Stored, Pow2, Shr;
      Advance(out, bytes[..], nbytes, bits, nbits, 6);
      var b := bits;
      bits := Shr(bits, 48);
      nbits := nbits - 48;
      var n := nbytes;
      Store64(n, b);
      n := n + 6;
      if n >= FLUSH_SIZE {
        HandOn(out, bytes[..], n, bits, nbits);
        Write(n);
        n := 0;
      }
      nbytes := n;
    }

    /** Appends a field of nb bits. */
    method WriteBits(b: nat, nb: nat)
      requires Valid() && nb <= 16 && b < Pow2(nb)
      modifies this`bits, this`nbits, this`nbytes, this`out, this`writes, bytes
      ensures Valid() && Emitted() == old(Emitted()) + BitsOf(b, nb)
      ensures old(nbits) + nb < 48 ==> nbits == old(nbits) + nb
      ensures writes == old(writes) ==> out == old(out) && nbytes >= old(nbytes) && nbytes % 6 == old(nbytes) % 6
      ensures writes >= old(writes) && (writes > old(writes) ==> |out| >= |old(out)| + FLUSH_SIZE)
    {
      hide Stream, Pow2, BitsOf;
      AppendField(out, bytes[..], nbytes, bits, nbits, b, nb);
      bits := Or(bits, Shl64(b, nbits));
      nbits := nbits + nb;
      if nbits >= 48 {
        WriteOutBits();
      }
    }

    /** Appends a code word. */
    method WriteCode(c: nat)
      requires Valid() && GoodCode(c)
      modifies this`bits, this`nbits, this`nbytes, this`out, this`writes, bytes
      ensures Valid() && Emitted() == old(Emitted()) + CodeEmit(c)
      ensures writes == old(writes) ==> out == old(out) && nbytes >= old(nbytes) && nbytes % 6 == old(nbytes) % 6
      ensures writes >= old(writes) && (writes > old(writes) ==> |out| >= |old(out)| + FLUSH_SIZE)
    {
      hide Stream, Pow2, BitsOf;
      AppendField(out, bytes[..], nbytes, bits, nbits, HBits(c), HLen(c));
      bits := Or(bits, Shl64(HBits(c), nbits));
      nbits := nbits + HLen(c);
      if nbits >= 48 {
        WriteOutBits();
      }
    }

    /** Moves all waiting bits out, padding the last byte with zeros, and hands the bytes on. */
    method Flush()
      requires Valid()
      modifies this`bits, this`nbits, this`nbytes, this`out, this`writes, bytes
      ensures Valid() && nbits == 0 && nbytes == 0 && Emitted() == BytesBits(out)
      ensures Emitted() == old(Emitted()) + Zeros(Padding(|old(Emitted())|))
    {
      hide Stream, Pow2, BitsOf, Shr, BytesBits, Padding, Zeros, RoundUp, Low;
      ghost var m := RoundUp(nbits);
      RoundUpIs(nbits);
      PadWaiting(out, bytes[..], nbytes, bits, nbits);
      ghost var all := Stream(out, bytes[..], nbytes, bits, m);
      var n: nat := nbytes;
      while nbits != 0
        invariant nbits <= m < nbits + 8 && m % 8 == 0 && m <= 48 && bits < Pow2(m)
        invariant n + m / 8 <= BUFFER_SIZE && bytes.Length == BUFFER_SIZE && out == old(out)
        invariant Stream(out, bytes[..], n, bits, m) == all
        decreases nbits
      {
        ghost var q := bytes[..];
        ByteOut(out, q, n, bits, m);
        bytes[n] := LowByte(bits);
        assert bytes[..] == q[n := LowByte(bits)];
        bits := Shr(bits, 8);
        if nbits > 8 {
          nbits := nbits - 8;
        } else {
          nbits := 0;
        }
        m := m - 8;
        n := n + 1;
      }
      NothingWaits(bits);
      bits := 0;
      HandOn(out, bytes[..], n, 0, 0);
      if n > 0 {
        Write(n);
      } else {
        assert out + bytes[..0] == out;
      }
      nbytes := 0;
      NoBuffer(out, bytes[..]);
    }

    /** Hands on the buffered bytes and then data. With bits of an unfinished byte waiting, fails. */
    method WriteBytes(data: seq<byte>)
      requires Valid() && !failed
      modifies this`bits, this`nbits, this`nbytes, this`out, this`writes, this`failed, bytes
      ensures failed <==> old(nbits) % 8 != 0
      ensures failed ==> Valid() && Emitted() == old(Emitted()) && out == old(out)
      ensures !failed ==> Valid() && nbits == 0 && nbytes == 0 && Emitted() == BytesBits(out)
      ensures !failed ==> Emitted() == old(Emitted()) + BytesBits(data)
    {
      hide Stream, Pow2, BitsOf, Shr, BytesBits;
      var n: nat := nbytes;
      if nbits % 8 != 0 {
        failed := true;
        return;
      }
      ghost var all := Emitted();
      while nbits != 0
        invariant nbits % 8 == 0 && nbits <= 48 && bits < Pow2(nbits)
        invariant n + nbits / 8 <= BUFFER_SIZE && bytes.Length == BUFFER_SIZE && out == old(out)
        invariant Stream(out, bytes[..], n, bits, nbits) == all && failed == old(failed)
        decreases nbits
      {
        ghost var q := bytes[..];
        ByteOut(out, q, n, bits, nbits);
        bytes[n] := LowByte(bits);
        assert bytes[..] == q[n := LowByte(bits)];
        bits := Shr(bits, 8);
        nbits := nbits - 8;
        n := n + 1;
      }
      NothingWaits(bits);
      HandOn(out, bytes[..], n, 0, 0);
      if n != 0 {
        Write(n);
      } else {
        assert out + bytes[..0] == out;
      }
      nbytes := 0;
      NoBuffer(out, bytes[..]);
      BytesBitsConcat(out, data);
      out := out + data;
      writes := writes + 1;
      NoBuffer(out, bytes[..]);
    }

    // -------------------------------------------------------------------------------------------
    // writeTokens: the accumulator in local variables, flushed by whole bytes once per token.
    // -------------------------------------------------------------------------------------------

    /** Stores the waiting bits and keeps at most seven of them waiting. */
    method FlushLocal(b: nat, nb: nat, n: nat) returns (b': nat, nb': nat, n': nat)
      requires bytes.Length == BUFFER_SIZE && n < FLUSH_SIZE && nb < 64 && b < Pow2(nb)
      modifies this`out, bytes
      ensures n' < FLUSH_SIZE && nb' <= 7 && b' < Pow2(nb')
      ensures Stream(out, bytes[..], n', b', nb') == old(Stream(out, bytes[..], n, b, nb))
    {
      hide Stream, Stored, Pow2, Shr, And;
      WholeBytes(nb);
      Advance(out, bytes[..], n, b, nb, nb / 8);
      Store64(n, b);
      b' := Shr(b, And(nb, 56));
      n' := n + Shr(nb, 3);
      nb' := And(nb, 7);
      if n' >= FLUSH_SIZE {
        HandOn(out, bytes[..], n', b', nb');
        out := out + bytes[..n'];
        n' := 0;
      }
    }

    /** A match: four fields above at most seven waiting bits, then one flush. */
    method EmitMatch(t: nat, le: seq<nat>, oe: seq<nat>, b: nat, nb: nat, n: nat) returns (b': nat, nb': nat, n': nat)
      requires bytes.Length == BUFFER_SIZE && n < FLUSH_SIZE && nb <= 7 && b < Pow2(nb)
      requires Tables(le, oe) && IsMatch(t)
      modifies this`out, bytes
      ensures n' < FLUSH_SIZE && nb' <= 7 && b' < Pow2(nb')
      ensures Stream(out, bytes[..], n', b', nb') == old(Stream(out, bytes[..], n, b, nb)) + TokenEmit(le, oe, t)
    {
      hide Stream, Pow2, BitsOf, Or, Shl64, LengthBase, LengthExtra, OffsetBase, OffsetExtra, LengthCode, OffsetCode,
           GoodCodes, CodeEmit, HBits, HLen;
      ghost var s0 := Stream(out, bytes[..], n, b, nb);
      IsMatchFields(t);
      b', nb' := b, nb;
      var length := TokLength(t);
      var lengthCode := LengthCode(length);
      var c := le[FIRST_LENGTH + lengthCode];
      GoodAt(le, FIRST_LENGTH + lengthCode);
      AppendField(out, bytes[..], n, b', nb', HBits(c), HLen(c));
      b', nb' := Or(b', Shl64(HBits(c), nb')), nb' + HLen(c);
      ghost var s1 := s0 + CodeEmit(c);
      CodeEmitIs(c);
      LengthSmall(lengthCode);
      if lengthCode >= 8 {
        AppendField(out, bytes[..], n, b', nb', length - LengthBase(lengthCode), LengthExtra(lengthCode));
        b' := Or(b', Shl64(length - LengthBase(lengthCode), nb'));
        nb' := nb' + LengthExtra(lengthCode);
      }
      ghost var f2 := BitsOf(length - LengthBase(lengthCode), LengthExtra(lengthCode));
      NoBits(length - LengthBase(lengthCode));
      assert Stream(out, bytes[..], n, b', nb') == s1 + f2;
      var offset := TokOffset(t);
      ghost var xo := offset % OFFSET_UNIT;
      var offsetCode := offset / OFFSET_UNIT % 32;
      c := oe[offsetCode];
      GoodAt(oe, offsetCode);
      CodeEmitIs(c);
      AppendField(out, bytes[..], n, b', nb', HBits(c), HLen(c));
      b', nb' := Or(b', Shl64(HBits(c), nb')), nb' + HLen(c);
      OffsetRange(xo);
      OffsetSmall(offsetCode);
      if offsetCode >= 4 {
        OffsetField(offset, offsetCode);
        AppendField(out, bytes[..], n, b', nb', xo - OffsetBase(offsetCode), OffsetExtra(offsetCode));
        b' := Or(b', Shl64((offset - OffsetBase(offsetCode)) % OFFSET_UNIT, nb'));
        nb' := nb' + OffsetExtra(offsetCode);
      }
      ghost var f4 := BitsOf(xo - OffsetBase(offsetCode), OffsetExtra(offsetCode));
      NoBits(xo - OffsetBase(offsetCode));
      assert Stream(out, bytes[..], n, b', nb') == s1 + f2 + CodeEmit(c) + f4;
      TokenFields(le, oe, t, s0);
      b', nb', n' := FlushLocal(b', nb', n);
    }

    /** Stores the waiting bits if there is a whole byte of them; keeps at most seven. */
    method FlushWhole(b: nat, nb: nat, n: nat) returns (b': nat, nb': nat, n': nat)
      requires bytes.Length == BUFFER_SIZE && n < FLUSH_SIZE && nb < 64 && b < Pow2(nb)
      modifies this`out, bytes
      ensures n' < FLUSH_SIZE && nb' <= 7 && b' < Pow2(nb')
      ensures Stream(out, bytes[..], n', b', nb') == old(Stream(out, bytes[..], n, b, nb))
    {
      hide Stream, Stored, Pow2, Shr, And;
      b', nb', n' := b, nb, n;
      if nb >= 8 {
        WholeBytes(nb);
        var k := Shr(nb, 3);
        Advance(out, bytes[..], n, b, nb, k);
        Store64(n, b);
        b' := Shr(b, k * 8);
        nb' := nb - k * 8;
        n' := n + k;
      }
      if n' >= FLUSH_SIZE {
        HandOn(out, bytes[..], n', b', nb');
        out := out + bytes[..n'];
        n' := 0;
      }
    }

    /** One more code word above the waiting bits. */
    ghost method AddWord(b: nat, nb: nat, n: nat, c: nat)
      requires n <= bytes.Length && b < Pow2(nb) && GoodCode(c) && nb + HLen(c) <= 64
      ensures Or(b, Shl64(HBits(c), nb)) < Pow2(nb + HLen(c))
      ensures Stream(out, bytes[..], n, Or(b, Shl64(HBits(c), nb)), nb + HLen(c))
        == Stream(out, bytes[..], n, b, nb) + CodeEmit(c)
    {
      hide Stream, Pow2, BitsOf, Or, Shl64;
      AppendField(out, bytes[..], n, b, nb, HBits(c), HLen(c));
    }

    /** Three literals, after the whole waiting bytes have left. */
    method ThreeLiterals(x: nat, y: nat, z: nat, b: nat, nb: nat, n: nat) returns (b': nat, nb': nat, n': nat)
      requires bytes.Length == BUFFER_SIZE && n < FLUSH_SIZE && nb < 64 && b < Pow2(nb)
      requires GoodCode(x) && GoodCode(y) && GoodCode(z)
      modifies this`out, bytes
      ensures n' < FLUSH_SIZE && nb' <= 52 && b' < Pow2(nb')
      ensures Stream(out, bytes[..], n', b', nb')
        == old(Stream(out, bytes[..], n, b, nb)) + CodeEmit(x) + CodeEmit(y) + CodeEmit(z)
    {
      hide Stream, Pow2, BitsOf, Or, Shl64, CodeEmit, HLen, HBits;
      b', nb', n' := FlushWhole(b, nb, n);
      GoodLength(x);
      GoodLength(y);
      GoodLength(z);
      AddWord(b', nb', n', x);
      b' := Or(b', Shl64(HBits(x), nb'));
      AddWord(b', nb' + HLen(x), n', y);
      b' := Or(b', Shl64(HBits(y), nb' + HLen(x)));
      nb' := nb' + HLen(x) + HLen(y);
      AddWord(b', nb', n', z);
      b' := Or(b', Shl64(HBits(z), nb'));
      nb' := nb' + HLen(z);
    }

    /** One literal; six bytes leave first when that many are waiting. */
    method OneLiteral(x: nat, b: nat, nb: nat, n: nat) returns (b': nat, nb': nat, n': nat)
      requires bytes.Length == BUFFER_SIZE && n < FLUSH_SIZE && nb <= 62 && b < Pow2(nb) && GoodCode(x)
      modifies this`out, bytes
      ensures n' < FLUSH_SIZE && nb' <= 62 && b' < Pow2(nb')
      ensures Stream(out, bytes[..], n', b', nb') == old(Stream(out, bytes[..], n, b, nb)) + CodeEmit(x)
    {
      hide Stream, Pow2, BitsOf, Or, Shl64, CodeEmit, HLen, HBits, Shr, Stored;
      b', nb', n' := b, nb, n;
      if nb >= 48 {
        Advance(out, bytes[..], n, b, nb, 6);
        Store64(n, b);
        b' := Shr(b, 48);
        nb' := nb - 48;
        n' := n + 6;
        if n' >= FLUSH_SIZE {
          HandOn(out, bytes[..], n', b', nb');
          out := out + bytes[..n'];
          n' := 0;
        }
      }
      GoodLength(x);
      AddWord(b', nb', n', x);
      b' := Or(b', Shl64(HBits(x), nb'));
      nb' := nb' + HLen(x);
    }

    /** Appends the code words of a string of literals, three at a time. */
    method WriteLiterals(data: seq<byte>, encoding: seq<nat>)
      requires Valid() && LiteralCodes(encoding)
      modifies this`bits, this`nbits, this`nbytes, this`out, this`writes, bytes
      ensures Valid() && Emitted() == old(Emitted()) + LiteralsEmit(encoding, data)
    {
      hide Stream, Pow2, CodeEmit, GoodCode;
      ghost var s0 := Emitted();
      var b: nat, nb: nat, n: nat := bits, nbits, nbytes;
      var input := data;
      while |input| > 3
        invariant n < FLUSH_SIZE && nb <= 52 && b < Pow2(nb) && LiteralCodes(encoding)
        invariant Stream(out, bytes[..], n, b, nb) + LiteralsEmit(encoding, input) == s0 + LiteralsEmit(encoding, data)
      {
        ghost var s := Stream(out, bytes[..], n, b, nb);
        b, nb, n := ThreeLiterals(encoding[input[0]], encoding[input[1]], encoding[input[2]], b, nb, n);
        LiteralsThree(encoding, input, s);
        input := input[3..];
      }
      ghost var s1 := Stream(out, bytes[..], n, b, nb);
      for i := 0 to |input|
        invariant n < FLUSH_SIZE && nb <= 62 && b < Pow2(nb) && LiteralCodes(encoding)
        invariant Stream(out, bytes[..], n, b, nb) + LiteralsEmit(encoding, input[i..]) == s1 +
          LiteralsEmit(encoding, input)
      {
        ghost var s := Stream(out, bytes[..], n, b, nb);
        b, nb, n := OneLiteral(encoding[input[i]], b, nb, n);
        LiteralsOne(encoding, input[i..], s);
        assert input[i..][1..] == input[i + 1..];
      }
      assert input[|input|..] == [];
      assert Stream(out, bytes[..], n, b, nb) + [] == Stream(out, bytes[..], n, b, nb);
      bits, nbits, nbytes := b, nb, n;
      if nbits >= 48 {
        WriteOutBits();
      }
    }

    /** Appends the code words and extra bits of the tokens, and an end of block if it is last. */
    method WriteTokens(tokens: seq<nat>, le: seq<nat>, oe: seq<nat>)
      requires Valid() && Tables(le, oe) && TokenList(tokens)
      modifies this`bits, this`nbits, this`nbytes, this`out, this`writes, bytes
      ensures Valid() && Emitted() == old(Emitted()) + ListEmit(le, oe, tokens)
    {
      hide Stream, Pow2, BitsOf, Tables, TokenEmit, CodeEmit;
      if |tokens| == 0 {
        return;
      }
      var ts := tokens;
      var deferEOB := false;
      if tokens[|tokens| - 1] == EOB_TOKEN {
        ts := tokens[..|tokens| - 1];
        deferEOB := true;
      }
      ghost var s0 := Emitted();
      var b: nat, nb: nat, n: nat := FlushLocal(bits, nbits, nbytes);
      for i := 0 to |ts|
        invariant n < FLUSH_SIZE && nb <= 7 && b < Pow2(nb)
        invariant Stream(out, bytes[..], n, b, nb) == s0 + TokensEmit(le, oe, ts[..i])
      {
        ghost var si := Stream(out, bytes[..], n, b, nb);
        var t := ts[i];
        TokensStep(le, oe, ts, i);
        if t < 256 {
          b, nb, n := EmitLiteral(t, le, oe, b, nb, n);
        } else {
          b, nb, n := EmitMatch(t, le, oe, b, nb, n);
        }
        assert si + TokenEmit(le, oe, t) == s0 + TokensEmit(le, oe, ts[..i + 1]);
      }
      assert ts[..|ts|] == ts;
      bits, nbits, nbytes := b, nb, n;
      if deferEOB {
        TablesGood(le, oe);
        WriteCode(le[END_OF_BLOCK]);
      }
    }

    method EmitLiteral(t: nat, le: seq<nat>, oe: seq<nat>, b: nat, nb: nat, n: nat) returns (b': nat, nb': nat, n': nat)
      requires bytes.Length == BUFFER_SIZE && n < FLUSH_SIZE && nb <= 7 && b < Pow2(nb)
      requires Tables(le, oe) && t < 256
      modifies this`out, bytes
      ensures n' < FLUSH_SIZE && nb' <= 7 && b' < Pow2(nb')
      ensures Stream(out, bytes[..], n', b', nb') == old(Stream(out, bytes[..], n, b, nb)) + TokenEmit(le, oe, t)
    {
      hide Stream, Pow2, BitsOf, Or, Shl64;
      var c := le[t];
      AppendField(out, bytes[..], n, b, nb, HBits(c), HLen(c));
      b', nb', n' := FlushLocal(Or(b, Shl64(HBits(c), nb)), nb + HLen(c), n);
    }
  }

  /** A code word for every byte. */
  predicate LiteralCodes(encoding: seq<nat>) {
    |encoding| >= 256 && forall v :: 0 <= v < 256 ==> GoodCode(encoding[v])
  }

  function LiteralsEmit(encoding: seq<nat>, data: seq<byte>): seq<bool>
    requires |encoding| >= 256
  {
    if data == [] then [] else CodeEmit(encoding[data[0]]) + LiteralsEmit(encoding, data[1..])
  }

  lemma LiteralsOne(encoding: seq<nat>, data: seq<byte>, s: seq<bool>)
    requires |encoding| >= 256 && data != []
    ensures s + CodeEmit(encoding[data[0]]) + LiteralsEmit(encoding, data[1..]) == s + LiteralsEmit(encoding, data)
  {
    hide CodeEmit;
  }

  lemma LiteralsThree(encoding: seq<nat>, data: seq<byte>, s: seq<bool>)
    requires |encoding| >= 256 && |data| >= 3
    ensures s + CodeEmit(encoding[data[0]]) + CodeEmit(encoding[data[1]]) + CodeEmit(encoding[data[2]])
        + LiteralsEmit(encoding, data[3..])
      == s + LiteralsEmit(encoding, data)
  {
    hide CodeEmit, LiteralsEmit;
    var a, b, c := CodeEmit(encoding[data[0]]), CodeEmit(encoding[data[1]]), CodeEmit(encoding[data[2]]);
    LiteralsOne(encoding, data, s);
    LiteralsOne(encoding, data[1..], s + a);
    LiteralsOne(encoding, data[2..], s + a + b);
    assert data[1..][1..] == data[2..] && data[2..][1..] == data[3..];
  }

  lemma GoodLength(c: nat)
    requires GoodCode(c)
    ensures HLen(c) <= MAX_BITS
  {
  }

  /** With canonical code words, literals write their items as the format prescribes. */
  lemma {:induction false} LiteralsAreItems(encoding: seq<nat>, lit: seq<nat>, off: seq<nat>, data: seq<byte>)
    requires Fits(lit) && Agree(lit, encoding) && |encoding| >= 256
    requires forall k :: 0 <= k < |data| ==> Used(lit, data[k])
    ensures CoversAll(lit, off, Lits(data))
    ensures LiteralsEmit(encoding, data) == ItemsBits(lit, off, Lits(data))
  {
    hide Fits, CodeEmit, SymBits, CanonHCode;
    if data != [] {
      assert Used(lit, data[0]);
      CanonEmits(lit, data[0]);
      LiteralsAreItems(encoding, lit, off, data[1..]);
      var xs := Lits(data);
      assert xs == [Lit(data[0])] + Lits(data[1..]);
      assert xs[1..] == Lits(data[1..]) && Covers(lit, off, xs[0]);
      assert forall k :: 1 <= k < |xs| ==> xs[k] == Lits(data[1..])[k - 1];
    }
  }

  /** Tokens with an end of block at the end or not at all. */
  predicate TokenList(ts: seq<nat>) {
    |ts| == 0 || (AllTokens(ts[..|ts| - 1]) && (ts[|ts| - 1] == EOB_TOKEN || AllTokens(ts)))
  }

  /** The bits of such a list. */
  function ListEmit(le: seq<nat>, oe: seq<nat>, ts: seq<nat>): seq<bool>
    requires Tables(le, oe) && TokenList(ts)
  {
    if |ts| == 0 then []
    else if ts[|ts| - 1] == EOB_TOKEN then TokensEmit(le, oe, ts[..|ts| - 1]) + CodeEmit(le[END_OF_BLOCK])
    else TokensEmit(le, oe, ts)
  }

  lemma TokensStep(le: seq<nat>, oe: seq<nat>, ts: seq<nat>, i: nat)
    requires Tables(le, oe) && AllTokens(ts) && i < |ts|
    ensures ValidToken(ts[i]) && AllTokens(ts[..i]) && AllTokens(ts[..i + 1])
    ensures TokensEmit(le, oe, ts[..i + 1]) == TokensEmit(le, oe, ts[..i]) + TokenEmit(le, oe, ts[i])
  {
    assert ts[..i + 1][..i] == ts[..i];
  }

  lemma TablesGood(le: seq<nat>, oe: seq<nat>)
    requires Tables(le, oe)
    ensures |le| > END_OF_BLOCK && GoodCode(le[END_OF_BLOCK])
  {
  }

  lemma GoodAt(codes: seq<nat>, k: nat)
    requires GoodCodes(codes) && k < |codes|
    ensures HLen(codes[k]) <= MAX_BITS && HBits(codes[k]) < Pow2(HLen(codes[k]))
  {
  }

  lemma CodeEmitIs(c: nat)
    ensures CodeEmit(c) == BitsOf(HBits(c), HLen(c))
  {
  }

  lemma NoBits(v: nat)
    ensures BitsOf(v, 0) == []
  {
  }

  lemma LengthSmall(c: nat)
    requires c <= 28
    ensures c < 8 ==> LengthExtra(c) == 0
  {
  }

  lemma OffsetSmall(c: nat)
    requires c <= 29
    ensures c < 4 ==> OffsetExtra(c) == 0
  {
  }

  lemma OffsetField(offset: nat, c: nat)
    requires c <= 29 && offset == c * OFFSET_UNIT + offset % OFFSET_UNIT
    requires OffsetBase(c) <= offset % OFFSET_UNIT
    ensures (offset - OffsetBase(c)) % OFFSET_UNIT == offset % OFFSET_UNIT - OffsetBase(c)
  {
    var r := offset % OFFSET_UNIT - OffsetBase(c);
    DivUnique(offset - OffsetBase(c), c, r, OFFSET_UNIT);
  }

  /** Four fields appended one after the other are the token's bits. */
  lemma TokenFields(le: seq<nat>, oe: seq<nat>, t: nat, s0: seq<bool>)
    requires Tables(le, oe) && IsMatch(t)
    ensures TokOffset(t) % OFFSET_UNIT < 0x8000
    ensures var xl, xo := TokLength(t), TokOffset(t) % OFFSET_UNIT;
      var lc, oc := LengthCode(xl), OffsetCode(xo);
      && OffsetBase(oc) <= xo
      && s0 + TokenEmit(le, oe, t)
        == s0 + CodeEmit(le[FIRST_LENGTH + lc]) + BitsOf(xl - LengthBase(lc), LengthExtra(lc))
          + CodeEmit(oe[oc]) + BitsOf(xo - OffsetBase(oc), OffsetExtra(oc))
  {
    hide LengthBase, LengthExtra, OffsetBase, OffsetExtra, LengthCode, OffsetCode, GoodCodes, CodeEmit, BitsOf, Pow2;
    IsMatchFields(t);
    var xl, xo := TokLength(t), TokOffset(t) % OFFSET_UNIT;
    OffsetRange(xo);
    assert TokenEmit(le, oe, t) == MatchEmit(le, oe, xl, xo);
  }

  /** nbits & 56 is the number of bits in whole bytes. */
  lemma WholeBytes(nb: nat)
    requires nb < 64
    ensures And(nb, 56) == 8 * (nb / 8) && Shr(nb, 3) == nb / 8 && And(nb, 7) == nb % 8
  {
    var x := nb / 2 / 2 / 2;
    assert x == nb / 8;
    assert And(nb, 56) == 2 * And(nb / 2, 28);
    assert And(nb / 2, 28) == 2 * And(nb / 2 / 2, 14);
    assert And(nb / 2 / 2, 14) == 2 * And(x, 7);
    assert Pow2(3) == 8;
    AndMask(x, 3);
    AndMask(nb, 3);
    LowSmall(x, 3);
    ShiftIsDivision(nb, 3);
  }

  /** The bits missing to a whole byte. */
  function Padding(n: nat): nat {
    (8 - n % 8) % 8
  }

  function Zeros(n: nat): seq<bool> {
    seq(n, _ => false)
  }

  function RoundUp(n: nat): nat {
    n + Padding(n)
  }

  lemma RoundUpIs(n: nat)
    ensures n <= RoundUp(n) < n + 8 && RoundUp(n) % 8 == 0
  {
  }

  lemma PadWaiting(out: seq<byte>, buf: seq<byte>, n: nat, bits: nat, nbits: nat)
    requires n <= |buf| && bits < Pow2(nbits)
    ensures bits < Pow2(RoundUp(nbits))
    ensures var s := Stream(out, buf, n, bits, nbits);
      Stream(out, buf, n, bits, RoundUp(nbits)) == s + Zeros(Padding(|s|))
  {
    hide Pow2, BitsOf, BytesBits;
    UnreadAreZeros(bits, nbits, Padding(nbits));
    Pow2Mono(nbits, RoundUp(nbits));
    var k := |out + buf[..n]|;
    assert |Stream(out, buf, n, bits, nbits)| == 8 * k + nbits;
    assert (8 * k + nbits) % 8 == nbits % 8;
    var p := Padding(nbits);
    assert BitsOf(bits, nbits + p) == BitsOf(bits, nbits) + Zeros(p);
  }

  /** One whole byte from the waiting bits to the buffer. */
  lemma ByteOut(out: seq<byte>, buf: seq<byte>, n: nat, bits: nat, m: nat)
    requires n < |buf| && 8 <= m && bits < Pow2(m)
    ensures Stream(out, buf[n := LowByte(bits)], n + 1, Shr(bits, 8), m - 8) == Stream(out, buf, n, bits, m)
    ensures Shr(bits, 8) < Pow2(m - 8)
  {
    hide Pow2, BitsOf, Shr, BytesBits, LowByte;
    var r := buf[n := LowByte(bits)];
    assert out + r[..n + 1] == (out + buf[..n]) + [LowByte(bits)];
    BytesBitsConcat(out + buf[..n], [LowByte(bits)]);
    LowByteIs(bits);
    BitsOfLow(bits, 8);
    OneByte(LowByte(bits));
    BitsOfSplit(bits, 8, m - 8);
    ShrBound(bits, 8, m - 8);
  }

  lemma OneByte(b: byte)
    ensures BytesBits([b]) == BitsOf(b, 8)
  {
    assert [b][1..] == [];
  }

  lemma NothingWaits(bits: nat)
    requires bits < Pow2(0)
    ensures bits == 0
  {
  }

  lemma NoBuffer(out: seq<byte>, buf: seq<byte>)
    ensures Stream(out, buf, 0, 0, 0) == BytesBits(out)
    ensures 0 < Pow2(0)
  {
    assert out + buf[..0] == out;
  }
}
