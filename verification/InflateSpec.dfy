/** Decoding one item at a time: what remains to be decoded at each point of a stream, and what the
    two ways of saying it have in common. */
module InflateSpec {
  import opened Words
  import opened Canon
  import opened Lz
  import opened LzCodes
  import opened Format
  import opened Codegen
  import opened Header
  import opened BitReader
  import opened Blocks

  type Outcome = Option<(seq<byte>, seq<bool>)>

  /** What follows the end of a block. */
  function After(bits: seq<bool>, h: seq<byte>, final: bool): Outcome {
    if final then Some((h, bits)) else ReadStream(bits, h)
  }

  /** What follows from inside a block with these codes. */
  function FromItems(lit: seq<nat>, off: seq<nat>, bits: seq<bool>, h: seq<byte>, final: bool): Outcome
    decreases |bits|
  {
    ReadItemShorter(lit, off, bits);
    match ReadItem(lit, off, bits)
    case Bad => None
    case Stop(rest) => After(rest, h, final)
    case Got(x, rest) => if Valid(h, x) then FromItems(lit, off, rest, Apply(h, x), final) else None
  }

  /** What follows from inside a stored block with n bytes to go. */
  function FromStored(n: nat, bits: seq<bool>, h: seq<byte>, final: bool): Outcome {
    if |bits| < 8 * n then None else After(bits[8 * n..], h + BytesOf(bits[..8 * n]), final)
  }

  /** Decoding a block at once or item by item gives the same. */
  lemma {:induction false} BodySteps(lit: seq<nat>, off: seq<nat>, bits: seq<bool>, h: seq<byte>, final: bool)
    ensures FromItems(lit, off, bits, h, final) ==
      match ReadItems(lit, off, bits)
      case None => None
      case Some(p) => if AllValid(h, p.0) then After(p.1, Expand(h, p.0), final) else None
    decreases |bits|
  {
    hide ReadItem, Apply, Valid, ReadStream;
    ReadItemShorter(lit, off, bits);
    match ReadItem(lit, off, bits)
    case Bad =>
    case Stop(rest) =>
    case Got(x, rest) =>
      var r := ReadItems(lit, off, rest);
      if r.Some? {
        var xs := [x] + r.value.0;
        assert xs[1..] == r.value.0;
      }
      if Valid(h, x) { BodySteps(lit, off, rest, Apply(h, x), final); }
  }

  /** A coded block. */
  lemma CodedBlock(bits: seq<bool>, h: seq<byte>, lit: seq<nat>, off: seq<nat>, rest: seq<bool>)
    requires |bits| >= 3 && ReadBlock(bits) == ReadBody(bits[0], lit, off, rest)
    ensures ReadStream(bits, h) == FromItems(lit, off, rest, h, bits[0])
  {
    hide ReadItems, ReadBlock;
    BodySteps(lit, off, rest, h, bits[0]);
  }

  /** The length of a stored block, after its opening bits. */
  function StoredLen(rest: seq<bool>): (r: Option<nat>)
    ensures r.Some? ==> |rest| >= |rest| % 8 + 32 && r.value <= MAX_STORED
  {
    var p := |rest| % 8;
    if |rest| < p + 32 then None
    else
      var n, m := ValueOf(rest[p..p + 16]), ValueOf(rest[p + 16..p + 32]);
      if n <= MAX_STORED && m == MAX_STORED - n then Some(n) else None
  }

  /** A stored block, its length read. */
  lemma StoredBlock(bits: seq<bool>, h: seq<byte>, n: nat)
    requires |bits| >= 3 && !bits[1] && !bits[2]
    requires StoredLen(bits[3..]) == Some(n)
    ensures ReadStream(bits, h) == FromStored(n, bits[3..][|bits[3..]| % 8 + 32..], h, bits[0])
  {
    hide BytesOf, ValueOf, Lits, ReadHeader, ReadItems, AllValid, Expand;
    var p := |bits[3..]| % 8;
    var rest := bits[3..][p + 32..];
    StoredKind(bits);
    if |rest| >= 8 * n {
      ExpandLits(h, BytesOf(rest[..8 * n]));
    }
  }

  lemma StoredBad(bits: seq<bool>, h: seq<byte>)
    requires |bits| >= 3 && !bits[1] && !bits[2]
    requires StoredLen(bits[3..]) == None
    ensures ReadStream(bits, h) == None
  {
    hide BytesOf, ValueOf, Lits, ReadHeader, ReadItems, AllValid, Expand;
    StoredKind(bits);
  }

  lemma {:induction false} BytesOfJoin(data: seq<byte>, a: seq<bool>)
    ensures BytesOf(BytesBits(data) + a) == data + BytesOf(a)
  {
    hide BitsOf, ValueOf;
    if data == [] {
      assert BytesBits(data) + a == a;
    } else {
      hide BytesOf;
      Assoc(BitsOf(data[0], 8), BytesBits(data[1..]), a);
      Pow2Values();
      ByteFirst(data[0], BytesBits(data[1..]) + a);
      BytesOfJoin(data[1..], a);
      Assoc([data[0]], data[1..], BytesOf(a));
    }
  }

  lemma ByteFirst(v: byte, a: seq<bool>)
    ensures BytesOf(BitsOf(v, 8) + a) == [v] + BytesOf(a)
  {
    hide BitsOf, ValueOf;
    Cut(BitsOf(v, 8), a);
    Pow2Values();
    FieldBack(v, 8);
  }

  // ---------------------------------------------------------------------------------------------
  // How many bits at least remain.
  // ---------------------------------------------------------------------------------------------

  /** From inside a block at least its end-of-block code and, unless it is the last, another block
      remain before the end of the stream. */
  lemma {:induction false} ItemsRemain(lit: seq<nat>, off: seq<nat>, bits: seq<bool>, h: seq<byte>, final: bool)
    requires FromItems(lit, off, bits, h, final).Some?
    ensures Used(lit, END_OF_BLOCK)
    ensures var end := |FromItems(lit, off, bits, h, final).value.1|;
      end + lit[END_OF_BLOCK] + (if final then 0 else 10) <= |bits|
    decreases |bits|
  {
    hide DecodeTo, Apply, Valid, ReadStream;
    ReadItemShorter(lit, off, bits);
    match ReadItem(lit, off, bits)
    case Stop(rest) =>
      if !final { StreamRemains(rest, h); }
    case Got(x, rest) =>
      ItemsRemain(lit, off, rest, Apply(h, x), final);
    case Bad =>
  }

  lemma FixedEnd7(bits: seq<bool>)
    ensures Used(FixedLit(), END_OF_BLOCK) && FixedLit()[END_OF_BLOCK] == 7
  {
  }

  /** A stream is at least ten bits: its shortest block is an empty one with the fixed code. */
  lemma {:induction false} StreamRemains(bits: seq<bool>, h: seq<byte>)
    requires ReadStream(bits, h).Some?
    ensures |ReadStream(bits, h).value.1| + 10 <= |bits|
    decreases |bits|
  {
    hide ReadItems, ReadHeader, BytesOf, Lits, AllValid, Expand, ReadBlock;
    ReadBlockShorter(bits);
    BlockSize(bits);
    var r := ReadBlock(bits);
    if !r.final {
      StreamRemains(r.rest, Expand(h, r.items));
    }
  }

  lemma BlockSize(bits: seq<bool>)
    requires ReadBlock(bits).Reading?
    ensures |ReadBlock(bits).rest| + 10 <= |bits|
  {
    hide ReadItems, ReadHeader, BytesOf, Lits, FixedLit, FixedOff;
    var rest := bits[3..];
    if bits[1] && !bits[2] {
      FixedEnd7(rest);
      BodySize(FixedLit(), FixedOff(), rest);
    } else if !bits[1] && bits[2] {
      HeaderLong(rest);
      var h := ReadHeader(rest).value;
      BodyShorter(h.0, h.1, h.2);
    }
  }

  lemma BodyShorter(lit: seq<nat>, off: seq<nat>, bits: seq<bool>)
    requires ReadItems(lit, off, bits).Some?
    ensures |ReadItems(lit, off, bits).value.1| <= |bits|
  {
  }

  /** The body of a block is at least its end-of-block code. */
  lemma {:induction false} BodySize(lit: seq<nat>, off: seq<nat>, bits: seq<bool>)
    requires ReadItems(lit, off, bits).Some?
    ensures Used(lit, END_OF_BLOCK) && |ReadItems(lit, off, bits).value.1| + lit[END_OF_BLOCK] <= |bits|
    decreases |bits|
  {
    hide DecodeTo;
    ReadItemShorter(lit, off, bits);
    match ReadItem(lit, off, bits)
    case Stop(rest) =>
    case Got(x, rest) => BodySize(lit, off, rest);
    case Bad =>
  }

  lemma HeaderLong(bits: seq<bool>)
    requires ReadHeader(bits).Some?
    ensures |ReadHeader(bits).value.2| + 14 <= |bits|
  {
    hide ReadLengths, Acceptable, SetLens;
    var nlit, ndist, nclen := ValueOf(bits[..5]) + 257, ValueOf(bits[5..10]) + 1, ValueOf(bits[10..14]) + 4;
    FieldValues(bits);
    ReadLengthsShorter(SetLens(bits[14..], nclen), bits[14 + 3 * nclen..], nlit + ndist, []);
  }

  // ---------------------------------------------------------------------------------------------
  // A stream by its first block.
  // ---------------------------------------------------------------------------------------------

  /** What a stored block gives, after its opening bits. */
  function FromStoredBlock(bits: seq<bool>, h: seq<byte>, final: bool): Outcome {
    match StoredLen(bits)
    case None => None
    case Some(n) => FromStored(n, bits[|bits| % 8 + 32..], h, final)
  }

  /** What the three kinds of block give, after their opening bits. */
  function FromBlock(typ: nat, bits: seq<bool>, h: seq<byte>, final: bool): Outcome {
    if typ == 0 then FromStoredBlock(bits, h, final)
    else if typ == 1 then FromItems(FixedLit(), FixedOff(), bits, h, final)
    else if typ == 2 then
      (match ReadHeader(bits)
       case None => None
       case Some(r) => FromItems(r.0, r.1, r.2, h, final))
    else None
  }

  lemma KindOf(bits: seq<bool>)
    requires |bits| >= 3
    ensures ValueOf(bits[..1]) == (if bits[0] then 1 else 0)
    ensures ValueOf(bits[1..][..2]) == (if bits[1] then 1 else 0) + (if bits[2] then 2 else 0)
    ensures bits[1..][2..] == bits[3..]
  {
    assert bits[..1][1..] == [];
    var t := bits[1..][..2];
    assert t[1..][1..] == [] && t[1..][0] == bits[2] && t[0] == bits[1];
  }

  /** A stream begins with a block of its kind. */
  lemma StreamUnfold(bits: seq<bool>, h: seq<byte>)
    requires |bits| >= 3
    ensures ReadStream(bits, h) == FromBlock(ValueOf(bits[1..][..2]), bits[3..], h, ValueOf(bits[..1]) == 1)
  {
    hide ReadStream, FromItems, FromStored, StoredLen, ReadHeader, ValueOf;
    KindOf(bits);
    if !bits[1] && !bits[2] {
      if StoredLen(bits[3..]).Some? {
        StoredBlock(bits, h, StoredLen(bits[3..]).value);
      } else {
        StoredBad(bits, h);
      }
    } else if bits[1] && !bits[2] {
      BlockKinds(bits);
      CodedBlock(bits, h, FixedLit(), FixedOff(), bits[3..]);
    } else if !bits[1] && bits[2] {
      BlockKinds(bits);
      var r := ReadHeader(bits[3..]);
      if r.Some? {
        CodedBlock(bits, h, r.value.0, r.value.1, r.value.2);
      } else {
        MalformedStream(bits, h);
      }
    } else {
      BlockKinds(bits);
      MalformedStream(bits, h);
    }
  }

  lemma MalformedStream(bits: seq<bool>, h: seq<byte>)
    requires ReadBlock(bits).Malformed?
    ensures ReadStream(bits, h) == None
  {
    hide ReadBlock;
  }

  lemma BlockKinds(bits: seq<bool>)
    requires |bits| >= 3
    ensures bits[1] && !bits[2] ==> ReadBlock(bits) == ReadBody(bits[0], FixedLit(), FixedOff(), bits[3..])
    ensures !bits[1] && bits[2] && ReadHeader(bits[3..]).Some? ==>
      ReadBlock(bits) == ReadBody(bits[0], ReadHeader(bits[3..]).value.0, ReadHeader(bits[3..]).value.1,
        ReadHeader(bits[3..]).value.2)
    ensures !bits[1] && bits[2] && ReadHeader(bits[3..]).None? ==> ReadBlock(bits).Malformed?
    ensures bits[1] && bits[2] ==> ReadBlock(bits).Malformed?
  {
    hide ReadHeader, ReadBody, FixedLit, FixedOff;
  }
}
