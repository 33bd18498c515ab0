/** Any sequence of calls on the block writer, over any number of streams: what comes out decodes to
    what went in. */
module WriterRun {
  import opened Words
  import opened Canon
  import opened Lz
  import opened Tokens
  import opened TokenBuffer
  import opened BitReader
  import opened BitWriter
  import opened Blocks
  import opened WriterState
  import opened HuffmanEncoder
  import opened LiteralChoice
  import opened BlockWriter

  /** A call, with the bytes it stands for and the outcomes of comparisons with estimated sizes. The bytes
      that may be stored in place of tokens have front before those the tokens stand for. */
  datatype Call =
    | Smallest(tokens: seq<nat>, data: seq<byte>, given: bool)
    | DynamicCall(tokens: seq<nat>, front: seq<byte>, data: seq<byte>, given: bool, sync: bool, choice: Choice)
    | Huff(data: seq<byte>, sync: bool)
    | Raw(data: seq<byte>)
    | Sync

  function DataOf(c: Call): seq<byte> {
    if c.Sync? then [] else c.data
  }

  function AllData(cs: seq<Call>): seq<byte> {
    if cs == [] then [] else DataOf(cs[0]) + AllData(cs[1..])
  }

  /** The tokens of the call stand for its data after the history h. */
  predicate Means(h: seq<byte>, tokens: seq<nat>, data: seq<byte>) {
    && AllTokens(tokens) && |tokens| < MAX_BLOCK
    && AllValid(h, Items(tokens)) && Expand(h, Items(tokens)) == h + data
  }

  predicate GoodCall(h: seq<byte>, c: Call) {
    match c
    case Smallest(tokens, data, _) => Means(h, tokens, data)
    case DynamicCall(tokens, front, data, _, sync, _) =>
      Means(h, tokens, data) && (tokens != [] || sync) && (front == [] || front == h)
    case Huff(data, _) => |data| <= MAX_BLOCK
    case Raw(data) => |data| <= MAX_STORED
    case Sync => true
  }

  predicate GoodCalls(h: seq<byte>, cs: seq<Call>)
    decreases |cs|
  {
    cs == [] || (GoodCall(h, cs[0]) && GoodCalls(h + DataOf(cs[0]), cs[1..]))
  }

  /** Between calls: the writer is ready, no block written is final, and after the preset dictionary the
      blocks give h. */
  ghost predicate Holds(w: Writer, dict: seq<byte>, h: seq<byte>)
    reads w, w.sink, w.sink.bytes, w.literalEncoding.codes, w.offsetEncoding.codes
  {
    w.Ready() && NoneFinal(w.AllClosed()) && AllValid(dict, w.Items()) && Expand(dict, w.Items()) == h
  }

  /** Items added by a call stand for its data whichever way it wrote them. */
  lemma AppendedData(dict: seq<byte>, before: seq<Item>, after: seq<Item>, xs: seq<Item>, input: Option<seq<byte>>,
          h: seq<byte>, data: seq<byte>)
    requires AllValid(dict, before) && Expand(dict, before) == h && Appended(before, after, xs, input)
    requires AllValid(h, xs) && Expand(h, xs) == h + data && (input.Some? ==> input.value == data)
    ensures AllValid(dict, after) && Expand(dict, after) == h + data
  {
    ExpandConcat(dict, before, xs);
    ExpandConcat(dict, before, Lits(data));
    ExpandLits(h, data);
  }

  lemma AddedLits(dict: seq<byte>, before: seq<Item>, h: seq<byte>, data: seq<byte>)
    requires AllValid(dict, before) && Expand(dict, before) == h
    ensures AllValid(dict, before + Lits(data)) && Expand(dict, before + Lits(data)) == h + data
  {
    ExpandConcat(dict, before, Lits(data));
    ExpandLits(h, data);
  }

  lemma OneNotFinal(before: seq<Block>, after: seq<Block>)
    requires NoneFinal(before) && OneBlock(before, after, false)
    ensures NoneFinal(after)
  {
    forall k | 0 <= k < |after| ensures !after[k].final {
      if k < |before| { assert after[..|before|][k] == before[k]; }
    }
  }

  lemma OpenNotFinal(closed: seq<Block>, a: Open, b: Open)
    requires a.OpenBlock? && b.OpenBlock? && a.final == b.final && NoneFinal(closed + [Finished(a)])
    ensures NoneFinal(closed + [Finished(b)])
  {
    SameFinal(closed, a, b);
  }

  function Input(given: bool, data: seq<byte>): Option<seq<byte>> {
    if given then Some(data) else None
  }

  /** What storing the call's bytes puts in front of its data. */
  function Front(c: Call, asStored: bool): seq<byte> {
    if asStored && c.DynamicCall? then c.front else []
  }

  /** All of it. */
  function Fronts(cs: seq<Call>, stored: seq<bool>): seq<byte>
    requires |cs| == |stored|
  {
    if cs == [] then [] else Front(cs[0], stored[0]) + Fronts(cs[1..], stored[1..])
  }

  lemma {:induction false} FrontsMore(cs: seq<Call>, stored: seq<bool>, k: nat)
    requires |cs| == |stored| && k < |cs|
    ensures Fronts(cs[..k + 1], stored[..k + 1]) == Fronts(cs[..k], stored[..k]) + Front(cs[k], stored[k])
  {
    if k == 0 {
      assert cs[..1][1..] == [] && stored[..1][1..] == [] && cs[..0] == [] && stored[..0] == [];
      assert Front(cs[0], stored[0]) + [] == [] + Front(cs[0], stored[0]);
    } else {
      FrontsMore(cs[1..], stored[1..], k - 1);
      assert cs[..k + 1][1..] == cs[1..][..k] && cs[..k][1..] == cs[1..][..k - 1];
      assert stored[..k + 1][1..] == stored[1..][..k] && stored[..k][1..] == stored[1..][..k - 1];
      Assoc(Front(cs[0], stored[0]), Fronts(cs[1..][..k - 1], stored[1..][..k - 1]), Front(cs[k], stored[k]));
    }
  }

  /** Nothing is ever given in front. */
  predicate NoFronts(cs: seq<Call>) {
    forall k :: 0 <= k < |cs| && cs[k].DynamicCall? ==> cs[k].front == []
  }

  lemma {:induction false} FrontsNone(cs: seq<Call>, stored: seq<bool>)
    requires |cs| == |stored| && NoFronts(cs)
    ensures Fronts(cs, stored) == []
  {
    if cs != [] { FrontsNone(cs[1..], stored[1..]); }
  }

  /** Whether the call's bytes were stored is decided by its tokens and its bytes. */
  ghost predicate Decides(c: Call, asStored: bool) {
    c.DynamicCall? ==> Chosen(WithEnd(c.tokens, c.sync), Input(c.given, c.front + c.data), asStored)
  }

  /** A buffer with these tokens, apart from the writer. */
  method BufferFor(w: Writer, ts: seq<nat>) returns (t: Buffer)
    requires AllTokens(ts) && |ts| < MAX_BLOCK
    ensures fresh(t) && fresh(t.Repr()) && w.Foreign(t)
    ensures t.Valid() && t.Slice() == ts && t.n == |ts| && t.n < t.tokens.Length
  {
    hide Buffer.Valid, Buffer.Slice, AllTokens;
    t := IndexTokens(ts);
  }

  /** The call with its tokens in a buffer of its own. */
  method CallSmallest(w: Writer, c: Call)
    requires w.Ready() && c.Smallest? && AllTokens(c.tokens) && |c.tokens| < MAX_BLOCK
    modifies w.Footprint()
    ensures w.Ready() && OneBlock(old(w.AllClosed()), w.AllClosed(), false)
    ensures Appended(old(w.Items()), w.Items(), Items(c.tokens), Input(c.given, c.data))
    ensures w.literalEncoding == old(w.literalEncoding) && w.tmpLitEncoding == old(w.tmpLitEncoding)
  {
    hide Writer.Base, Encoder.Repr, Stream, StateBits, GoodBlocks, GoodOpen, HeaderOk, OneBlock, Appended, Buffer.Valid,
         StateItems, AllTokens, FormChosen;
    var t := BufferFor(w, c.tokens);
    w.AllApart(t);
    w.WriteBlock(t, false, Input(c.given, c.data));
    assert w.closed + [] == w.closed;
  }

  method CallDynamic(w: Writer, c: Call) returns (ghost asStored: bool)
    requires w.Ready() && c.DynamicCall? && AllTokens(c.tokens) && |c.tokens| < MAX_BLOCK
    requires |c.tokens| > 0 || c.sync
    modifies w.Footprint()
    ensures w.Ready() && Finality(old(w.AllClosed()), w.AllClosed(), false)
    ensures Took(old(w.Items()), w.Items(), Items(c.tokens), Input(c.given, c.front + c.data), asStored)
    ensures old(w.open) == NoBlock && !old(w.hdr.valid) ==> Decides(c, asStored)
    ensures w.literalEncoding == old(w.literalEncoding) && w.tmpLitEncoding == old(w.tmpLitEncoding)
  {
    hide Writer.Base, Encoder.Repr, Stream, StateBits, GoodBlocks, GoodOpen, HeaderOk, Finality, Took, Buffer.Valid;
    hide StateItems, AllTokens, Chosen;
    var t := BufferFor(w, c.tokens);
    w.AllApart(t);
    asStored := w.WriteBlockDynamic(t, false, Input(c.given, c.front + c.data), c.sync, c.choice);
  }

  method PerformSmallest(w: Writer, c: Call, ghost dict: seq<byte>, ghost h: seq<byte>)
    requires Holds(w, dict, h) && c.Smallest? && Means(h, c.tokens, c.data)
    modifies w.Footprint()
    ensures Holds(w, dict, h + c.data) && w.Footprint() == old(w.Footprint())
  {
    hide Writer.Ready, Expand, AllValid, AllTokens, NoneFinal, OneBlock, Appended, StateItems;
    CallSmallest(w, c);
    AppendedData(dict, old(w.Items()), w.Items(), Items(c.tokens), Input(c.given, c.data), h, c.data);
    OneNotFinal(old(w.AllClosed()), w.AllClosed());
  }

  /** After the call, the bytes given in front come before everything, if they were stored. */
  lemma TookData(dict: seq<byte>, before: seq<Item>, after: seq<Item>, c: Call, p: seq<byte>, h: seq<byte>,
          asStored: bool)
    requires AllValid(dict, before) && Expand(dict, before) == p + h && c.DynamicCall? && GoodCall(h, c)
    requires Took(before, after, Items(c.tokens), Input(c.given, c.front + c.data), asStored)
    ensures AllValid(dict, after) && Expand(dict, after) == p + Front(c, asStored) + (h + c.data)
  {
    hide AllTokens, Expand, AllValid, Lits;
    if asStored {
      ExpandConcat(dict, before, Lits(c.front + c.data));
      ExpandLits(p + h, c.front + c.data);
      if c.front == [] {
        assert p + h + (c.front + c.data) == p + c.front + (h + c.data);
      }
    } else {
      ExpandConcat(dict, before, Items(c.tokens));
      ExpandFrame(p, h, Items(c.tokens));
      assert p + [] == p;
    }
  }

  method PerformDynamic(w: Writer, c: Call, ghost dict: seq<byte>, ghost p: seq<byte>, ghost h: seq<byte>)
    returns (ghost asStored: bool)
    requires Holds(w, dict, p + h) && c.DynamicCall? && GoodCall(h, c)
    modifies w.Footprint()
    ensures Holds(w, dict, p + Front(c, asStored) + (h + c.data)) && w.Footprint() == old(w.Footprint())
    ensures old(w.open) == NoBlock && !old(w.hdr.valid) ==> Decides(c, asStored)
  {
    hide Writer.Ready, Expand, AllValid, AllTokens, NoneFinal, OneBlock, Took, StateItems, Decides;
    asStored := CallDynamic(w, c);
    TookData(dict, old(w.Items()), w.Items(), c, p, h, asStored);
  }

  method PerformHuff(w: Writer, c: Call, ghost dict: seq<byte>, ghost h: seq<byte>)
    requires Holds(w, dict, h) && c.Huff? && |c.data| <= MAX_BLOCK
    modifies w.Footprint()
    ensures Holds(w, dict, h + c.data) && w.Footprint() == old(w.Footprint())
  {
    hide Writer.Inv, Expand, AllValid, NoneFinal, OneBlock, StateItems, Lits, Continuing, Storing, OwnLens;
    ghost var continued := w.WriteBlockHuff(false, c.data, c.sync);
    AddedLits(dict, old(w.Items()), h, c.data);
    if continued {
      OpenNotFinal(old(w.closed), old(w.open), old(w.open).(items := old(w.open).items + Lits(c.data)));
    } else {
      OneNotFinal(old(w.AllClosed()), w.AllClosed());
    }
  }

  method PerformRaw(w: Writer, c: Call, ghost dict: seq<byte>, ghost h: seq<byte>)
    requires Holds(w, dict, h) && c.Raw? && |c.data| <= MAX_STORED
    modifies w.Footprint()
    ensures Holds(w, dict, h + c.data) && w.Footprint() == old(w.Footprint())
  {
    hide Writer.Inv, Expand, AllValid, NoneFinal, OneBlock, StateItems, Lits;
    w.StoreWhole(c.data, false);
    AddedLits(dict, old(w.Items()), h, c.data);
    OneNotFinal(old(w.AllClosed()), w.AllClosed());
  }

  method PerformSync(w: Writer, ghost dict: seq<byte>, ghost h: seq<byte>)
    requires Holds(w, dict, h)
    modifies w.Footprint()
    ensures Holds(w, dict, h) && w.Footprint() == old(w.Footprint())
  {
    hide Writer.Inv, Expand, AllValid, NoneFinal, StateItems;
    w.SyncFlush();
    OneMoreBlock(old(w.AllClosed()), Stored(false, []));
    OneNotFinal(old(w.AllClosed()), w.closed);
    assert w.closed + [] == w.closed;
  }

  method Perform(w: Writer, c: Call, ghost dict: seq<byte>, ghost p: seq<byte>, ghost h: seq<byte>)
    returns (ghost asStored: bool)
    requires Holds(w, dict, p + h) && GoodCall(h, c)
    modifies w.Footprint()
    ensures Holds(w, dict, p + Front(c, asStored) + (h + DataOf(c))) && w.Footprint() == old(w.Footprint())
    ensures old(w.open) == NoBlock && !old(w.hdr.valid) ==> Decides(c, asStored)
  {
    hide Holds, Means, Writer.Footprint, Chosen;
    asStored := false;
    assert p + [] == p;
    if c.DynamicCall? {
      asStored := PerformDynamic(w, c, dict, p, h);
      return;
    }
    Assoc(p, h, DataOf(c));
    if c.Smallest? {
      MeansBehind(p, h, c.tokens, c.data);
      PerformSmallest(w, c, dict, p + h);
    } else if c.Huff? {
      PerformHuff(w, c, dict, p + h);
    } else if c.Raw? {
      PerformRaw(w, c, dict, p + h);
    } else {
      PerformSync(w, dict, p + h);
      assert h + [] == h;
    }
  }

  /** Tokens mean the same with more in front. */
  lemma MeansBehind(p: seq<byte>, h: seq<byte>, tokens: seq<nat>, data: seq<byte>)
    requires Means(h, tokens, data)
    ensures Means(p + h, tokens, data)
  {
    hide Expand, AllValid, AllTokens;
    ExpandFrame(p, h, Items(tokens));
    Assoc(p, h, data);
  }

  /** No stream is begun. */
  ghost predicate Idle(w: Writer)
    reads w, w.sink, w.sink.bytes, w.literalEncoding.codes, w.offsetEncoding.codes
  {
    w.Ready() && w.closed == [] && w.open == NoBlock
  }

  lemma IdleHolds(w: Writer, dict: seq<byte>)
    requires Idle(w)
    ensures Holds(w, dict, dict)
  {
    hide Writer.Ready;
  }

  /** A whole stream. Whatever the calls are, whichever forms the blocks took, and whatever the header
      cache holds from earlier streams, decoding the bytes gives the concatenated data, after everything
      that was given in front of data and stored with it. */
  method RunStream(w: Writer, ghost dict: seq<byte>, calls: seq<Call>)
    returns (bytes: seq<byte>, ghost padding: seq<bool>, ghost stored: seq<bool>)
    requires Idle(w) && GoodCalls(dict, calls)
    modifies w.Footprint()
    ensures |stored| == |calls| && |padding| < 8
    ensures ReadStream(BytesBits(bytes), dict) == Some((Fronts(calls, stored) + (dict + AllData(calls)), padding))
    ensures calls != [] && !old(w.hdr.valid) ==> Decides(calls[0], stored[0])
    ensures Idle(w) && w.Footprint() == old(w.Footprint())
  {
    hide Holds, Writer.Footprint, GoodCall, ReadStream, BytesBits, Decides, Writer.Ready;
    IdleHolds(w, dict);
    ghost var h, p: seq<byte> := dict, [];
    stored := [];
    assert calls[0..] == calls && calls[..0] == [] && [] + dict == dict;
    for i := 0 to |calls|
      invariant |stored| == i && p == Fronts(calls[..i], stored)
      invariant Holds(w, dict, p + h) && GoodCalls(h, calls[i..]) && h + AllData(calls[i..]) == dict + AllData(calls)
      invariant w.Footprint() == old(w.Footprint())
      invariant i == 0 ==> w.open == NoBlock && w.hdr == old(w.hdr)
      invariant i > 0 && !old(w.hdr.valid) ==> Decides(calls[0], stored[0])
    {
      ghost var c := calls[i];
      assert calls[i..][0] == c && calls[i..][1..] == calls[i + 1..];
      ghost var asStored := Perform(w, calls[i], dict, p, h);
      h := h + DataOf(c);
      p := p + Front(c, asStored);
      NextFront(calls[..i + 1], stored, asStored);
      assert calls[..i + 1][..i] == calls[..i];
      stored := stored + [asStored];
    }
    assert calls[|calls|..] == [] && h == dict + AllData(calls) && calls[..|calls|] == calls;
    bytes, padding := FinishStream(w, dict, p + h);
  }

  lemma NextFront(cs: seq<Call>, stored: seq<bool>, asStored: bool)
    requires |cs| == |stored| + 1
    ensures Fronts(cs, stored + [asStored]) == Fronts(cs[..|stored|], stored) + Front(cs[|stored|], asStored)
  {
    var k, s := |stored|, stored + [asStored];
    FrontsMore(cs, s, k);
    assert cs[..k + 1] == cs && s[..k + 1] == s && s[..k] == stored;
  }

  method FinishStream(w: Writer, ghost dict: seq<byte>, ghost h: seq<byte>)
    returns (bytes: seq<byte>, ghost padding: seq<bool>)
    requires Holds(w, dict, h)
    modifies w.Footprint()
    ensures ReadStream(BytesBits(bytes), dict) == Some((h, padding)) && |padding| < 8
    ensures Idle(w) && w.Footprint() == old(w.Footprint())
  {
    hide Writer.Inv, ReadStream, BytesBits;
    bytes, padding := w.Close(dict);
  }
}
