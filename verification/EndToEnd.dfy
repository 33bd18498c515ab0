/** From the bytes written to a compressor to the bytes read from a decompressor. */
module EndToEnd {
  import opened Words
  import opened Canon
  import opened Lz
  import opened Tokens
  import opened TokenBuffer
  import opened Covering
  import opened BlockWriter
  import opened WriterRun
  import opened RoundTrip
  import Lazy
  import FastCompress

  /** What is done with a compressor before it is closed. */
  datatype Op = Feed(data: seq<byte>) | Flush

  function Fed(ops: seq<Op>): seq<byte> {
    if ops == [] then [] else Fed(ops[..|ops| - 1]) + if ops[|ops| - 1].Feed? then ops[|ops| - 1].data else []
  }

  lemma FedMore(ops: seq<Op>, k: nat)
    requires k < |ops|
    ensures Fed(ops[..k + 1]) == Fed(ops[..k]) + if ops[k].Feed? then ops[k].data else []
  {
    assert ops[..k + 1][..k] == ops[..k];
  }

  /** Levels 1 and 6, with any block size from 13 on, any preset dictionary, flushes anywhere, and reads of any
      sizes: what comes out is what went in. Only the dictionary's tokens, n of them, have to fit in the token
      buffer, which they do if no more than a block of it counts. */
  method FastStream(w: Writer, best: bool, blockSize: nat, dict: seq<byte>, ops: seq<Op>, sizes: seq<nat>,
          partialFlush: bool)
    returns (fits: bool, n: nat, out: seq<byte>)
    requires Idle(w) && 13 <= blockSize <= 65535
    requires sizes != [] && forall k :: 0 <= k < |sizes| ==> sizes[k] > 0
    modifies w.Footprint()
    ensures (fits <==> n <= blockSize + 1) && FastCompress.TokensFor(Preset(dict), n)
    ensures n == FastCompress.DictTokens(best, Preset(dict))
    ensures if fits then out == Fed(ops) else out == []
    ensures Idle(w) && w.Footprint() == old(w.Footprint())
  {
    hide Idle, Writer.Footprint, FastCompress.Compressor.Valid, GoodCalls, AllData, Decides, Preset;
    hide FastCompress.TokensFor, FastCompress.DictTokens;
    var calls;
    fits, n, calls := FastCalls(best, blockSize, dict, ops);
    if !fits {
      return fits, n, [];
    }
    ghost var stored;
    out, stored := EncodeDecode(w, dict, calls, sizes, partialFlush);
    FrontsNone(calls, stored);
    Rest(Preset(dict), out, Fed(ops));
  }

  /** 4096 zero bytes before blocks of 13: the dictionary takes at least 16 tokens, and there is room for 14. */
  method LongDictionary(w: Writer, best: bool, ops: seq<Op>) returns (fits: bool)
    requires Idle(w)
    modifies w.Footprint()
    ensures !fits
  {
    hide Idle, Writer.Footprint;
    var dict := seq(4096, _ => 0);
    assert Preset(dict) == dict;
    var n, out;
    fits, n, out := FastStream(w, best, 13, dict, ops, [1], false);
  }

  lemma PresetSize(dict: seq<byte>)
    ensures |Preset(dict)| <= 0x8000
  {
  }

  /** A compressor with a preset dictionary. */
  method NewFast(best: bool, blockSize: nat, dict0: seq<byte>)
    returns (c: FastCompress.Compressor, fits: bool, n: nat)
    requires 13 <= blockSize <= 65535
    ensures fresh(c) && fresh(c.tokens) && fresh(c.tokens.Repr()) && fresh(c.l1) && fresh(c.l1.gen) && fresh(c.l1.table)
    ensures fresh(c.l6) && fresh(c.l6.gen) && fresh(c.l6.table) && fresh(c.l6.bTable)
    ensures (fits <==> n <= blockSize + 1) && FastCompress.TokensFor(Preset(dict0), n)
    ensures n == FastCompress.DictTokens(best, Preset(dict0))
    ensures fits ==> c.Valid() && !c.sync && c.dict == Preset(dict0) && c.calls == [] && c.window == []
  {
    hide FastCompress.Compressor.Valid, FastCompress.TokensFor, Preset, FastCompress.DictTokens;
    hide FastCompress.Compressor.Tokens1, FastCompress.Compressor.Tokens6, FastCompress.Compressor.Base;
    c := new FastCompress.Compressor(blockSize, best);
    ghost var ts;
    fits, n, ts := c.FillWindow(dict0);
    if |Preset(dict0)| >= 13 {
      assert [] + Preset(dict0) == Preset(dict0);
      c.FoundAlone(Preset(dict0), ts);
    } else {
      ShortTokens(best, Preset(dict0));
    }
  }

  lemma ShortTokens(best: bool, b: seq<byte>)
    requires |b| < 13
    ensures FastCompress.DictTokens(best, b) == |b|
  {
  }

  method FastCalls(best: bool, blockSize: nat, dict0: seq<byte>, ops: seq<Op>)
    returns (fits: bool, n: nat, calls: seq<Call>)
    requires 13 <= blockSize <= 65535
    ensures (fits <==> n <= blockSize + 1) && FastCompress.TokensFor(Preset(dict0), n)
    ensures n == FastCompress.DictTokens(best, Preset(dict0))
    ensures fits ==> GoodCalls(Preset(dict0), calls) && NoFronts(calls) && AllData(calls) == Fed(ops)
  {
    hide FastCompress.Compressor.Valid, GoodCalls, AllData, FastCompress.TokensFor, FastCompress.DictTokens, Preset;
    var c;
    c, fits, n := NewFast(best, blockSize, dict0);
    if !fits {
      return fits, n, [];
    }
    ghost var dict := Preset(dict0);
    NoData();
    for i := 0 to |ops|
      invariant c.Valid() && !c.sync && c.dict == dict && c.Past() + c.window == dict + Fed(ops[..i])
    {
      FedMore(ops, i);
      match ops[i] {
        case Feed(data) =>
          c.Write(data);
        case Flush =>
          c.SyncFlush();
      }
    }
    c.Close();
    calls := c.calls;
    assert ops[..|ops|] == ops;
    Rest(dict, AllData(calls), Fed(ops));
  }

  lemma NoData()
    ensures AllData([]) == []
  {
  }

  lemma Rest(a: seq<byte>, x: seq<byte>, y: seq<byte>)
    requires a + x == a + y
    ensures x == y
  {
    assert (a + x)[|a|..] == x && (a + y)[|a|..] == y;
  }

  // ---------------------------------------------------------------------------------------------
  // Levels 7 to 9.
  // ---------------------------------------------------------------------------------------------

  /** Bytes are given in front of a block only if it is the first, and then they are the dictionary. */
  predicate FrontOnce(cs: seq<Call>, dict: seq<byte>) {
    forall k :: 0 <= k < |cs| && cs[k].DynamicCall? && cs[k].front != [] ==>
      cs[k].front == dict && forall j :: 0 <= j < k ==> !cs[j].DynamicCall?
  }

  /** The dictionary was stored as if it were data. */
  predicate Doubled(cs: seq<Call>, stored: seq<bool>)
    requires |cs| == |stored|
  {
    exists k :: 0 <= k < |cs| && stored[k] && cs[k].DynamicCall? && cs[k].front != []
  }

  lemma {:induction false} FrontsAre(cs: seq<Call>, stored: seq<bool>, dict: seq<byte>)
    requires |cs| == |stored| && FrontOnce(cs, dict)
    ensures Fronts(cs, stored) == if Doubled(cs, stored) then dict else []
  {
    if cs != [] {
      var rest, flags := cs[1..], stored[1..];
      assert Fronts(cs, stored) == Front(cs[0], stored[0]) + Fronts(rest, flags);
      FrontRest(cs, stored, dict);
      if cs[0].DynamicCall? {
        FrontsNone(rest, flags);
      } else {
        FrontsAre(rest, flags, dict);
      }
    }
  }

  lemma FrontRest(cs: seq<Call>, stored: seq<bool>, dict: seq<byte>)
    requires |cs| == |stored| > 0 && FrontOnce(cs, dict)
    ensures FrontOnce(cs[1..], dict) && (cs[0].DynamicCall? ==> NoFronts(cs[1..]))
    ensures Doubled(cs, stored)
      <==> (stored[0] && cs[0].DynamicCall? && cs[0].front != []) || Doubled(cs[1..], stored[1..])
  {
    var rest, flags := cs[1..], stored[1..];
    forall k | 0 <= k < |rest| && rest[k].DynamicCall? && rest[k].front != []
      ensures rest[k].front == dict && !cs[0].DynamicCall? && forall j :: 0 <= j < k ==> !rest[j].DynamicCall?
    {
      assert rest[k] == cs[k + 1];
      forall j | 0 <= j < k ensures !rest[j].DynamicCall? { assert rest[j] == cs[j + 1]; }
    }
    if Doubled(cs, stored) {
      var k :| 0 <= k < |cs| && stored[k] && cs[k].DynamicCall? && cs[k].front != [];
      if k > 0 { assert flags[k - 1] && rest[k - 1] == cs[k]; }
    }
    if Doubled(rest, flags) {
      var k :| 0 <= k < |rest| && flags[k] && rest[k].DynamicCall? && rest[k].front != [];
      assert stored[k + 1] && cs[k + 1] == rest[k];
    }
  }

  /** The bytes in front of a piece, among those given with it. */
  function FrontBytes(input: Option<seq<byte>>, n: nat): seq<byte> {
    if input.Some? && n <= |input.value| then input.value[..|input.value| - n] else []
  }

  lemma FrontIs(all: seq<byte>, written: seq<Lazy.Handed>, cuts: seq<nat>, leads: seq<nat>, k: nat)
    requires Lazy.Logged(all, written, cuts, leads) && k < |written| && written[k].Block?
    ensures cuts[k] <= cuts[k + 1] <= |all| && leads[k] <= cuts[k]
    ensures var data, input := all[cuts[k]..cuts[k + 1]], written[k].input;
      var front := FrontBytes(input, |data|);
      && (input.Some? ==> front + data == input.value)
      && (front != [] ==> cuts[k] == cuts[0] && front == all[..cuts[0]] && Lazy.NoBlocks(written[..k]))
  {
    hide Covered;
    assert Lazy.Piece(all, written[k], cuts[k], cuts[k + 1], leads[k]);
    if leads[k] != 0 { SameCuts(all, written, cuts, leads, k); }
    if written[k].input.Some? {
      assert all[cuts[k] - leads[k]..cuts[k + 1]] == all[cuts[k] - leads[k]..cuts[k]] + all[cuts[k]..cuts[k + 1]];
    }
  }

  /** Markers alone do not move on. */
  lemma {:induction false} SameCuts(all: seq<byte>, written: seq<Lazy.Handed>, cuts: seq<nat>, leads: seq<nat>, k: nat)
    requires Lazy.Logged(all, written, cuts, leads) && k <= |written| && Lazy.NoBlocks(written[..k])
    ensures cuts[k] == cuts[0]
  {
    hide Covered;
    if k > 0 {
      assert written[..k][k - 1] == written[k - 1] && written[..k - 1] == written[..k][..k - 1];
      assert Lazy.Piece(all, written[k - 1], cuts[k - 1], cuts[k], leads[k - 1]);
      SameCuts(all, written, cuts, leads, k - 1);
    }
  }

  /** The blocks handed over as calls, each with the bytes its tokens stand for. */
  method CallsFrom(written: seq<Lazy.Handed>, dict: seq<byte>, ghost all: seq<byte>, ghost cuts: seq<nat>,
          ghost leads: seq<nat>)
    returns (calls: seq<Call>)
    requires Lazy.Logged(all, written, cuts, leads) && cuts[0] <= |all| && dict == all[..cuts[0]]
    ensures GoodCalls(dict, calls) && dict + AllData(calls) == all[..cuts[|written|]] && FrontOnce(calls, dict)
    ensures |calls| == |written| && forall k :: 0 <= k < |calls| ==> SameCall(written[k], calls[k])
  {
    hide GoodCalls, GoodCall, AllData, Covered, AllValid, Expand, Items, Lazy.NoBlocks, FrontOnce, FrontBytes, SameCall;
    NoData();
    NoCalls(dict);
    assert dict + [] == dict;
    calls := [];
    var prev := dict;
    for i := 0 to |written|
      invariant cuts[i] <= |all| && prev == all[..cuts[i]] && GoodCalls(dict, calls) && dict + AllData(calls) == prev
      invariant FrontOnce(calls, dict) && |calls| == i && forall k :: 0 <= k < i ==> SameCall(written[k], calls[k])
    {
      assert Lazy.Piece(all, written[i], cuts[i], cuts[i + 1], leads[i]);
      var c := Sync;
      match written[i] {
        case Marker =>
          assert prev + [] == prev;
          MarkerCall(prev);
        case Block(tokens, input, sync) =>
          ghost var data := all[cuts[i]..cuts[i + 1]];
          BlockMeans(all, cuts[i], cuts[i + 1], tokens);
          FrontIs(all, written, cuts, leads, i);
          var next := Expand(prev, Items(tokens));
          var bytes := next[|prev|..];
          assert bytes == data;
          var choice: Choice := *;
          c := DynamicCall(tokens, FrontBytes(input, |bytes|), bytes, input.Some?, sync, choice);
          assert prev + data == all[..cuts[i + 1]];
          BlockCall(prev, written[i], c);
      }
      OneFront(written, calls, c, dict, i);
      FastCompress.GoodCallsMore(dict, calls, c);
      FastCompress.AllDataMore(calls, c);
      Assoc(dict, AllData(calls), DataOf(c));
      prev := prev + DataOf(c);
      calls := calls + [c];
    }
  }

  /** The call that a block becomes. */
  predicate SameCall(b: Lazy.Handed, c: Call) {
    match b
    case Marker => c == Sync
    case Block(tokens, input, sync) =>
      && c.DynamicCall? && c.tokens == tokens && c.sync == sync && c.given == input.Some?
      && (input.Some? ==> c.front + c.data == input.value)
  }

  lemma MarkerCall(h: seq<byte>)
    ensures GoodCall(h, Sync) && SameCall(Lazy.Marker, Sync)
  {
  }

  lemma BlockCall(h: seq<byte>, b: Lazy.Handed, c: Call)
    requires b.Block? && c.DynamicCall? && c.tokens == b.tokens != [] && c.sync == b.sync && c.given == b.input.Some?
    requires b.input.Some? ==> c.front + c.data == b.input.value
    requires Means(h, c.tokens, c.data) && (c.front == [] || c.front == h)
    ensures GoodCall(h, c) && SameCall(b, c)
  {
    hide Means;
  }

  lemma OneFront(written: seq<Lazy.Handed>, calls: seq<Call>, c: Call, dict: seq<byte>, i: nat)
    requires |calls| == i < |written| && (forall k :: 0 <= k < i ==> SameCall(written[k], calls[k])) &&
      FrontOnce(calls, dict)
    requires c.DynamicCall? && c.front != [] ==> c.front == dict && Lazy.NoBlocks(written[..i])
    ensures FrontOnce(calls + [c], dict)
  {
    if c.DynamicCall? && c.front != [] {
      forall j | 0 <= j < i ensures !calls[j].DynamicCall? { assert written[..i][j] == written[j]; }
    }
  }

  lemma NoCalls(h: seq<byte>)
    ensures GoodCalls(h, []) && FrontOnce([], h)
  {
  }

  lemma BlockMeans(all: seq<byte>, from: nat, to: nat, tokens: seq<nat>)
    requires Covered(all, from, tokens, to) && |tokens| < MAX_BLOCK
    ensures from <= to <= |all| && AllValid(all[..from], Items(tokens)) &&
      Expand(all[..from], Items(tokens)) == all[..to]
    ensures Means(all[..from], tokens, all[from..to])
  {
    hide AllValid, Expand, Items;
    assert all[..from] + all[from..to] == all[..to];
  }

  /** Levels 7 to 9, for any search depths. What comes out is what went in, exactly if there is no dictionary
      or its bytes were not stored with the first block. */
  method LazyStream(w: Writer, nice: nat, lazy: nat, chain: nat, dict: seq<byte>, ops: seq<Op>, sizes: seq<nat>,
          partialFlush: bool)
    returns (out: seq<byte>, ghost calls: seq<Call>, ghost stored: seq<bool>)
    requires Idle(w) && chain > 0 && sizes != [] && forall k :: 0 <= k < |sizes| ==> sizes[k] > 0
    modifies w.Footprint()
    ensures |stored| == |calls| && FrontOnce(calls, Preset(dict)) && AllData(calls) == Fed(ops)
    ensures out == (if Doubled(calls, stored) then Preset(dict) else []) + Fed(ops)
    ensures out == Fed(ops) <==> dict == [] || !Doubled(calls, stored)
    ensures calls != [] && !old(w.hdr.valid) ==> Decides(calls[0], stored[0])
    ensures Idle(w) && w.Footprint() == old(w.Footprint())
  {
    hide Idle, Writer.Footprint, GoodCalls, AllData, Fronts, FrontOnce, Doubled, Decides, Preset;
    PresetSize(dict);
    var made := LazyCalls(nice, lazy, chain, Preset(dict), ops);
    calls := made;
    out, stored := EncodeDecode(w, dict, made, sizes, partialFlush);
    FrontsAre(calls, stored, Preset(dict));
    PresetEmpty(dict);
    ghost var p := Fronts(calls, stored);
    if Doubled(calls, stored) {
      Rest(Preset(dict), out, Preset(dict) + Fed(ops));
    } else {
      Rest(Preset(dict), out, Fed(ops));
    }
  }

  lemma PresetEmpty(dict: seq<byte>)
    ensures |Preset(dict)| <= 0x8000 && (Preset(dict) == [] <==> dict == [])
  {
  }

  lemma NothingFed(dict: seq<byte>, ops: seq<Op>)
    ensures dict + Fed(ops[..0]) == dict
  {
    assert ops[..0] == [] && Fed([]) == [] && dict + [] == dict;
  }

  method LazyCalls(nice: nat, lazy: nat, chain: nat, dict: seq<byte>, ops: seq<Op>) returns (calls: seq<Call>)
    requires chain > 0 && |dict| <= 0x8000
    ensures GoodCalls(dict, calls) && AllData(calls) == Fed(ops) && FrontOnce(calls, dict)
  {
    hide Lazy.Compressor.Valid, GoodCalls, AllData, Lazy.Logged, FrontOnce, Fed;
    var c := new Lazy.Compressor(nice, lazy, chain);
    c.FillWindow(dict);
    NothingFed(dict, ops);
    for i := 0 to |ops|
      invariant c.Valid() && !c.sync && c.preset == |dict| && c.chain > 0 && c.all == dict + Fed(ops[..i])
      invariant fresh(c) && fresh(c.window) && fresh(c.hashHead) && fresh(c.hashPrev) && fresh(c.tokens) &&
        fresh(c.tokens.Repr())
    {
      FedMore(ops, i);
      match ops[i] {
        case Feed(data) =>
          Assoc(dict, Fed(ops[..i]), data);
          c.Write(data);
        case Flush =>
          assert Fed(ops[..i]) + [] == Fed(ops[..i]);
          c.SyncFlush();
      }
    }
    c.Close();
    assert ops[..|ops|] == ops && c.all[..|c.all|] == c.all;
    calls := CallsFrom(c.written, dict, c.all, c.cuts, c.leads);
    Rest(dict, AllData(calls), Fed(ops));
  }
}
