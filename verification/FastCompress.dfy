/** The compressor around the fast match finders (levels 1 and 6): blocks of input become calls on the
    block writer. */
module FastCompress {
  import opened Words
  import opened Canon
  import opened Lz
  import opened Tokens
  import opened TokenBuffer
  import opened Covering
  import opened FastGen
  import opened Level1
  import opened FastMatch
  import opened Level6
  import opened BlockWriter
  import opened WriterRun
  import RoundTrip

  // ---------------------------------------------------------------------------------------------
  // Calls and data.
  // ---------------------------------------------------------------------------------------------

  lemma {:induction false} AllDataMore(cs: seq<Call>, c: Call)
    ensures AllData(cs + [c]) == AllData(cs) + DataOf(c)
  {
    if cs == [] {
      assert [] + [c] == [c] && [c][1..] == [];
    } else {
      assert (cs + [c])[1..] == cs[1..] + [c];
      AllDataMore(cs[1..], c);
      Assoc(DataOf(cs[0]), AllData(cs[1..]), DataOf(c));
    }
  }

  lemma {:induction false} GoodCallsMore(h: seq<byte>, cs: seq<Call>, c: Call)
    requires GoodCalls(h, cs) && GoodCall(h + AllData(cs), c)
    ensures GoodCalls(h, cs + [c])
    decreases |cs|
  {
    hide GoodCall;
    if cs == [] {
      assert [] + [c] == [c] && [c][1..] == [] && h + [] == h;
    } else {
      assert (cs + [c])[1..] == cs[1..] + [c];
      Assoc(h, DataOf(cs[0]), AllData(cs[1..]));
      GoodCallsMore(h + DataOf(cs[0]), cs[1..], c);
    }
  }

  /** Tokens that cover a block after what was kept cover it after all the data. */
  lemma CoveredMeans(before: seq<byte>, kept: seq<byte>, ts: seq<nat>, src: seq<byte>)
    requires |kept| <= |before| && kept == before[|before| - |kept|..]
    requires Covered(kept + src, |kept|, ts, |kept + src|) && |ts| < MAX_BLOCK
    ensures Means(before, ts, src)
  {
    hide AllValid, Expand, Items;
    var p := before[..|before| - |kept|];
    assert before == p + kept && p + (kept + src) == before + src;
    CoveredAfter(p, kept + src, |kept|, ts, |kept + src|);
    assert (before + src)[..|before|] == before && (before + src)[..|before + src|] == before + src;
  }

  /** Which call is made for a block of this size with n tokens. */
  datatype Form = AsStored | AsHuffman | AsTokens

  function FormOf(n: nat, size: nat): Form {
    if n == 0 then AsStored else if n > size - size / 16 then AsHuffman else AsTokens
  }

  /** The call for a block in which these tokens were found. */
  function CallFor(ts: seq<nat>, src: seq<byte>, sync: bool, choice: Choice): Call {
    match FormOf(|ts|, |src|)
    case AsStored => Raw(src)
    case AsHuffman => Huff(src, sync)
    case AsTokens => DynamicCall(ts, [], src, true, sync, choice)
  }

  /** The calls for less than 128 bytes that are flushed. */
  function SmallCalls(src: seq<byte>): seq<Call> {
    if src == [] then [] else [if |src| <= 32 then Raw(src) else Huff(src, true)]
  }

  /** Bounds on how many tokens a dictionary takes: none if nothing is found in it, and else at least one for
      each 258 bytes. In zeros something is found. */
  predicate TokensFor(b: seq<byte>, n: nat) {
    && n <= |b| && (n == 0 || |b| <= MAX_MATCH * n)
    && (ZerosFrom(b, 0) && b != [] ==> n > 0)
  }

  /** How many tokens a dictionary takes: as many as the level finds in it by itself; its length, if it is short. */
  function DictTokens(best: bool, b: seq<byte>): nat {
    if |b| < MIN_BLOCK then |b|
    else if best then |Level6.Encoded(b, b, 0, Level6.Logs([], []), 0, 0, 1, []).tokens|
    else |Level1.Encoded(b, b, 0, [], 0, 0, []).tokens|
  }

  lemma TokenBounds(b: seq<byte>, ts: seq<nat>)
    requires ts == [] || Covered(b, 0, ts, |b|)
    ensures |ts| <= |b| && (ts == [] || |b| <= MAX_MATCH * |ts|)
  {
    hide AllTokens, AllValid, Expand;
    if ts != [] { CoversMost(b, 0, ts, |b|); }
  }

  predicate Apart(a: Buffer, l1: FastEncL1, l6: FastEncL6) {
    && l1.table !in a.Repr() && l6.table !in a.Repr() && l6.bTable !in a.Repr()
    && l1.table != l6.table && l1.gen != l6.gen
  }

  class Compressor {
    const tokens: Buffer
    const l1: FastEncL1
    const l6: FastEncL6
    /** Whether the level is 6 rather than 1. */
    const best: bool
    const blockSize: nat

    var window: seq<byte>
    var sync: bool

    /** Calls made on the block writer. */
    var calls: seq<Call>

    ghost var dict: seq<byte>

    /** What went through the match finder, dictionary included. */
    ghost function Past(): seq<byte>
      reads this`dict, this`calls
    {
      dict + AllData(calls)
    }

    ghost function History(): seq<byte>
      reads l1.gen, l6.gen
    {
      if best then l6.gen.hist else l1.gen.hist
    }

    /** What level 6 finds in the last n bytes of the history, */
    ghost function Tokens6(n: nat, logs: Level6.Logs): seq<nat>
      requires n <= |l6.gen.hist| && l6.gen.Base() >= 0
      reads l6.gen
    {
      var from := |l6.gen.hist| - n;
      Level6.Encoded(l6.gen.hist, l6.gen.stream, l6.gen.Base(), logs, from, from, 1, []).tokens
    }

    /** and level 1, from the positions stored before. */
    ghost function Tokens1(n: nat, log: seq<nat>): seq<nat>
      requires n <= |l1.gen.hist| && l1.gen.Base() >= 0
      reads l1.gen
    {
      var from := |l1.gen.hist| - n;
      Level1.Encoded(l1.gen.hist, l1.gen.stream, l1.gen.Base(), log, from, from, []).tokens
    }

    /** The tokens are those of the level for a block that has been added to the history. */
    twostate predicate Finds(src: seq<byte>, ts: seq<nat>)
      reads l1, l1.gen, l6, l6.gen
    {
      if best then
        && |src| <= |l6.gen.hist| && l6.gen.Base() >= 0 && l6.gen.stream == old(l6.gen.stream) + src
        && ts == Tokens6(|src|, old(l6.logs))
      else
        && |src| <= |l1.gen.hist| && l1.gen.Base() >= 0 && l1.gen.stream == old(l1.gen.stream) + src
        && ts == Tokens1(|src|, old(l1.log))
    }

    /** Nothing has been encoded yet. */
    ghost predicate Unused()
      reads l1, l1.gen, l6, l6.gen
    {
      && l1.gen.hist == l1.gen.stream == [] && l1.log == []
      && l6.gen.hist == l6.gen.stream == [] && l6.logs == Level6.Logs([], [])
    }

    /** The parts are sound and large enough. */
    ghost predicate Base()
      reads l1, l1.gen, l1.table, l6, l6.gen, l6.table, l6.bTable
    {
      && Apart(tokens, l1, l6) && tokens.Sized() && tokens.tokens.Length == blockSize + 1 && 1 <= blockSize <= MAX_STORE
      && l1.Valid() && l6.Valid() && blockSize + MAX_OFFSET <= l1.gen.Want() && blockSize + MAX_OFFSET <= l6.gen.Want()
    }

    ghost predicate Valid()
      reads this, tokens, tokens.Repr(), l1, l1.gen, l1.table, l6, l6.gen, l6.table, l6.bTable
    {
      && Base() && MIN_BLOCK <= blockSize && tokens.Valid() && tokens.n == 0 && tokens.Slice() == []
      && |window| <= blockSize && GoodCalls(dict, calls) && NoFronts(calls) && EndsWith(Past(), History())
    }

    constructor (blockSize: nat, best: bool)
      requires 1 <= blockSize <= MAX_STORE
      ensures Base() && tokens.Valid() && tokens.n == 0 && tokens.Slice() == []
      ensures blockSize >= MIN_BLOCK ==> Valid()
      ensures dict == [] && calls == [] && window == [] && !sync && Unused()
      ensures forall k :: 0 <= k < tokens.tokens.Length ==> tokens.tokens[k] == 0
      ensures fresh(tokens) && fresh(tokens.Repr()) && fresh(l1) && fresh(l1.gen) && fresh(l1.table)
      ensures fresh(l6) && fresh(l6.gen) && fresh(l6.table) && fresh(l6.bTable)
      ensures this.blockSize == blockSize && this.best == best
    {
      tokens := new Buffer(blockSize);
      l1 := new FastEncL1(blockSize);
      l6 := new FastEncL6(blockSize);
      this.blockSize, this.best := blockSize, best;
      window, sync, calls, dict := [], false, [], [];
      new;
      hide Buffer.Valid, FastEncL1.Valid, FastEncL6.Valid, GoodCalls, NoFronts, AllData, GoodCall, Valid, Base, Apart;
      tokens.Sizes();
      PartsSet();
      if blockSize >= MIN_BLOCK { ValidAtStart(); }
    }

    lemma PartsSet()
      requires l1.table !in tokens.Repr() && l6.table !in tokens.Repr() && l6.bTable !in tokens.Repr()
      requires l1.table != l6.table && l1.gen != l6.gen && tokens.Sized() && tokens.tokens.Length == blockSize + 1
      requires 1 <= blockSize <= MAX_STORE && l1.Valid() && l6.Valid()
      requires blockSize + MAX_OFFSET <= l1.gen.Want() && blockSize + MAX_OFFSET <= l6.gen.Want()
      ensures Base()
    {
    }

    lemma ValidAtStart()
      requires Base() && MIN_BLOCK <= blockSize && tokens.Valid() && tokens.n == 0 && tokens.Slice() == []
      requires window == [] && dict == [] && calls == [] && History() == []
      ensures Valid()
    {
      hide Base, Buffer.Valid;
      NoCalls();
    }

    lemma NoCalls()
      ensures GoodCalls([], []) && NoFronts([]) && AllData([]) == []
    {
    }

    /** Runs the match finder of the level. */
    method Encode(src: seq<byte>) returns (ghost kept: seq<byte>)
      requires Base() && tokens.Valid() && tokens.Slice() == [] && |src| <= blockSize
      modifies l1, l1.gen, l1.table, l6, l6.gen, l6.table, l6.bTable, tokens`n, tokens.Repr()
      ensures Base() && History() == kept + src
      ensures |kept| <= |old(History())| && kept == old(History())[|old(History())| - |kept|..]
      ensures |src| < MIN_BLOCK ==>
        tokens.n == |src| && tokens.tokens[..] == old(tokens.tokens[..]) && tokens.Tallied([])
      ensures |src| == 0 ==> tokens.Valid() && tokens.Slice() == []
      ensures |src| >= MIN_BLOCK ==>
        && tokens.Valid() && AllTokens(tokens.Slice())
        && (tokens.n == 0 || Covered(kept + src, |kept|, tokens.Slice(), |kept + src|))
      ensures |src| >= MIN_BLOCK && ZerosFrom(src, 0) ==> tokens.n > 0
      ensures |src| >= MIN_BLOCK ==> tokens.n == |tokens.Slice()| && Finds(src, tokens.Slice())
    {
      hide Buffer.Valid, FastEncL1.Valid, FastEncL6.Valid, Covered, GoodCalls, NoFronts, Buffer.Slice, ZerosFrom,
           Level1.Encoded, Level6.Encoded;
      if best {
        kept := l6.Encode(tokens, src);
      } else {
        kept := l1.Encode(tokens, src);
      }
    }

    /** Forgets the history. */
    method ResetEncoder()
      requires Base()
      modifies l1.gen, l6.gen
      ensures Base() && History() == []
    {
      hide FastEncL1.Valid, FastEncL6.Valid, GoodCalls, NoFronts;
      if best {
        l6.Reset();
      } else {
        l1.Reset();
      }
    }

    /** Makes a call on the block writer that takes what is in the window. */
    method Make(c: Call)
      requires GoodCalls(dict, calls) && GoodCall(Past(), c) && NoFronts(calls) && NoFronts([c])
      modifies this`calls
      ensures GoodCalls(dict, calls) && NoFronts(calls) && calls == old(calls) + [c] &&
        Past() == old(Past()) + DataOf(c)
    {
      hide GoodCalls, GoodCall;
      GoodCallsMore(dict, calls, c);
      AllDataMore(calls, c);
      assert [c][0] == c;
      Assoc(dict, AllData(calls), DataOf(c));
      calls := calls + [c];
    }

    /** Makes a call that takes the window, and empties the buffers. */
    method Deliver(c: Call)
      requires GoodCalls(dict, calls) && GoodCall(Past(), c) && NoFronts(calls) && NoFronts([c])
      requires tokens.Sized() && (tokens.n == 0 ==> tokens.Valid())
      modifies this`calls, this`window, tokens`n, tokens.Repr()
      ensures GoodCalls(dict, calls) && NoFronts(calls) && Past() == old(Past()) + DataOf(c) && old(calls) <= calls
      ensures window == [] && tokens.Valid() && tokens.n == 0 && tokens.Slice() == [] && calls == old(calls) + [c]
    {
      hide Buffer.Valid, Buffer.Slice, GoodCalls, NoFronts, GoodCall, AllData, Past;
      OneMore(calls, calls, c);
      Make(c);
      tokens.Reset();
      window := [];
    }

    lemma BaseSized()
      requires Base()
      ensures Apart(tokens, l1, l6) && tokens.Sized() && tokens.tokens.Length == blockSize + 1
      ensures 1 <= blockSize <= MAX_STORE
    {
    }

    /** A small block goes out without a search for matches. */
    method StoreSmall()
      requires Valid() && |window| < 128
      modifies this`calls, this`window, l1.gen, l6.gen, tokens`n, tokens.Repr()
      ensures Valid() && Past() == old(Past()) + old(window) && window == []
      ensures calls == old(calls) + SmallCalls(old(window))
    {
      hide Buffer.Valid, Buffer.Slice, Base, GoodCalls, Past, History, AllData;
      if |window| == 0 {
        assert Past() + [] == Past() && calls + [] == calls;
        return;
      }
      StoredGood(Past(), window);
      var c: Call := Raw(window);
      if |window| > 32 {
        c := Huff(window, true);
      }
      BaseSized();
      Deliver(c);
      ResetEncoder();
    }

    /** The call for a block that has been encoded, in the form the token count suggests. */
    method BlockCall(src: seq<byte>, ghost before: seq<byte>, ghost kept: seq<byte>)
      returns (c: Call, ghost choice: Choice)
      requires tokens.Valid() && |src| <= MAX_STORE && tokens.n == |tokens.Slice()|
      requires |kept| <= |before| && kept == before[|before| - |kept|..]
      requires tokens.n == 0 || Covered(kept + src, |kept|, tokens.Slice(), |kept + src|)
      ensures GoodCall(before, c) && DataOf(c) == src && NoFronts([c])
      ensures c == CallFor(tokens.Slice(), src, sync, choice)
    {
      hide Buffer.Valid, GoodCalls, Covered, GoodCall, ZerosFrom;
      tokens.Sizes();
      var reuse: Choice := *;
      choice := reuse;
      StoredGood(before, src);
      match FormOf(tokens.n, |src|) {
        case AsStored =>
          c := Raw(src);
        case AsHuffman =>
          c := Huff(src, sync);
        case AsTokens =>
          TokensGood(before, kept, tokens.Slice(), src, sync, reuse);
          c := DynamicCall(tokens.Slice(), [], src, true, sync, reuse);
      }
    }

    /** Encodes the window and calls the block writer, in the form the token count suggests. */
    method StoreBlock() returns (ghost ts: seq<nat>, ghost choice: Choice)
      requires Valid() && |window| >= MIN_BLOCK
      modifies this`calls, this`window, l1, l1.gen, l1.table, l6, l6.gen, l6.table, l6.bTable, tokens`n, tokens.Repr()
      ensures Valid() && Past() == old(Past()) + old(window) && window == []
      ensures Finds(old(window), ts) && calls == old(calls) + [CallFor(ts, old(window), sync, choice)]
    {
      hide Buffer.Valid, Base, GoodCalls, NoFronts, Covered, GoodCall, Buffer.Slice, Past, AllData, EndsWith, ZerosFrom,
           Finds, CallFor;
      BaseSized();
      EndsInside(Past(), History());
      ghost var kept := Encode(window);
      tokens.Sizes();
      ts := tokens.Slice();
      var c;
      c, choice := BlockCall(window, Past(), kept);
      EndsShorter(Past(), old(History()), kept);
      EndsWithMore(Past(), kept, window);
      Deliver(c);
    }

    /** Compresses the window if it is full, or whatever is there if a flush is wanted. */
    method StoreFast() returns (ghost ts: seq<nat>, ghost choice: Choice)
      requires Valid()
      modifies this`calls, this`window, l1, l1.gen, l1.table, l6, l6.gen, l6.table, l6.bTable, tokens`n, tokens.Repr()
      ensures Valid() && Past() + window == old(Past()) + old(window) && old(calls) <= calls
      ensures if old(|window|) < blockSize && !sync then window == old(window) && calls == old(calls) else window == []
      ensures old(|window|) < blockSize && sync && old(|window|) < 128 ==> calls == old(calls) + SmallCalls(old(window))
      ensures old(|window|) == blockSize || (sync && old(|window|) >= 128) ==>
        Finds(old(window), ts) && calls == old(calls) + [CallFor(ts, old(window), sync, choice)]
    {
      hide Base, Buffer.Valid, GoodCalls, NoFronts, EndsWith, Finds, CallFor;
      BaseSized();
      if |window| < blockSize {
        if !sync {
          ts, choice := [], *;
          return;
        }
        if |window| < 128 {
          StoreSmall();
          assert Past() + [] == Past();
          ts, choice := [], *;
          return;
        }
      }
      ts, choice := StoreBlock();
      assert Past() + [] == Past();
    }

    /** Takes all the bytes given. */
    method Write(b0: seq<byte>)
      requires Valid() && !sync
      modifies this`calls, this`window, l1, l1.gen, l1.table, l6, l6.gen, l6.table, l6.bTable, tokens`n, tokens.Repr()
      ensures Valid() && Past() + window == old(Past()) + old(window) + b0 && old(calls) <= calls
    {
      hide Buffer.Valid, GoodCalls, NoFronts, EndsWith, Base, Finds, CallFor, SmallCalls, Past, History;
      var b := b0;
      while |b| > 0
        invariant Valid() && Past() + window + b == old(Past()) + old(window) + b0 && old(calls) <= calls
        decreases |b|
      {
        if |window| == blockSize {
          ghost var ts, choice := StoreFast();
        }
        var n := if |b| <= blockSize - |window| then |b| else blockSize - |window|;
        assert Past() + (window + b[..n]) + b[n..] == Past() + window + b;
        window := window + b[..n];
        b := b[n..];
      }
      assert Past() + window + [] == Past() + window;
    }

    /** Everything taken so far goes out, followed by the empty stored block. */
    method SyncFlush()
      requires Valid() && !sync
      modifies this`calls, this`window, this`sync, l1, l1.gen, l1.table, l6, l6.gen, l6.table, l6.bTable, tokens`n,
               tokens.Repr()
      ensures Valid() && !sync && window == [] && Past() == old(Past()) + old(window)
      ensures old(calls) < calls && calls[|calls| - 1] == Sync
    {
      hide Base, Buffer.Valid, Buffer.Slice, GoodCalls, Past, History, EndsWith, AllData, Finds, CallFor, SmallCalls;
      sync := true;
      ghost var ts, choice := StoreFast();
      ghost var past, mid := Past(), calls;
      assert past + [] == past;
      Make(Sync);
      OneMore(old(calls), mid, Sync);
      sync := false;
    }

    /** Everything taken so far goes out; ending the stream is the block writer's part. */
    method Close()
      requires Valid()
      modifies this`calls, this`window, this`sync, l1, l1.gen, l1.table, l6, l6.gen, l6.table, l6.bTable, tokens`n,
               tokens.Repr()
      ensures Valid() && window == [] && Past() == old(Past()) + old(window) && old(calls) <= calls
      ensures GoodCalls(dict, calls) && NoFronts(calls)
    {
      hide Base, Buffer.Valid, GoodCalls, NoFronts, EndsWith;
      sync := true;
      ghost var ts, choice := StoreFast();
      assert Past() + [] == Past();
    }

    /** Another stream. */
    method Reset()
      requires Valid()
      modifies this`calls, this`window, this`sync, this`dict, l1.gen, l6.gen, tokens`n, tokens.Repr()
      ensures Valid() && !sync && window == [] && calls == [] && dict == []
    {
      hide Valid, Base, Buffer.Valid, Buffer.Slice, Buffer.Tallied, GoodCalls, NoFronts, EndsWith, History, Past,
           AllData;
      hide FastEncL1.Valid, FastEncL6.Valid;
      Parts();
      BaseSized();
      sync := false;
      ResetEncoder();
      window := [];
      tokens.Reset();
      calls, dict := [], [];
      NothingCalled();
      assert Past() == [] by { NoPast(); }
      ValidIs();
    }

    lemma NoPast()
      requires calls == [] && dict == []
      ensures Past() == []
    {
    }

    lemma Parts()
      requires Valid()
      ensures Base() && MIN_BLOCK <= blockSize && tokens.Valid() && tokens.n == 0
    {
    }

    lemma ValidIs()
      requires Base() && MIN_BLOCK <= blockSize && tokens.Valid() && tokens.n == 0 && tokens.Slice() == []
      requires |window| <= blockSize && GoodCalls(dict, calls) && NoFronts(calls) && EndsWith(Past(), History())
      ensures Valid()
    {
      hide Base, Buffer.Valid, GoodCalls, NoFronts, EndsWith;
    }

    /** Encodes a dictionary that is longer than a block, and counts the tokens. */
    method EncodeLong(b: seq<byte>) returns (n: nat, ghost ts: seq<nat>)
      requires Base() && History() == [] && MIN_BLOCK <= blockSize < |b| <= MAX_OFFSET
      modifies l1, l1.gen, l1.table, l6, l6.gen, l6.table, l6.bTable
      ensures Base() && History() == b && TokensFor(b, n) && Finds(b, ts) && n == |ts|
    {
      hide Buffer.Valid, FastEncL1.Valid, FastEncL6.Valid, Covered, ZerosFrom, Level1.Encoded, Level6.Encoded,
           GoodCalls, NoFronts, AllTokens;
      var full := new Buffer(MAX_OFFSET);
      full.Sizes();
      LongFits();
      ghost var kept;
      if best {
        kept := l6.Encode(full, b);
      } else {
        kept := l1.Encode(full, b);
      }
      assert kept == [] && kept + b == b;
      full.Sizes();
      n, ts := full.n, full.Slice();
      TokenBounds(b, full.Slice());
    }

    /** Encodes a dictionary no longer than a block, and counts the tokens, which are dropped. */
    method EncodeShort(b: seq<byte>) returns (n: nat, ghost ts: seq<nat>)
      requires Base() && tokens.Valid() && tokens.Slice() == [] && History() == [] && |b| <= blockSize
      modifies l1, l1.gen, l1.table, l6, l6.gen, l6.table, l6.bTable, tokens`n, tokens.Repr()
      ensures Base() && History() == b && TokensFor(b, n)
      ensures if |b| < MIN_BLOCK then n == |b| else Finds(b, ts) && n == |ts|
      ensures tokens.Valid() && tokens.n == 0 && tokens.Slice() == []
    {
      hide Buffer.Valid, FastEncL1.Valid, FastEncL6.Valid, ZerosFrom, Covered, Finds;
      BaseSized();
      ghost var kept := Encode(b);
      assert kept == [] && [] + b == b;
      ts := [];
      if |b| >= MIN_BLOCK {
        tokens.Sizes();
        ts := tokens.Slice();
        TokenBounds(b, tokens.Slice());
      }
      n := tokens.n;
      tokens.Reset();
    }

    lemma LongFits()
      requires Base()
      ensures 2 * MAX_OFFSET <= l1.gen.Want() && 2 * MAX_OFFSET <= l6.gen.Want()
    {
    }

    /** What is found in the first bytes depends on them only. */
    lemma FoundAlone(b: seq<byte>, ts: seq<nat>)
      requires History() == b && |b| >= MIN_BLOCK
      requires best ==> l6.gen.stream == b && ts == Tokens6(|b|, Level6.Logs([], []))
      requires !best ==> l1.gen.stream == b && ts == Tokens1(|b|, [])
      ensures |ts| == DictTokens(best, b)
    {
      hide Level1.Encoded, Level6.Encoded;
    }

    /** Puts a preset dictionary in the history: it is encoded, and the tokens are dropped. The token buffer has
        room for one token for each byte of a block and one more, and overruns exactly if the dictionary takes
        more; n is how many it takes. */
    method FillWindow(b0: seq<byte>) returns (fits: bool, n: nat, ghost ts: seq<nat>)
      requires Valid() && calls == [] && window == [] && dict == []
      modifies this`dict, l1, l1.gen, l1.table, l6, l6.gen, l6.table, l6.bTable, tokens`n, tokens.Repr()
      ensures fits ==> Valid() && dict == RoundTrip.Preset(b0)
      ensures (fits <==> n <= blockSize + 1) && TokensFor(RoundTrip.Preset(b0), n)
      ensures |RoundTrip.Preset(b0)| < MIN_BLOCK ==> n == |RoundTrip.Preset(b0)|
      ensures |RoundTrip.Preset(b0)| >= MIN_BLOCK ==> Finds(RoundTrip.Preset(b0), ts) && n == |ts|
      ensures History() == RoundTrip.Preset(b0)
    {
      hide Buffer.Valid, FastEncL1.Valid, FastEncL6.Valid, Base, TokensFor, Finds;
      var b := b0;
      if |b| > MAX_OFFSET {
        b := b[|b| - MAX_OFFSET..];
      }
      NoHistory();
      BaseSized();
      if |b| <= blockSize {
        n, ts := EncodeShort(b);
      } else {
        n, ts := EncodeLong(b);
      }
      fits := n <= tokens.tokens.Length;
      if fits {
        dict := b;
        assert b + [] == b;
      }
    }

    lemma NoHistory()
      requires Valid() && calls == [] && dict == []
      ensures History() == []
    {
    }
  }

  lemma NothingCalled()
    ensures GoodCalls([], []) && NoFronts([]) && EndsWith([], [])
  {
  }

  lemma StoredGood(before: seq<byte>, data: seq<byte>)
    requires |data| <= MAX_STORE
    ensures GoodCall(before, Raw(data)) && forall sync :: GoodCall(before, Huff(data, sync))
  {
  }

  lemma TokensGood(before: seq<byte>, kept: seq<byte>, ts: seq<nat>, src: seq<byte>, sync: bool, choice: Choice)
    requires |kept| <= |before| && kept == before[|before| - |kept|..]
    requires Covered(kept + src, |kept|, ts, |kept + src|) && |src| <= MAX_STORE && FormOf(|ts|, |src|) == AsTokens
    ensures GoodCall(before, DynamicCall(ts, [], src, true, sync, choice))
  {
    hide Covered, Means;
    CoveredSize(kept + src, |kept|, ts, |kept + src|);
    CoveredMeans(before, kept, ts, src);
  }

  lemma OneMore(a: seq<Call>, b: seq<Call>, c: Call)
    requires a <= b
    ensures a < b + [c]
  {
  }

  lemma EndsInside(s: seq<byte>, t: seq<byte>)
    requires EndsWith(s, t)
    ensures |t| <= |s| && t == s[|s| - |t|..]
  {
  }

  lemma EndsShorter(s: seq<byte>, t: seq<byte>, u: seq<byte>)
    requires EndsWith(s, t) && |u| <= |t| && u == t[|t| - |u|..]
    ensures EndsWith(s, u) && |u| <= |s| && u == s[|s| - |u|..]
  {
  }

  lemma EndsWithMore(s: seq<byte>, t: seq<byte>, x: seq<byte>)
    requires EndsWith(s, t)
    ensures EndsWith(s + x, t + x)
  {
  }

  /** Whether s ends with t. */
  predicate EndsWith(s: seq<byte>, t: seq<byte>) {
    |t| <= |s| && t == s[|s| - |t|..]
  }
}
