/** The lazy compressor (levels 7 to 9): a sliding window, a byte or match held back, and blocks of
    tokens handed to the block writer. */
module Lazy {
  import opened Words
  import opened Canon
  import opened Lz
  import opened Tokens
  import opened TokenBuffer
  import opened MatchLen
  import opened Covering
  import opened LazyMatch
  import opened HashChains

  const WINDOW_SPACE: nat := 2 * WINDOW
  const MAX_TOKENS: nat := 0x8000
  const ENOUGH: nat := MIN_LOOK + MAX_MATCH
  const NO_BLOCK: nat := 0x7FFF_FFFF

  /** What the block writer is given: a block of tokens, with the bytes it may store instead, or the empty
      stored block of a flush. */
  datatype Handed = Block(tokens: seq<nat>, input: Option<seq<byte>>, sync: bool) | Marker

  /** A block stands for the data from from to to. The bytes given along with it are these, with lead
      more in front. */
  predicate Piece(all: seq<byte>, b: Handed, from: nat, to: nat, lead: nat) {
    && lead <= from <= to <= |all|
    && (b.Block? ==> 0 < |b.tokens| <= MAX_TOKENS && Covered(all, from, b.tokens, to))
    && (b.Block? && b.input.Some? ==> b.input.value == all[from - lead..to])
    && (b.Marker? ==> from == to)
  }

  predicate NoBlocks(written: seq<Handed>) {
    forall k :: 0 <= k < |written| ==> written[k].Marker?
  }

  /** The blocks cut the data at cuts. Only the first block's bytes may have more in front: the preset
      dictionary. */
  predicate Logged(all: seq<byte>, written: seq<Handed>, cuts: seq<nat>, leads: seq<nat>) {
    && |cuts| == |written| + 1 && |leads| == |written| && cuts[|written|] <= |all|
    && (forall k :: 0 <= k < |written| ==> Piece(all, written[k], cuts[k], cuts[k + 1], leads[k]))
    && (forall k :: 0 <= k < |written| ==> leads[k] == 0 || (leads[k] == cuts[0] && NoBlocks(written[..k])))
  }

  lemma LoggedLonger(all: seq<byte>, all': seq<byte>, written: seq<Handed>, cuts: seq<nat>, leads: seq<nat>)
    requires Logged(all, written, cuts, leads) && all <= all'
    ensures Logged(all', written, cuts, leads)
  {
    hide Covered, NoBlocks, Piece;
    forall k | 0 <= k < |written| ensures Piece(all', written[k], cuts[k], cuts[k + 1], leads[k]) {
      PieceLonger(all, all', written[k], cuts[k], cuts[k + 1], leads[k]);
    }
  }

  lemma PieceLonger(all: seq<byte>, all': seq<byte>, b: Handed, from: nat, to: nat, lead: nat)
    requires Piece(all, b, from, to, lead) && all <= all'
    ensures Piece(all', b, from, to, lead)
  {
    hide Covered;
    if b.Block? { CoveredLonger(all, all', from, b.tokens, to); }
    assert all'[from - lead..to] == all[from - lead..to];
  }

  lemma LoggedMore(all: seq<byte>, written: seq<Handed>, cuts: seq<nat>, leads: seq<nat>, b: Handed, to: nat, lead: nat)
    requires Logged(all, written, cuts, leads) && Piece(all, b, cuts[|cuts| - 1], to, lead)
    requires lead == 0 || (lead == cuts[0] && NoBlocks(written))
    ensures Logged(all, written + [b], cuts + [to], leads + [lead])
  {
    hide Covered, NoBlocks;
    var ws, cs, ls := written + [b], cuts + [to], leads + [lead];
    forall k | 0 <= k < |ws|
      ensures Piece(all, ws[k], cs[k], cs[k + 1], ls[k]) && (ls[k] == 0 || (ls[k] == cs[0] && NoBlocks(ws[..k])))
    {
      assert ws[..k] == written[..k];
      if k < |written| {
        assert Piece(all, written[k], cuts[k], cuts[k + 1], leads[k]);
      } else {
        assert written[..k] == written;
      }
    }
  }

  lemma LoggedCut(all: seq<byte>, written: seq<Handed>, cuts: seq<nat>, leads: seq<nat>)
    requires Logged(all, written, cuts, leads)
    ensures |cuts| == |written| + 1 && cuts[|cuts| - 1] <= |all|
  {
  }

  /** All the tokens handed over. */
  function TokensOf(written: seq<Handed>): seq<nat> {
    if written == [] then []
    else
      var b := written[|written| - 1];
      TokensOf(written[..|written| - 1]) + if b.Block? then b.tokens else []
  }

  lemma TokensAdd(written: seq<Handed>, b: Handed)
    ensures TokensOf(written + [b]) == TokensOf(written) + if b.Block? then b.tokens else []
  {
    assert (written + [b])[..|written|] == written;
  }

  class Compressor {
    const window: array<byte>
    const hashHead: array<nat>
    const hashPrev: array<nat>
    const tokens: Buffer
    const nice: nat
    const lazy: nat
    const chain: nat

    var windowEnd: nat
    var blockStart: nat
    var index: nat
    var length: nat
    var offset: nat
    var maxInsertIndex: int
    var chainHead: int
    var hashOffset: nat
    var ii: nat
    var sync: bool
    var byteAvailable: bool

    /** Blocks handed to the block writer, in order. */
    var written: seq<Handed>

    /** Everything that went through the window, where it was cut into blocks, and how much more was given
        with each. */
    ghost var all: seq<byte>
    ghost var cuts: seq<nat>
    ghost var leads: seq<nat>
    /** Bytes in front of the next block that will be given with it. */
    ghost var lead: nat
    /** Bytes of the preset dictionary. */
    ghost var preset: nat
    /** Positions of the data that are never hashed: so close to the end of what was there that fewer than four bytes
        followed when they were looked at. */
    ghost var skipped: set<nat>

    predicate Shape() {
      && window.Length == WINDOW_SPACE && hashHead.Length == HASH_SIZE && hashPrev.Length == WINDOW
      && hashHead != hashPrev && hashHead !in tokens.Repr() && hashPrev !in tokens.Repr()
      && window as object !in tokens.Repr() + {hashHead, hashPrev}
      && tokens.tokens.Length == MAX_TOKENS + 1
    }

    /** Position of the window in all the data. */
    ghost function Base(): int
      reads this`all, this`windowEnd
    {
      |all| - windowEnd
    }

    /** The window holds the latest data. */
    ghost predicate WindowOk()
      reads this`windowEnd, this`all, window
    {
      && windowEnd <= window.Length && windowEnd <= |all| && window[..windowEnd] == all[Base()..]
    }

    /** No hash entry reaches position pos, and the chains hold the positions of the data in front of it. */
    ghost predicate HashesIn(data: seq<byte>, base: int, pos: int)
      reads this`hashOffset, this`chainHead, this`skipped, hashHead, hashPrev
    {
      && 1 <= hashOffset <= MAX_HASH_OFFSET && chainHead < hashOffset + pos
      && Below(hashHead[..], hashOffset + pos) && Below(hashPrev[..], hashOffset + pos)
      && base >= 0 && base % WINDOW == 0 && pos >= 0
      && Chains(data, skipped, base, hashOffset, hashHead[..], hashPrev[..], base + pos)
    }

    ghost predicate Hashes(pos: int)
      reads this`all, this`windowEnd, this`hashOffset, this`chainHead, this`skipped, hashHead, hashPrev
    {
      HashesIn(all, Base(), pos)
    }

    /** The tokens stand for the data from the last cut up to window position to. */
    ghost predicate Tokened(to: int)
      reads this`all, this`windowEnd, this`cuts, tokens, tokens.Repr()
    {
      && tokens.Valid() && tokens.n <= tokens.tokens.Length && tokens.n <= MAX_TOKENS && cuts != [] && Base() + to >= 0
      && Covered(all, cuts[|cuts| - 1], tokens.Slice(), Base() + to)
    }

    /** The blocks handed over are right, and blockStart is where the next one starts, if it is anywhere. */
    ghost predicate Log()
      reads this`all, this`windowEnd, this`cuts, this`written, this`leads, this`lead, this`preset, this`blockStart
    {
      && Logged(all, written, cuts, leads) && cuts[0] == preset <= WINDOW
      && lead <= cuts[|cuts| - 1] && (lead == 0 || (lead == preset && NoBlocks(written)))
      && (Base() + blockStart + lead == cuts[|cuts| - 1] || Unplaced())
    }

    /** blockStart denotes nothing: it was set to the largest value, less 32768 for each shift since. */
    ghost predicate Unplaced()
      requires cuts != []
      reads this`all, this`windowEnd, this`cuts, this`blockStart
    {
      blockStart > WINDOW_SPACE && blockStart + Base() + WINDOW >= NO_BLOCK + cuts[|cuts| - 1]
    }

    /** A byte, or a match that starts with it, is held back. */
    ghost predicate Held()
      reads this`all, this`windowEnd, this`index, this`length, this`offset, this`byteAvailable
    {
      && index <= windowEnd <= |all| && 3 <= length <= MAX_MATCH && (byteAvailable ==> index >= 1)
      && (length > 3 ==>
            && byteAvailable && 0 < offset < Base() + index
            && Match(all, Base() + index - 1, Base() + index - 1 - offset, length))
    }

    ghost function Pending(): nat
      reads this`byteAvailable
    {
      if byteAvailable then 1 else 0
    }

    /** The window is right, and so are the blocks and the tokens, which stand for the data up to to. */
    ghost predicate Data(to: int)
      reads this`all, this`windowEnd, this`cuts, this`written, this`leads, this`lead, this`preset, this`blockStart
      reads window, tokens, tokens.Repr()
    {
      WindowOk() && Log() && Tokened(to)
    }

    /** The invariant between steps. */
    ghost predicate Valid()
      reads this, window, hashHead, hashPrev, tokens, tokens.Repr()
    {
      && Shape() && Hashes(index) && Held() && Data(index - Pending())
      && tokens.n < MAX_TOKENS && (tokens.n > 0 ==> index > 0)
    }

    constructor (nice: nat, lazy: nat, chain: nat)
      ensures Valid() && all == [] && written == [] && cuts == [0] && !sync && !byteAvailable
      ensures lead == preset == index == windowEnd == blockStart == 0
      ensures this.nice == nice && this.lazy == lazy && this.chain == chain
      ensures fresh(window) && fresh(hashHead) && fresh(hashPrev) && fresh(tokens) && fresh(tokens.Repr())
    {
      window := new byte[WINDOW_SPACE](_ => 0);
      hashHead := new nat[HASH_SIZE](_ => 0);
      hashPrev := new nat[WINDOW](_ => 0);
      tokens := new Buffer(MAX_TOKENS);
      this.nice, this.lazy, this.chain := nice, lazy, chain;
      windowEnd, blockStart, index, length, offset := 0, 0, 0, 3, 0;
      maxInsertIndex, chainHead, hashOffset, ii, sync, byteAvailable := 0, -1, 1, 0, false, false;
      written, all, cuts, leads, lead, preset, skipped := [], [], [0], [], 0, 0, {};
      new;
      hide Valid, Buffer.Valid, Shape;
      ShapeAtStart();
      ValidAtStart();
    }

    lemma ShapeAtStart()
      requires window.Length == WINDOW_SPACE && hashHead.Length == HASH_SIZE && hashPrev.Length == WINDOW
      requires hashHead != hashPrev && hashHead !in tokens.Repr() && hashPrev !in tokens.Repr()
      requires window as object !in tokens.Repr() + {hashHead, hashPrev} && tokens.tokens.Length == MAX_TOKENS + 1
      ensures Shape()
    {
    }

    lemma ValidAtStart()
      requires Shape() && tokens.Valid() && tokens.Slice() == [] && forall k :: 0 <= k < HASH_SIZE ==> hashHead[k] == 0
      requires forall k :: 0 <= k < WINDOW ==> hashPrev[k] == 0
      requires windowEnd == blockStart == index == lead == preset == 0 && length == 3 && chainHead == -1 &&
        hashOffset == 1
      requires !byteAvailable && written == [] && all == [] && cuts == [0] && leads == [] && skipped == {}
      ensures Valid()
    {
      hide Buffer.Valid, Covered, Below, Match, NoBlocks, Logged;
      tokens.Sizes();
      CoveredNone([], 0);
      LoggedNone();
      BelowZero(hashHead[..]);
      BelowZero(hashPrev[..]);
      ChainsNone(hashHead[..], hashPrev[..], [], 1);
    }

    // -------------------------------------------------------------------------------------------
    // Steps.
    // -------------------------------------------------------------------------------------------

    /** All the tokens so far, those handed over and those waiting. */
    ghost function Out(): seq<nat>
      reads this`written, tokens, tokens.tokens
    {
      TokensOf(written) + if tokens.n <= tokens.tokens.Length then tokens.Slice() else []
    }

    /** The bytes at position pos of the window are those of the data. */
    lemma WindowByte(pos: nat)
      requires WindowOk() && pos < windowEnd
      ensures pos < window.Length && Base() + pos < |all| && window[pos] == all[Base() + pos]
    {
      assert window[..windowEnd][pos] == all[Base()..][pos];
    }

    lemma WindowSlice(i: nat, j: nat)
      requires WindowOk() && i <= j <= windowEnd
      ensures j <= window.Length && Base() + j <= |all| && window[i..j] == all[Base() + i..Base() + j]
    {
      var w, a := window[..windowEnd], all[Base()..];
      assert window[i..j] == w[i..j];
      assert all[Base() + i..Base() + j] == a[i..j];
    }

    /** What the steps of one iteration keep, with the tokens standing for the data up to position to. */
    ghost predicate Kept(to: int)
      reads this`all, this`windowEnd, this`cuts, this`written, this`leads, this`lead, this`preset, this`blockStart,
            this`maxInsertIndex
      reads window, tokens, tokens.Repr()
    {
      Data(to) && maxInsertIndex == windowEnd - 3
    }

    /** The same, and there is room for a token. */
    ghost predicate Core(to: int)
      reads this`all, this`windowEnd, this`cuts, this`written, this`leads, this`lead, this`preset, this`blockStart,
            this`maxInsertIndex
      reads window, tokens, tokens.Repr()
    {
      Kept(to) && tokens.n < MAX_TOKENS
    }

    /** Blocks are only added, and none as long as there are fewer bytes than a block has tokens. */
    twostate predicate Grows()
      reads this`all, this`written, this`cuts, this`leads, this`lead, this`blockStart
    {
      && old(written) <= written
      && (|all| < MAX_TOKENS ==>
            && written == old(written) && cuts == old(cuts) && leads == old(leads) && lead == old(lead)
            && blockStart == old(blockStart))
    }

    lemma SomeTokens(to: int)
      requires Data(to)
      ensures tokens.n <= MAX_TOKENS && (tokens.n == MAX_TOKENS ==> |all| >= MAX_TOKENS)
    {
      hide Logged, Buffer.Valid, Covered, WindowOk;
      CoveredSize(all, cuts[|cuts| - 1], tokens.Slice(), Base() + to);
    }

    lemma KeptWindow(to: int)
      requires Kept(to)
      ensures WindowOk()
    {
    }

    lemma CoreParts(to: int)
      requires Core(to)
      ensures WindowOk() && windowEnd <= window.Length && Base() >= 0 && maxInsertIndex == windowEnd - 3
    {
    }

    /** A literal token for the next byte. */
    method AddNext(pos: nat)
      requires Shape() && Core(pos) && pos < windowEnd
      modifies tokens`n, tokens.Repr()
      ensures Kept(pos + 1) && tokens.n > 0
      ensures 0 <= Base() && Base() + pos < |all| && Out() == old(Out()) + [all[Base() + pos] as nat]
    {
      hide Buffer.Valid, Covered, Log, TokensOf;
      tokens.Sizes();
      WindowByte(pos);
      CoveredSize(all, cuts[|cuts| - 1], tokens.Slice(), Base() + pos);
      CoveredLiteral(all, cuts[|cuts| - 1], tokens.Slice(), Base() + pos);
      tokens.AddLiteral(window[pos]);
      tokens.Sizes();
    }

    /** There is a piece to hand over, up to idx. */
    ghost predicate PieceTo(idx: nat)
      reads this`all, this`windowEnd, this`cuts, this`lead, tokens
    {
      && cuts != [] && lead <= cuts[|cuts| - 1] <= Base() + idx <= |all| && tokens.n <= tokens.tokens.Length
    }

    lemma HasPiece(idx: nat)
      requires Data(idx) && idx <= windowEnd
      ensures PieceTo(idx)
    {
      hide Buffer.Valid, Covered, Logged, NoBlocks;
      CoveredSize(all, cuts[|cuts| - 1], tokens.Slice(), Base() + idx);
    }

    /** The block that is handed over next. */
    ghost function Next(idx: nat): Handed
      requires PieceTo(idx)
      reads this`all, this`windowEnd, this`cuts, this`lead, this`blockStart, this`sync
      reads tokens, tokens.tokens
    {
      Block(tokens.Slice(), if Unplaced() then None else Some(all[cuts[|cuts| - 1] - lead..Base() + idx]), sync)
    }

    /** Hands the tokens over as a block. The bytes given along start where blockStart says. */
    method WriteBlock(idx: nat)
      requires Shape() && WindowOk() && Log() && Tokened(idx) && 0 < idx <= windowEnd && tokens.n > 0
      modifies this`blockStart, this`written, this`cuts, this`leads, this`lead
      ensures Log() && cuts == old(cuts) + [Base() + idx] && leads == old(leads) + [old(lead)] && lead == 0
      ensures old(cuts) != [] && old(lead) <= old(cuts[|cuts| - 1]) <= Base() + idx <= |all|
      ensures written == old(written) + [Block(tokens.Slice(),
        if old(Unplaced()) then None else Some(all[old(cuts[|cuts| - 1] - lead)..Base() + idx]), sync)]
    {
      hide Buffer.Valid, Covered, Logged, NoBlocks;
      tokens.Sizes();
      if idx > 0 {
        var input: Option<seq<byte>> := None;
        if blockStart <= idx {
          input := Some(window[blockStart..idx]);
        }
        ghost var b := Block(tokens.Slice(), input, sync);
        LoggedCut(all, written, cuts, leads);
        CoveredSize(all, cuts[|cuts| - 1], tokens.Slice(), Base() + idx);
        if blockStart <= idx { WindowSlice(blockStart, idx); }
        LoggedMore(all, written, cuts, leads, b, Base() + idx, lead);
        blockStart := idx;
        written := written + [Block(tokens.Slice(), input, sync)];
        cuts := cuts + [Base() + idx];
        leads := leads + [lead];
        lead := 0;
      }
    }

    /** Hands the tokens over if there is no room for another. */
    method FlushFull(idx: nat)
      requires Shape() && Kept(idx) && 0 < idx <= windowEnd
      modifies this`blockStart, this`written, this`cuts, this`leads, this`lead, tokens`n, tokens.Repr()
      ensures Core(idx) && Grows() && Out() == old(Out())
    {
      hide Data;
      SomeTokens(idx);
      if tokens.n == MAX_TOKENS {
        HasPiece(idx);
        FlushAll(idx);
      }
    }

    /** A literal token for the byte at pos, and the block if it is full. */
    method EmitNext(pos: nat)
      requires Shape() && Core(pos) && pos < windowEnd
      modifies this`blockStart, this`written, this`cuts, this`leads, this`lead, tokens`n, tokens.Repr()
      ensures Core(pos + 1) && Grows()
      ensures 0 <= Base() && Base() + pos < |all| && Out() == old(Out()) + [all[Base() + pos] as nat]
    {
      hide Core, Kept, Out;
      AddNext(pos);
      FlushFull(pos + 1);
    }

    /** Puts the string at pos at the head of its chain. */
    method Insert(pos: nat, h: nat, ghost data: seq<byte>, ghost base: nat)
      requires Shape() && HashesIn(data, base, pos) && pos < WINDOW_SPACE
      requires base + pos + 4 <= |data| && h == Key(data, base + pos)
      modifies hashHead, hashPrev
      ensures HashesIn(data, base, pos + 1) && Below(hashPrev[..], hashOffset + pos)
      ensures hashHead[..] == old(hashHead[..])[h := pos + hashOffset]
      ensures hashPrev[..] == old(hashPrev[..])[pos % WINDOW := old(hashHead[h])]
    {
      hide Below, Chains, Key;
      ghost var lim := hashOffset + pos;
      ghost var p: seq<nat>, q: seq<nat> := hashPrev[..], hashHead[..];
      BelowAt(q, lim, h);
      BelowStore(p, lim, pos % WINDOW, q[h], lim);
      SameEntry(base, pos);
      ChainsStore(data, skipped, base, hashOffset, q, p, base + pos, h);
      hashPrev[pos % WINDOW] := hashHead[h];
      assert hashPrev[..] == p[pos % WINDOW := q[h]] && hashHead[..] == q;
      BelowStore(q, lim, h, pos + hashOffset, lim + 1);
      assert pos + hashOffset < 0x1_0000_0000;
      hashHead[h] := pos + hashOffset;
      assert hashHead[..] == q[h := pos + hashOffset] && hashPrev[..] == p[pos % WINDOW := q[h]];
      BelowLater(hashPrev[..], lim, lim + 1);
    }

    /** The chain that starts at chainHead is that of the four bytes at pos. */
    ghost predicate AtHead(pos: nat)
      reads this`all, this`windowEnd, this`hashOffset, this`chainHead, this`skipped
    {
      && 0 <= Base() && Base() + pos + 4 <= |all| && chainHead >= 0
      && Points(chainHead, Prior(all, skipped, Base() + pos, Key(all, Base() + pos)), Base(), hashOffset)
    }

    /** Moves the chain to position pos, if four bytes are there. */
    method InsertAt(pos: nat)
      requires Shape() && Hashes(pos) && WindowOk() && pos <= windowEnd <= WINDOW_SPACE &&
        maxInsertIndex == windowEnd - 3
      modifies this`chainHead, hashHead, hashPrev
      ensures Hashes(pos + 1) && chainHead < hashOffset + pos && Below(hashPrev[..], hashOffset + pos)
      ensures pos < maxInsertIndex ==> AtHead(pos)
    {
      hide Below, Load, Hash17, Chains, Prior;
      if pos < maxInsertIndex {
        var hash := Hash17(Load(window[pos..pos + 4], 0, 4));
        WindowKey(pos);
        BelowAt(hashHead[..], hashOffset + pos, hash);
        ChainsHead(all, skipped, Base(), hashOffset, hashHead[..], hashPrev[..], Base() + pos, hash);
        chainHead := hashHead[hash];
        Insert(pos, hash, all, Base());
      } else {
        BelowLater(hashHead[..], hashOffset + pos, hashOffset + pos + 1);
        BelowLater(hashPrev[..], hashOffset + pos, hashOffset + pos + 1);
        ChainsPass(all, skipped, Base(), hashOffset, hashHead[..], hashPrev[..], Base() + pos);
      }
    }

    /** The hash of four bytes in the window. */
    lemma WindowKey(pos: nat)
      requires WindowOk() && pos + 4 <= windowEnd && Base() >= 0
      ensures Base() + pos + 4 <= |all| && Hash17(Load(window[pos..pos + 4], 0, 4)) == Key(all, Base() + pos)
    {
      hide Load, Hash17;
      WindowSlice(pos, pos + 4);
      var w := window[pos..pos + 4];
      assert w[0..4] == w;
      LoadEqual(w, 0, all, Base() + pos, 4);
    }

    /** Inserts the strings from startindex on that end before end. */
    method InsertBulk(startindex: nat, end: nat, ghost hi: nat, ghost data: seq<byte>, ghost base: nat)
      requires Shape() && startindex <= end <= WINDOW_SPACE && end - startindex <= ENOUGH
      requires base + end <= |data| && window[startindex..end] == data[base + startindex..base + end]
      requires HashesIn(data, base, hi) && startindex <= hi && (end - startindex >= 4 ==> hi == startindex)
      modifies hashHead, hashPrev
      ensures HashesIn(data, base, Max(hi, end - 3))
    {
      hide Below, Load, Hash17, HashesIn;
      var tocheck := window[startindex..end];
      if |tocheck| >= 4 {
        var dst := BulkHash4(tocheck);
        for i := 0 to |dst|
          invariant HashesIn(data, base, startindex + i)
        {
          KeyOf(tocheck, data, base + startindex, i);
          Insert(startindex + i, dst[i], data, base);
        }
      }
    }

    /** The candidates for a match at index. */
    ghost function Chain(): seq<nat>
      requires hashPrev.Length == WINDOW && chainHead >= hashOffset
      reads this, hashPrev, window
    {
      Candidates(hashPrev[..], hashOffset, index, chainHead - hashOffset, chain)
    }

    /** The positions in reach of index that are hashed like it, newest first, and no more than are looked at. */
    ghost function Near(): seq<nat>
      requires 0 <= Base() && Base() + index + 4 <= |all|
      reads this`all, this`windowEnd, this`skipped, this`index
    {
      Recent(all, skipped, Base() + index, Key(all, Base() + index), Base() + MinIndex(index), chain)
    }

    /** What the search at index gives, in the data: of the positions near, the best; or none if none is good enough.
        On long chains raw is the estimate of what literals would take. */
    ghost predicate Searched(lookahead: nat, raw: nat -> int, len: nat, off: nat, ok: bool)
      reads this`all, this`windowEnd, this`skipped, this`index
    {
      var look := Min(lookahead, MAX_MATCH);
      && 0 <= Base() && MIN_LOOK <= lookahead && Base() + index + lookahead <= |all|
      && var w := all[..Base() + index + look];
        if chain < 100 then BestOf(w, Base() + index, Near(), Min(nice, look), len, off, ok)
        else WorthiestOf(w, Base() + index, raw, Near(), Min(nice, look), len, off, ok)
    }

    /** The candidates on the chain are the positions near. */
    lemma ChainIsNear(lookahead: nat)
      requires hashPrev.Length == WINDOW && Hashes(index + 1) && AtHead(index)
      requires MinIndex(index) <= chainHead - hashOffset
      requires WindowOk() && MIN_LOOK <= lookahead && index + lookahead <= windowEnd
      ensures chainHead - hashOffset < index
      ensures var look := Min(lookahead, MAX_MATCH);
        SameCandidates(window[..index + look], index, Chain(), all[..Base() + index + look], Base(), Near())
    {
      hide Below, Key, Chains, WindowOk, Recent, Candidates, Points, Prior, SameCandidates, MinIndex, InWindow;
      var look, base: nat, at: nat := Min(lookahead, MAX_MATCH), Base(), Base() + index;
      WindowSlice(0, index + look);
      var w := all[..at + look];
      assert w[base..] == all[base..at + look];
      HeadIsRecent(all, skipped, base, hashOffset, hashHead[..], hashPrev[..], index, chainHead, Key(all, at), chain);
      RecentFront(all, skipped, at, Key(all, at), base + MinIndex(index), chain);
      CandidatesSame(window[..index + look], index, Chain(), w, base, Near());
    }

    /** A chain that starts in front of the window holds nothing near. */
    lemma NothingNear()
      requires AtHead(index) && chainHead - hashOffset < MinIndex(index)
      ensures Near() == []
    {
      hide Key;
    }

    /** If nothing is found, length and offset are not looked at. */
    lemma NoneFound(lookahead: nat, raw: nat -> int, len: nat, off: nat)
      requires Searched(lookahead, raw, len, off, false)
      ensures Searched(lookahead, raw, 3, 0, false)
    {
    }

    lemma FoundNone(lookahead: nat, raw: nat -> int)
      requires 0 <= Base() && MIN_LOOK <= lookahead && Base() + index + lookahead <= |all| && Near() == []
      ensures Searched(lookahead, raw, 3, 0, false)
    {
    }

    /** Looks for a match at index along the chain. */
    method FindMatch(lookahead: nat) returns (len: nat, off: nat, ok: bool, ghost raw: nat -> int)
      requires Shape() && WindowOk() && MIN_LOOK <= lookahead && index + lookahead == windowEnd
      requires Hashes(index + 1) && AtHead(index) && Below(hashPrev[..], hashOffset + index)
      requires MinIndex(index) <= chainHead - hashOffset
      ensures ok ==> 3 < len <= MAX_MATCH && 0 < off <= index && Match(all, Base() + index, Base() + index - off, len)
      ensures Searched(lookahead, raw, len, off, ok)
    {
      hide Below, Match, Best, NoneBetter, Worthiest, NoneWorthy, Candidates, Before, Within, Hashes, AtHead, Recent,
           SameCandidates, Key, MinIndex;
      var look := Min(lookahead, MAX_MATCH);
      var win := window[..index + look];
      WindowSlice(0, index + look);
      ChainIsNear(lookahead);
      ghost var w := all[..Base() + index + look];
      var estimate: nat -> int := *;
      raw := estimate;
      if chain < 100 {
        len, off, ok := FindLonger(win, hashPrev, hashOffset, index, chainHead - hashOffset, look, nice, chain);
        BestInWindow(win, index, Chain(), w, Base(), Near(), Min(nice, look), len, off, ok);
      } else {
        len, off, ok := FindWorthier(win, hashPrev, hashOffset, index, chainHead - hashOffset, look, nice, chain,
                                     estimate);
        WorthiestInWindow(win, index, raw, Chain(), w, Base(), Near(), Min(nice, look), len, off, ok);
      }
      if ok { MatchInWindow(all, Base(), win, index, index - off, len); }
    }

    /** The last position in front of the next that is hashed like the end of the held match, less its length. */
    ghost function EndStart(prevLength: nat): int
      requires 1 <= index && 0 <= Base() && Base() + index - 1 + prevLength + 4 <= |all|
      reads this`all, this`windowEnd, this`skipped, this`index
    {
      Prior(all, skipped, Base() + index + 1, Key(all, Base() + index - 1 + prevLength)) - prevLength
    }

    /** That position is tried: it is well inside the window, and not where the held match is. */
    ghost predicate TriesEnd(prevLength: nat, prevOffset: nat)
      requires 1 <= index && 0 <= Base() && windowEnd <= |all|
      reads this`all, this`windowEnd, this`skipped, this`index
    {
      && prevLength < MAX_MATCH - 2 && index - 1 + prevLength < windowEnd - 3
      && EndStart(prevLength) > Base() + MinIndex(index) + 2
      && Base() + index - 1 - EndStart(prevLength) != prevOffset
    }

    /** Which match is taken for the one held back: a longer one from the position tried, which is measured from two
        bytes further on, extended back over them, and leaves owed of them; otherwise the one held. */
    ghost predicate EndTaken(lookahead: nat, prevLength: nat, prevOffset: nat, len: nat, off: nat, owed: nat)
      requires 1 <= index && 0 <= Base() && windowEnd <= |all| && index + lookahead == windowEnd && 3 < prevLength
      reads this`all, this`windowEnd, this`skipped, this`index
    {
      if TriesEnd(prevLength, prevOffset) then
        var s, t := Base() + index - 1, EndStart(prevLength);
        var w := all[..s + Min(lookahead, MAX_MATCH + 2)];
        var n := Common(w, s + 2, t + 2);
        if n > prevLength then off == s - t && len == n + 2 - owed && ReachesBack(w, s, t, len, owed)
        else len == prevLength && off == prevOffset && owed == 0
      else len == prevLength && off == prevOffset && owed == 0
    }

    /** Another match that ends where the held one does, or a little later, may be longer; up to two bytes
        in front of it are then owed as literals. */
    method BetterEnd(lookahead: nat, minIndex: nat, prevLength: nat, prevOffset: nat)
      returns (len: nat, off: nat, owed: nat)
      requires Shape() && WindowOk() && maxInsertIndex == windowEnd - 3
      requires 1 <= index && index + lookahead == windowEnd && minIndex == MinIndex(index)
      requires Hashes(index + 1) && 3 < prevLength <= MAX_MATCH && 0 < prevOffset < Base() + index
      requires Match(all, Base() + index - 1, Base() + index - 1 - prevOffset, prevLength)
      ensures owed <= 2 && 3 < len <= MAX_MATCH && 0 < off < Base() + index + owed
      ensures Match(all, Base() + index - 1 + owed, Base() + index - 1 + owed - off, len)
      ensures EndTaken(lookahead, prevLength, prevOffset, len, off, owed)
    {
      hide Below, Match, Load, Hash17, Chains, Common, Prior, ReachesBack;
      len, off, owed := prevLength, prevOffset, 0;
      if prevLength < MAX_MATCH - 2 {
        var prevIndex := index - 1;
        if prevIndex + prevLength < maxInsertIndex {
          var end := Min(lookahead, MAX_MATCH + 2) + prevIndex;
          var at := prevIndex + prevLength;
          var h := Hash17(Load(window[at..at + 4], 0, 4));
          WindowKey(at);
          BelowAt(hashHead[..], hashOffset + index + 1, h);
          ChainsHead(all, skipped, Base(), hashOffset, hashHead[..], hashPrev[..], Base() + index + 1, h);
          var ch2 := hashHead[h] - hashOffset - prevLength;
          if prevIndex - ch2 != prevOffset && ch2 > minIndex + 2 {
            len, off, owed := LongerEnd(prevIndex, ch2, end, prevLength, prevOffset);
          }
        }
      }
    }

    method LongerEnd(prevIndex: nat, ch2: nat, end: nat, prevLength: nat, prevOffset: nat)
      returns (len: nat, off: nat, owed: nat)
      requires Shape() && WindowOk() && ch2 < prevIndex <= ch2 + WINDOW && prevIndex + 2 <= end <= windowEnd
      requires end <= prevIndex + MAX_MATCH + 2 && 0 <= Base()
      requires 3 < prevLength <= MAX_MATCH && 0 < prevOffset <= Base() + prevIndex
      requires Match(all, Base() + prevIndex, Base() + prevIndex - prevOffset, prevLength)
      ensures owed <= 2 && 3 < len <= MAX_MATCH && 0 < off <= Base() + prevIndex + owed
      ensures Match(all, Base() + prevIndex + owed, Base() + prevIndex + owed - off, len)
      ensures Base() + end <= |all|
      ensures var s, t, w := Base() + prevIndex, Base() + ch2, all[..Base() + end];
        var n := Common(w, s + 2, t + 2);
        if n > prevLength then off == s - t && len == n + 2 - owed && ReachesBack(w, s, t, len, owed)
        else len == prevLength && off == prevOffset && owed == 0
    {
      hide Match, Common;
      len, off, owed := prevLength, prevOffset, 0;
      var w := window[..end];
      WindowSlice(0, end);
      ghost var data := all[..Base() + end];
      assert data[Base()..] == w;
      CommonInWindow(w, data, Base(), prevIndex + 2, ch2 + 2);
      var ok, l, o := LongerIn(w, prevIndex, ch2, prevLength);
      if ok {
        SameWindow(w, prevIndex + o, prevIndex - ch2, l);
        SameReach(w, data, prevIndex, ch2, l, o);
        len, off, owed := l, prevIndex - ch2, o;
      }
    }

    lemma SameReach(w: seq<byte>, data: seq<byte>, s: nat, t: nat, len: nat, owed: nat)
      requires 0 <= Base() && |data| == Base() + |w| && data[Base()..] == w && t < s && s + 2 <= |w|
      requires ReachesBack(w, s, t, len, owed)
      ensures ReachesBack(data, Base() + s, Base() + t, len, owed)
    {
      if 1 <= owed <= 2 {
        assert data[Base()..][s + owed - 1] == w[s + owed - 1] && data[Base()..][t + owed - 1] == w[t + owed - 1];
      }
    }

    lemma SameWindow(w: seq<byte>, s: nat, d: nat, len: nat)
      requires 0 <= Base() && Base() + |w| <= |all| && w == all[Base()..Base() + |w|] && d <= s &&
        Match(w, s, s - d, len)
      ensures Match(all, Base() + s, Base() + s - d, len)
    {
      MatchInWindow(all, Base(), w, s, s - d, len);
    }

    /** The tokens added are literals for the bytes from from to to. */
    ghost predicate Literals(was: seq<nat>, now: seq<nat>, from: int, to: int)
      reads this`all, this`windowEnd
    {
      0 <= Base() + from <= Base() + to <= |all| && now == was + Plain(all[Base() + from..Base() + to])
    }

    lemma NoLiterals(at: int)
      requires 0 <= Base() + at <= |all|
      ensures Literals(Out(), Out(), at, at)
    {
    }

    lemma MoreLiterals(was: seq<nat>, now: seq<nat>, from: int, to: int)
      requires Literals(was, now, from, to) && Base() + to < |all|
      ensures Literals(was, now + [all[Base() + to] as nat], from, to + 1)
    {
      var a, b := Base() + from, Base() + to;
      assert all[a..b + 1] == all[a..b] + [all[b]];
      assert Plain(all[a..b + 1]) == Plain(all[a..b]) + [all[b] as nat];
    }

    /** Emits the owed literals. */
    method EmitOwed(owed: nat)
      requires Shape() && 1 <= index && Core(index - 1) && Hashes(index + 1) && index + owed <= windowEnd
      modifies this`index, this`chainHead, this`blockStart, this`written, this`cuts, this`leads, this`lead
      modifies tokens`n, tokens.Repr(), hashHead, hashPrev
      ensures index == old(index) + owed && Core(index - 1) && Hashes(index + 1) && Grows()
      ensures Literals(old(Out()), Out(), old(index) - 1, index - 1)
    {
      hide Hashes, Core, Kept, Out, Literals;
      CoreParts(index - 1);
      NoLiterals(index - 1);
      var j := 0;
      while j < owed
        invariant j <= owed && index == old(index) + j && Core(index - 1) && Hashes(index + 1) && Grows()
        invariant Literals(old(Out()), Out(), old(index) - 1, index - 1)
      {
        MoreLiterals(old(Out()), Out(), old(index) - 1, index - 1);
        EmitNext(index - 1);
        index := index + 1;
        CoreParts(index - 1);
        InsertAt(index);
        j := j + 1;
      }
    }

    /** Emits a match token for the match at index - 1. */
    method AddHeld(len: nat, off: nat)
      requires Shape() && 1 <= index && Core(index - 1) && 3 < len <= MAX_MATCH && 0 < off < Base() + index
      requires Match(all, Base() + index - 1, Base() + index - 1 - off, len)
      modifies tokens`n, tokens.Repr()
      ensures Kept(index - 1 + len) && index - 1 + len <= windowEnd && tokens.n > 0
      ensures Out() == old(Out()) + [MatchToken(len - MIN_MATCH, off - 1)]
    {
      hide Buffer.Valid, Covered, Log, MatchToken, Match, WindowOk, TokensOf;
      CoreParts(index - 1);
      HeldCovers(len, off);
      tokens.AddMatch(len - MIN_MATCH, off - 1);
      tokens.Sizes();
    }

    lemma HeldCovers(len: nat, off: nat)
      requires 1 <= index && Tokened(index - 1) && 3 < len <= MAX_MATCH && 0 < off < Base() + index
      requires Base() >= 0 && Match(all, Base() + index - 1, Base() + index - 1 - off, len)
      ensures off <= MAX_DIST && index - 1 + len <= windowEnd && AllTokens(tokens.Slice())
      ensures Covered(all, cuts[|cuts| - 1], tokens.Slice() + [MatchToken(len - MIN_MATCH, off - 1)],
        Base() + index - 1 + len)
    {
      hide Buffer.Valid, Covered, Match, MatchToken, AllTokens;
      var s := Base() + index - 1;
      MatchInside(all, s, s - off, len);
      CoveredSize(all, cuts[|cuts| - 1], tokens.Slice(), s);
      CoveredMatch(all, cuts[|cuts| - 1], tokens.Slice(), s, s - off, len);
    }

    /** Inserts the strings that start inside the match at index - 1, as far as four bytes are there. */
    method InsertMatched(len: nat)
      requires Shape() && 1 <= index && 3 < len <= MAX_MATCH && index - 1 + len <= windowEnd <= WINDOW_SPACE
      requires Hashes(index + 1) && WindowOk() && maxInsertIndex == windowEnd - 3
      modifies hashHead, hashPrev
      ensures Hashes(index + len - 1)
    {
      hide HashesIn;
      var newIndex := index + len - 1;
      var end := Min(newIndex, maxInsertIndex) + 3;
      var startindex := Min(index + 1, maxInsertIndex);
      WindowSlice(startindex, end);
      InsertBulk(startindex, end, index + 1, all, Base());
      HashesLater(all, Base(), Max(index + 1, end - 3), newIndex);
    }

    /** Which match is taken in place of the one held back, after the literals this owes. */
    method SettleMatch(lookahead: nat, minIndex: nat, prevLength: nat, prevOffset: nat)
      returns (len: nat, off: nat, ghost owed: nat)
      requires Shape() && 1 <= index && Core(index - 1) && Hashes(index + 1)
      requires index + lookahead == windowEnd && minIndex == MinIndex(index)
      requires 3 < prevLength <= MAX_MATCH && 0 < prevOffset < Base() + index
      requires Match(all, Base() + index - 1, Base() + index - 1 - prevOffset, prevLength)
      modifies this`index, this`chainHead, this`blockStart, this`written, this`cuts, this`leads, this`lead
      modifies tokens`n, tokens.Repr(), hashHead, hashPrev
      ensures index == old(index) + owed && Core(index - 1) && Hashes(index + 1) && Grows()
      ensures 3 < len <= MAX_MATCH && 0 < off < Base() + index && Base() + index - 1 + len <= |all|
      ensures Match(all, Base() + index - 1, Base() + index - 1 - off, len)
      ensures 0 <= Base() && old(EndTaken(lookahead, prevLength, prevOffset, len, off, owed))
      ensures Literals(old(Out()), Out(), old(index) - 1, index - 1)
    {
      hide Match, Hashes, WindowOk, Core, Kept, EndTaken, Literals, Out;
      CoreParts(index - 1);
      var n;
      len, off, n := BetterEnd(lookahead, minIndex, prevLength, prevOffset);
      MatchInside(all, Base() + index - 1 + n, Base() + index - 1 + n - off, len);
      owed := n;
      EmitOwed(n);
    }

    /** The match found at the step before is taken, or a longer one that ends where it does. */
    method TakePrevious(lookahead: nat, minIndex: nat, prevLength: nat, prevOffset: nat)
      returns (ghost len: nat, ghost off: nat, ghost owed: nat)
      requires Shape() && 1 <= index && Core(index - 1) && Hashes(index + 1)
      requires index + lookahead == windowEnd && minIndex == MinIndex(index)
      requires 3 < prevLength <= MAX_MATCH && 0 < prevOffset < Base() + index
      requires Match(all, Base() + index - 1, Base() + index - 1 - prevOffset, prevLength)
      modifies this`index, this`chainHead, this`blockStart, this`written, this`cuts, this`leads, this`lead,
               this`byteAvailable, this`length, this`ii
      modifies tokens`n, tokens.Repr(), hashHead, hashPrev
      ensures Core(index) && Hashes(index) && old(index) < index <= windowEnd && !byteAvailable && length == 3
      ensures Grows() && ii == 0
      ensures 0 <= Base() && old(EndTaken(lookahead, prevLength, prevOffset, len, off, owed))
      ensures index == old(index) - 1 + owed + len && 3 < len <= MAX_MATCH && 1 <= off <= MAX_DIST
      ensures Emitted(old(Out()), Out(), old(index) - 1, owed, len, off)
    {
      hide Match, Hashes, WindowOk, Core, Kept, EndTaken, Literals, Out;
      CoreParts(index - 1);
      var l, o;
      l, o, owed := SettleMatch(lookahead, minIndex, prevLength, prevOffset);
      len, off := l, o;
      MatchInside(all, Base() + index - 1, Base() + index - 1 - off, len);
      ghost var mid := Out();
      AddHeld(l, o);
      ThenMatch(old(Out()), mid, old(index) - 1, owed, len, off);
      FinishMatch(l);
    }

    /** The tokens added are literals for owed bytes, and then the match. */
    ghost predicate Emitted(was: seq<nat>, now: seq<nat>, from: int, owed: nat, len: nat, off: nat)
      reads this`all, this`windowEnd
    {
      && 3 < len <= MAX_MATCH && 1 <= off <= MAX_DIST && 0 <= Base() + from && Base() + from + owed <= |all|
      && now == was + Plain(all[Base() + from..Base() + from + owed]) + [MatchToken(len - MIN_MATCH, off - 1)]
    }

    lemma ThenMatch(was: seq<nat>, mid: seq<nat>, from: int, owed: nat, len: nat, off: nat)
      requires Literals(was, mid, from, from + owed) && 3 < len <= MAX_MATCH && 1 <= off <= MAX_DIST
      ensures Emitted(was, mid + [MatchToken(len - MIN_MATCH, off - 1)], from, owed, len, off)
    {
    }

    /** Moves past a match whose token has been added. */
    method FinishMatch(len: nat)
      requires Shape() && 1 <= index && 3 < len <= MAX_MATCH && index - 1 + len <= windowEnd <= WINDOW_SPACE
      requires Kept(index - 1 + len) && Hashes(index + 1) && maxInsertIndex == windowEnd - 3
      modifies this`index, this`blockStart, this`written, this`cuts, this`leads, this`lead, this`byteAvailable,
               this`length, this`ii
      modifies tokens`n, tokens.Repr(), hashHead, hashPrev
      ensures Core(index) && Hashes(index) && index == old(index) - 1 + len && !byteAvailable && length == 3
      ensures Grows() && Out() == old(Out()) && ii == 0
    {
      hide Hashes, WindowOk, Core, Kept, TokensOf;
      KeptWindow(index - 1 + len);
      InsertMatched(len);
      index := index + len - 1;
      byteAvailable := false;
      length := 3;
      FlushFull(index);
      ii := 0;
    }

    /** Emits the byte at index - 1 and hashes the next. */
    method SkipOne(ghost was: seq<nat>, ghost from: int)
      requires Shape() && 1 <= index < windowEnd && Core(index - 1) && Hashes(index)
      requires Literals(was, Out(), from, index - 1)
      modifies this`index, this`chainHead, this`blockStart, this`written, this`cuts, this`leads, this`lead
      modifies tokens`n, tokens.Repr(), hashHead, hashPrev
      ensures Core(index - 1) && Hashes(index) && index == old(index) + 1 && Grows()
      ensures Literals(was, Out(), from, index - 1)
    {
      hide Hashes, Core, Kept, Out, Literals, AtHead;
      CoreParts(index - 1);
      MoreLiterals(was, Out(), from, index - 1);
      EmitNext(index - 1);
      CoreParts(index);
      InsertAt(index);
      index := index + 1;
    }

    /** After a long run without matches, more bytes are taken as literals. */
    method Skip(n0: nat)
      requires Shape() && n0 > 0 && 1 <= index <= windowEnd && Core(index - 1) && Hashes(index)
      modifies this`index, this`chainHead, this`blockStart, this`written, this`cuts, this`leads, this`lead,
               this`byteAvailable
      modifies tokens`n, tokens.Repr(), hashHead, hashPrev
      ensures Core(index) && Hashes(index) && old(index) <= index <= windowEnd && !byteAvailable && Grows()
      ensures Literals(old(Out()), Out(), old(index) - 1, index)
      ensures index == Min(old(index) + 1 + n0 / 64, Max(old(index), windowEnd - 1))
    {
      hide Hashes, Core, Kept, Out, Literals;
      CoreParts(index - 1);
      NoLiterals(index - 1);
      var n := 1 + n0 / 64;
      var j := 0;
      while j < n
        invariant old(index) <= index <= windowEnd && Core(index - 1) && Hashes(index) && Grows()
        invariant Literals(old(Out()), Out(), old(index) - 1, index - 1)
        invariant j <= n && index == old(index) + j && (j > 0 ==> index < windowEnd)
        decreases n - j
      {
        if index >= windowEnd - 1 {
          break;
        }
        SkipOne(old(Out()), old(index) - 1);
        j := j + 1;
      }
      MoreLiterals(old(Out()), Out(), old(index) - 1, index - 1);
      EmitNext(index - 1);
      byteAvailable := false;
    }

    /** The next byte is held back; or, after many emitted one after the other, none, and some more have been emitted. A
        match found starts the count anew, which is 16 bits wide. */
    ghost predicate HeldOn(was: bool, waited: nat, from: nat, found: nat)
      reads this`ii, this`byteAvailable, this`index, this`windowEnd
    {
      var n := if found >= MIN_LOOK then 0 else waited;
      && ii == (if was then (n + 1) % 0x1_0000 else n)
      && (byteAvailable <==> !was || ii <= chain)
      && index == if byteAvailable then from + 1 else Min(from + 2 + (ii - chain) / 64, Max(from + 1, windowEnd - 1))
    }

    /** No match to take: the byte held back is emitted, and this one is held back. */
    method HoldByte()
      requires Shape() && Core(index - Pending()) && Hashes(index + 1) && index < windowEnd &&
        (byteAvailable ==> index >= 1) && chain > 0
      requires 3 <= length <= MAX_MATCH
      requires length > 3 ==>
        0 < offset <= Base() + index && Match(all, Base() + index, Base() + index - offset, length)
      modifies this`index, this`chainHead, this`blockStart, this`written, this`cuts, this`leads, this`lead,
               this`byteAvailable, this`ii
      modifies tokens`n, tokens.Repr(), hashHead, hashPrev
      ensures Core(index - Pending()) && Hashes(index) && Held() && index > old(index) && Grows()
      ensures Literals(old(Out()), Out(), old(index - Pending()), index - Pending())
      ensures HeldOn(old(byteAvailable), old(ii), old(index), length)
    {
      hide Hashes, Core, Kept, Match, Out, Literals;
      CoreParts(index - Pending());
      if length >= MIN_LOOK {
        ii := 0;
      }
      if byteAvailable {
        ii := (ii + 1) % 0x1_0000;
        PutHeld();
      } else {
        NoLiterals(index);
        index := index + 1;
        byteAvailable := true;
      }
    }

    /** Emits the byte held back, and skips ahead after many bytes without a match. */
    method PutHeld()
      requires Shape() && Core(index - 1) && Hashes(index + 1) && 1 <= index < windowEnd && byteAvailable && chain > 0
      modifies this`index, this`chainHead, this`blockStart, this`written, this`cuts, this`leads, this`lead,
               this`byteAvailable
      modifies tokens`n, tokens.Repr(), hashHead, hashPrev
      ensures Core(index - Pending()) && Hashes(index) && index > old(index) && Grows()
      ensures index <= windowEnd && (byteAvailable <==> ii <= chain)
      ensures index == if ii <= chain then old(index) + 1
        else Min(old(index) + 2 + (ii - chain) / 64, Max(old(index) + 1, windowEnd - 1))
      ensures Literals(old(Out()), Out(), old(index) - 1, index - Pending())
    {
      hide Hashes, Core, Kept, Out, Literals;
      CoreParts(index - 1);
      NoLiterals(index - 1);
      MoreLiterals(Out(), Out(), index - 1, index - 1);
      EmitNext(index - 1);
      index := index + 1;
      var n := ii - chain;
      ghost var was, now := old(Out()), Out();
      if n > 0 {
        Skip(n);
        BothLiterals(was, now, Out(), old(index) - 1, old(index), index);
      }
    }

    lemma BothLiterals(was: seq<nat>, now: seq<nat>, next: seq<nat>, from: int, mid: int, to: int)
      requires Literals(was, now, from, mid) && Literals(now, next, mid, to)
      ensures Literals(was, next, from, to)
    {
      var a, b, c := Base() + from, Base() + mid, Base() + to;
      assert all[a..c] == all[a..b] + all[b..c];
      assert Plain(all[a..c]) == Plain(all[a..b]) + Plain(all[b..c]);
    }

    // -------------------------------------------------------------------------------------------
    // A run over the window.
    // -------------------------------------------------------------------------------------------

    /** Sets length and offset to the match at index, if one is looked for and found. */
    method LookForMatch(lookahead: nat, minIndex: nat, prevLength: nat) returns (ghost raw: nat -> int)
      requires Shape() && WindowOk() && index + lookahead == windowEnd && minIndex == MinIndex(index)
      requires maxInsertIndex == windowEnd - 3 && Hashes(index + 1) && (index < maxInsertIndex ==> AtHead(index))
      requires Below(hashPrev[..], hashOffset + index) && 3 <= prevLength
      modifies this`length, this`offset
      ensures 3 <= length <= MAX_MATCH
      ensures length > 3 ==> 0 < offset <= Base() + index && Match(all, Base() + index, Base() + index - offset, length)
      ensures if lookahead > prevLength && prevLength < lazy then Searched(lookahead, raw, length, offset, length > 3)
        else length == 3
    {
      hide Match, Below, Hashes, AtHead, BestOf, WorthiestOf, Searched, Near, MinIndex;
      length, offset := 3, 0;
      raw := n => 0;
      if chainHead - hashOffset >= minIndex && lookahead > prevLength && prevLength < lazy {
        var len, off, ok;
        len, off, ok, raw := FindMatch(lookahead);
        if ok {
          length, offset := len, off;
        } else {
          NoneFound(lookahead, raw, len, off);
        }
      } else if lookahead > prevLength && prevLength < lazy {
        NothingNear();
        FoundNone(lookahead, raw);
      }
    }

    /** A match for what starts at index is looked for: more follows than the held match has, and that is not long
        enough to be taken in any case. */
    ghost predicate Looks(lookahead: nat)
      reads this`length
    {
      lookahead > length && length < lazy
    }

    /** The held match is taken: one is held, and no longer one has been found. */
    ghost predicate Takes(found: nat)
      reads this`length
    {
      length >= MIN_LOOK && found <= length
    }

    /** Hashes the string at index and looks for a match there. */
    method Consider(lookahead: nat) returns (ghost raw: nat -> int)
      requires Valid() && maxInsertIndex == windowEnd - 3 && 0 < lookahead && index + lookahead == windowEnd
      modifies this`chainHead, this`length, this`offset, hashHead, hashPrev
      ensures Shape() && Hashes(index + 1) && Data(index - Pending()) && Out() == old(Out()) && 0 <= Base()
      ensures 3 <= length <= MAX_MATCH
      ensures length > 3 ==> 0 < offset <= Base() + index && Match(all, Base() + index, Base() + index - offset, length)
      ensures if old(Looks(lookahead)) then Searched(lookahead, raw, length, offset, length > 3) else length == 3
    {
      hide Match, Data, Below, HashesIn, WindowOk, AtHead, Searched, Out, MinIndex;
      WindowFacts();
      InsertAt(index);
      MinIs(index);
      raw := LookForMatch(lookahead, Max(index - WINDOW, 0), length);
    }

    /** What one iteration does. */
    twostate predicate Steps(lookahead: nat, raw: nat -> int, found: nat, at: nat, len: nat, off: nat, owed: nat)
      reads this, tokens, tokens.tokens
    {
      && (if old(Looks(lookahead)) then old(Searched(lookahead, raw, found, at, found > 3)) else found == 3)
      && if old(Takes(found)) then
           && old(Holds(lookahead)) && old(EndTaken(lookahead, length, offset, len, off, owed))
           && Emitted(old(Out()), Out(), old(index) - 1, owed, len, off)
           && index == old(index) - 1 + owed + len && !byteAvailable && length == 3 && ii == 0
         else
           && length == found && offset == at
           && Literals(old(Out()), Out(), old(index - Pending()), index - Pending())
           && HeldOn(old(byteAvailable), old(ii), old(index), found)
    }

    /** A match is held, and the window has so much more. */
    ghost predicate Holds(lookahead: nat)
      reads this
    {
      1 <= index && 0 <= Base() && windowEnd <= |all| && index + lookahead == windowEnd && 3 < length
    }

    /** One iteration. A match is found at index, of length 3 if none is; either the held match is taken, or a longer
        one that ends where it does, and its token emitted; or the byte held back is emitted and the match found is
        held. */
    method Step(lookahead: nat)
      returns (ghost raw: nat -> int, ghost found: nat, ghost at: nat, ghost len: nat, ghost off: nat, ghost owed: nat)
      requires Valid() && maxInsertIndex == windowEnd - 3 && chain > 0 && 0 < lookahead &&
        index + lookahead == windowEnd
      modifies this`index, this`chainHead, this`blockStart, this`written, this`cuts, this`leads, this`lead,
               this`byteAvailable, this`ii
      modifies this`length, this`offset, tokens`n, tokens.Repr(), hashHead, hashPrev
      ensures Valid() && index > old(index) && Grows()
      ensures Steps(lookahead, raw, found, at, len, off, owed)
    {
      hide Match, Data, Below, Hashes, WindowOk, AtHead, Searched, EndTaken, Emitted, Literals, Out, MinIndex, HeldOn;
      WindowFacts();
      var prevLength, prevOffset := length, offset;
      var minIndex := Max(index - WINDOW, 0);
      MinIs(index);
      raw := Consider(lookahead);
      found, at := length, offset;
      if prevLength >= MIN_LOOK && length <= prevLength {
        len, off, owed := TakePrevious(lookahead, minIndex, prevLength, prevOffset);
      } else {
        len, off, owed := 0, 0, 0;
        HoldByte();
      }
    }

    lemma WindowFacts()
      requires Valid()
      ensures Shape() && WindowOk() && windowEnd <= window.Length && Base() >= 0
    {
    }

    /** At most one block is added, and it is given everything since the last cut, and the bytes in front
        that blockStart includes. */
    twostate predicate Delivers()
      reads this`all, this`written, this`cuts, this`sync
    {
      && old(written) <= written && |written| <= |old(written)| + 1
      && (written == old(written) ==> cuts == old(cuts))
      && (|written| > |old(written)| ==>
            && cuts != [] && old(cuts) != [] && old(lead) <= old(cuts[|cuts| - 1]) <= |all|
            && written[|old(written)|].Block? && written[|old(written)|].sync == sync
            && (old(blockStart) <= WINDOW_SPACE ==>
                  written[|old(written)|].input == Some(all[old(cuts[|cuts| - 1]) - old(lead)..])))
    }

    /** At the end of the data: what is held back goes out, and the block with it. */
    method Drain()
      requires Valid() && maxInsertIndex == windowEnd - 3 && index == windowEnd
      modifies this`blockStart, this`written, this`cuts, this`leads, this`lead, this`byteAvailable, tokens`n,
               tokens.Repr()
      ensures Valid() && !byteAvailable && old(written) <= written && tokens.n == 0 && cuts[|cuts| - 1] == |all|
      ensures Delivers()
    {
      hide Match, Data, Hashes, Next, Out;
      HeldInside();
      WindowFacts();
      if byteAvailable {
        AddNext(index - 1);
        byteAvailable := false;
      }
      if tokens.n > 0 {
        NextIs(index);
        FlushAll(index);
      } else {
        NoneLeft(index);
      }
    }

    lemma NextIs(idx: nat)
      requires Shape() && Data(idx) && idx == windowEnd
      ensures PieceTo(idx) && Next(idx).Block? && Next(idx).sync == sync
      ensures blockStart <= WINDOW_SPACE ==> Next(idx).input == Some(all[cuts[|cuts| - 1] - lead..])
    {
      hide Buffer.Valid, Covered, Logged, NoBlocks;
      HasPiece(idx);
      var at := cuts[|cuts| - 1] - lead;
      assert all[at..|all|] == all[at..];
    }

    lemma NoneLeft(idx: int)
      requires Data(idx) && tokens.n == 0
      ensures cuts != [] && cuts[|cuts| - 1] == Base() + idx
    {
      hide Logged, Covered;
      CoveredEmpty(all, cuts[|cuts| - 1], Base() + idx);
    }

    /** Hands the tokens over. */
    method FlushAll(idx: nat)
      requires Shape() && Data(idx) && PieceTo(idx) && 0 < idx <= windowEnd && tokens.n > 0
      modifies this`blockStart, this`written, this`cuts, this`leads, this`lead, tokens`n, tokens.Repr()
      ensures Data(idx) && tokens.n == 0 && old(written) <= written && cuts != [] && cuts[|cuts| - 1] == Base() + idx
      ensures |written| == |old(written)| + 1 && written[|old(written)|] == old(Next(idx)) && Out() == old(Out())
    {
      hide Buffer.Valid, Covered, Logged, Log, TokensOf;
      CoveredNone(all, Base() + idx);
      ghost var ws := written;
      WriteBlock(idx);
      TokensAdd(ws, written[|ws|]);
      tokens.Sizes();
      tokens.Reset();
      tokens.Sizes();
    }

    /** A match held back ends inside the window. */
    lemma HeldInside()
      requires Held()
      ensures length > 3 ==> index - 1 + length <= windowEnd
    {
      if length > 3 { MatchInside(all, Base() + index - 1, Base() + index - 1 - offset, length); }
    }

    /** Strings are hashed as far as four bytes are there. */
    method StartRun()
      requires Valid()
      modifies this`maxInsertIndex
      ensures Valid() && maxInsertIndex == windowEnd - 3
    {
      hide Hashes, Held, Data;
      maxInsertIndex := windowEnd - 3;
    }

    /** Compresses what is in the window, up to what a longer match might need, or all of it. */
    method DeflateLazy()
      requires Valid() && chain > 0
      modifies this`index, this`chainHead, this`blockStart, this`written, this`cuts, this`leads, this`lead,
               this`byteAvailable, this`ii
      modifies this`length, this`offset, this`maxInsertIndex, tokens`n, tokens.Repr(), hashHead, hashPrev
      ensures Valid() && old(written) <= written
      ensures |all| < MAX_TOKENS ==> if sync then Delivers() else Grows()
      ensures !sync ==> windowEnd - index < ENOUGH
      ensures sync ==> index == windowEnd && !byteAvailable && tokens.n == 0 && cuts[|cuts| - 1] == |all|
    {
      hide Hashes, Held, Data, Steps, Shape, Valid;
      if windowEnd - index < ENOUGH && !sync {
        return;
      }
      StartRun();
      while true
        invariant Valid() && maxInsertIndex == windowEnd - 3 && Grows()
        decreases windowEnd - index
      {
        WithinWindow();
        var lookahead := windowEnd - index;
        if lookahead < ENOUGH {
          if !sync {
            return;
          }
          if lookahead == 0 {
            Drain();
            return;
          }
        }
        ghost var raw, found, at, len, off, owed := Step(lookahead);
      }
    }

    lemma WithinWindow()
      requires Valid()
      ensures index <= windowEnd
    {
    }

    // -------------------------------------------------------------------------------------------
    // Filling the window.
    // -------------------------------------------------------------------------------------------

    /** Moves the upper half of the window down, and keeps positions from growing without bound. */
    method Shift()
      requires Valid() && index >= WINDOW_SPACE - ENOUGH
      modifies this`index, this`windowEnd, this`blockStart, this`hashOffset, this`chainHead
      modifies window, hashHead, hashPrev
      ensures Valid() && index == old(index) - WINDOW && windowEnd == old(windowEnd) - WINDOW
    {
      hide Match, Data, HashesIn;
      WindowFacts();
      WithinWindow();
      MoveWindow();
      MoveHashes();
    }

    /** Copies the upper half of the window over the lower. */
    method MoveWindow()
      requires Shape() && Data(index - Pending()) && WINDOW < index <= windowEnd && tokens.n < MAX_TOKENS && Held()
      modifies this`index, this`windowEnd, this`blockStart, window
      ensures index == old(index) - WINDOW && windowEnd == old(windowEnd) - WINDOW
      ensures Data(index - Pending()) && Held()
    {
      hide Match, Covered, Buffer.Valid, Logged, NoBlocks;
      PiecesBound();
      CopyDown();
      MoveMarks();
    }

    /** Positions in the window, after its bytes have moved. */
    method MoveMarks()
      requires Shape() && Log() && Tokened(index - Pending()) && Held() &&
        WINDOW < index <= windowEnd <= window.Length == WINDOW_SPACE
      requires window[..windowEnd - WINDOW] == all[|all| - (windowEnd - WINDOW)..] && tokens.n < MAX_TOKENS
      requires Base() + index - Pending() <= cuts[|cuts| - 1] + MAX_MATCH * MAX_TOKENS
      modifies this`index, this`windowEnd, this`blockStart
      ensures index == old(index) - WINDOW && windowEnd == old(windowEnd) - WINDOW
      ensures Data(index - Pending()) && Held()
    {
      hide Match, Covered, Buffer.Valid, Logged, NoBlocks;
      tokens.Sizes();
      ghost var cut := cuts[|cuts| - 1];
      blockStart := if blockStart >= WINDOW then blockStart - WINDOW else NO_BLOCK;
      index, windowEnd := index - WINDOW, windowEnd - WINDOW;
      assert Tokened(index - Pending()) by { assert Covered(all, cut, tokens.Slice(), Base() + index - Pending()); }
    }

    method CopyDown()
      requires Shape() && WindowOk() && windowEnd >= WINDOW
      modifies window
      ensures window[..windowEnd - WINDOW] == all[|all| - (windowEnd - WINDOW)..]
    {
      ghost var w := window[..];
      forall i | 0 <= i < WINDOW {
        window[i] := window[i + WINDOW];
      }
      assert w[..windowEnd] == all[Base()..];
      MovedWindow(w, window[..], windowEnd, all);
      assert window[..][..windowEnd - WINDOW] == window[..windowEnd - WINDOW];
    }

    lemma PiecesBound()
      requires Data(index - Pending())
      ensures Base() + index - Pending() <= cuts[|cuts| - 1] + MAX_MATCH * MAX_TOKENS
    {
      hide Covered, Buffer.Valid, Logged, NoBlocks, WindowOk;
      CoveredBound(all, cuts[|cuts| - 1], tokens.Slice(), Base() + index - Pending());
      MulLess(tokens.n, MAX_TOKENS + 1, MAX_MATCH);
    }

    /** Hash entries are counted from a higher position, or all are lowered. */
    method MoveHashes()
      requires Shape() && index >= 0 && HashesIn(all, Base() - WINDOW, index + WINDOW)
      modifies this`hashOffset, this`chainHead, hashHead, hashPrev
      ensures Hashes(index)
    {
      hide Below, Chains;
      ghost var base: nat := Base() - WINDOW;
      ChainsMoved(all, skipped, base, hashOffset, hashHead[..], hashPrev[..], base + (index + WINDOW), WINDOW);
      hashOffset := hashOffset + WINDOW;
      if hashOffset > MAX_HASH_OFFSET {
        var delta := hashOffset - 1;
        ghost var head, prev: seq<nat> := hashHead[..], hashPrev[..];
        hashOffset := hashOffset - delta;
        chainHead := chainHead - delta;
        Lower(hashPrev, delta, delta + 1 + index);
        Lower(hashHead, delta, delta + 1 + index);
        ChainsLowered(all, skipped, Base(), delta + 1, head, prev, Base() + index, hashHead[..], hashPrev[..]);
      }
    }

    /** Appends bytes to the window. */
    method Append(b: seq<byte>)
      requires Valid() && windowEnd + |b| <= window.Length
      modifies this`windowEnd, this`all, this`skipped, window
      ensures Valid() && all == old(all) + b && windowEnd == old(windowEnd) + |b|
      ensures skipped == old(skipped) + PassedOver(|old(all)|, old(Base()) + index)
    {
      hide Match, Data, HashesIn, PassedOver, Held;
      WindowFacts();
      CopyIn(b);
      SkipOver(b);
      windowEnd, all := windowEnd + |b|, all + b;
      StillHolds(b);
    }

    /** More data changes nothing about the rest. */
    twostate lemma StillHolds(b: seq<byte>)
      requires old(Data(index - Pending()) && Held()) && WindowOk()
      requires all == old(all) + b && windowEnd == old(windowEnd) + |b|
      requires unchanged(this`cuts, this`written, this`leads, this`lead, this`preset, this`blockStart, this`index)
      requires unchanged(this`byteAvailable, this`length, this`offset, tokens, tokens.Repr())
      ensures Data(index - Pending()) && Held()
    {
      hide Match, Covered, Buffer.Valid, Logged, NoBlocks, WindowOk;
      var was := old(all);
      LoggedLonger(was, all, written, cuts, leads);
      CoveredLonger(was, all, cuts[|cuts| - 1], tokens.Slice(), Base() + index - Pending());
      if length > 3 { MatchLonger(was, all, Base() + index - 1, Base() + index - 1 - offset, length); }
    }

    /** Positions too close to the end of the data are passed over for good when more data comes. */
    ghost method SkipOver(b: seq<byte>)
      requires HashesIn(all, Base(), index)
      modifies this`skipped
      ensures HashesIn(all + b, Base(), index) && skipped == old(skipped) + PassedOver(|all|, Base() + index)
    {
      hide Below, Chains, PassedOver;
      ChainsLonger(all, b, skipped, Base(), hashOffset, hashHead[..], hashPrev[..], Base() + index);
      skipped := skipped + PassedOver(|all|, Base() + index);
    }

    method CopyIn(b: seq<byte>)
      requires WindowOk() && windowEnd + |b| <= window.Length
      modifies window
      ensures WindowOk() && window[..windowEnd + |b|] == (all + b)[Base()..]
    {
      ghost var w := window[..];
      forall i | 0 <= i < |b| {
        window[windowEnd + i] := b[i];
      }
      AppendedWindow(w, window[..], windowEnd, all, b);
      assert window[..windowEnd] == w[..windowEnd];
    }

    /** Takes as many bytes as fit, after making room if little is left. */
    method FillDeflate(b: seq<byte>) returns (n: nat)
      requires Valid()
      modifies this`index, this`windowEnd, this`blockStart, this`hashOffset, this`chainHead, this`all, this`skipped
      modifies window, hashHead, hashPrev
      ensures Valid() && n <= |b| && all == old(all) + b[..n]
      ensures |b| > 0 && (old(windowEnd) < WINDOW_SPACE || old(windowEnd) - old(index) < ENOUGH) ==> n > 0
      ensures old(windowEnd) + |b| < WINDOW_SPACE - ENOUGH ==>
        n == |b| && windowEnd == old(windowEnd) + |b| && blockStart == old(blockStart)
    {
      hide Hashes, Data, Held;
      WindowFacts();
      WithinWindow();
      if index >= WINDOW_SPACE - ENOUGH {
        Shift();
      }
      n := Min(|b|, window.Length - windowEnd);
      Append(b[..n]);
    }

    /** Takes all the bytes given. */
    method Write(b0: seq<byte>)
      requires Valid() && chain > 0 && !sync
      modifies this`index, this`chainHead, this`blockStart, this`written, this`cuts, this`leads, this`lead,
               this`byteAvailable
      modifies this`ii, this`length, this`offset, this`maxInsertIndex, this`windowEnd, this`hashOffset, this`all,
               this`skipped
      modifies window, tokens`n, tokens.Repr(), hashHead, hashPrev
      ensures Valid() && all == old(all) + b0 && old(written) <= written
      ensures old(windowEnd) + |b0| < WINDOW_SPACE - ENOUGH ==>
        && windowEnd == old(windowEnd) + |b0| && blockStart == old(blockStart)
        && written == old(written) && cuts == old(cuts) && lead == old(lead)
    {
      hide Hashes, Data, Held;
      var b := b0;
      while |b| > 0
        invariant Valid() && all + b == old(all) + b0 && old(written) <= written
        invariant old(windowEnd) + |b0| < WINDOW_SPACE - ENOUGH ==>
          && windowEnd + |b| == old(windowEnd) + |b0| && blockStart == old(blockStart)
          && written == old(written) && cuts == old(cuts) && lead == old(lead)
        decreases |b|
      {
        WindowFacts();
        if windowEnd == window.Length {
          DeflateLazy();
        }
        ghost var was := all;
        var n := FillDeflate(b);
        assert was + b == was + b[..n] + b[n..];
        b := b[n..];
      }
    }

    /** What a flush adds after the data. */
    method Mark()
      requires Valid()
      modifies this`written, this`cuts, this`leads
      ensures Valid() && written == old(written) + [Marker] && cuts[|cuts| - 1] == old(cuts[|cuts| - 1])
      ensures old(cuts) != [] && cuts != []
    {
      hide Match, Covered, Buffer.Valid, Logged, NoBlocks, Below;
      LoggedCut(all, written, cuts, leads);
      LoggedMore(all, written, cuts, leads, Marker, cuts[|cuts| - 1], 0);
      MarkersOnly(written);
      written, cuts, leads := written + [Marker], cuts + [cuts[|cuts| - 1]], leads + [0];
    }

    /** Everything taken so far goes out, followed by the empty stored block. */
    method SyncFlush()
      requires Valid() && chain > 0 && !sync
      modifies this`index, this`chainHead, this`blockStart, this`written, this`cuts, this`leads, this`lead,
               this`byteAvailable
      modifies this`ii, this`length, this`offset, this`maxInsertIndex, this`sync
      modifies tokens`n, tokens.Repr(), hashHead, hashPrev
      ensures Valid() && !sync && old(written) <= written && written != [] && written[|written| - 1] == Marker
      ensures cuts != [] && cuts[|cuts| - 1] == |all|
    {
      hide Hashes, Data, Held;
      sync := true;
      DeflateLazy();
      Mark();
      sync := false;
    }

    /** Everything taken so far goes out; the end of the stream is not part of the log. */
    method Close()
      requires Valid() && chain > 0
      modifies this`index, this`chainHead, this`blockStart, this`written, this`cuts, this`leads, this`lead,
               this`byteAvailable
      modifies this`ii, this`length, this`offset, this`maxInsertIndex, this`sync
      modifies tokens`n, tokens.Repr(), hashHead, hashPrev
      ensures Valid() && old(written) <= written && |cuts| == |written| + 1 == |leads| + 1 && sync
      ensures |all| < MAX_TOKENS ==> Delivers()
      ensures Logged(all, written, cuts, leads) && cuts[0] == preset && cuts[|written|] == |all|
    {
      hide Hashes, Held, Data, Logged;
      sync := true;
      DeflateLazy();
      LogParts();
    }

    lemma LogParts()
      requires Valid()
      ensures Logged(all, written, cuts, leads) && |cuts| == |written| + 1 == |leads| + 1 && cuts[0] == preset
    {
    }

    // -------------------------------------------------------------------------------------------
    // A preset dictionary.
    // -------------------------------------------------------------------------------------------

    lemma HashesLater(data: seq<byte>, base: int, pos: int, pos': int)
      requires HashesIn(data, base, pos) && pos <= pos' && (pos < pos' ==> base + pos + 4 > |data|)
      ensures HashesIn(data, base, pos')
    {
      hide Below, Chains;
      BelowLater(hashHead[..], hashOffset + pos, hashOffset + pos');
      BelowLater(hashPrev[..], hashOffset + pos, hashOffset + pos');
      ChainsPassTo(data, skipped, base, hashOffset, hashHead[..], hashPrev[..], base + pos, base + pos');
    }

    lemma WindowPart(n: nat, i: nat, j: nat)
      requires i <= j <= n <= window.Length
      ensures window[i..j] == window[..n][i..j]
    {
    }

    /** Hashes the bytes of the window, 256 at a time. */
    method HashWindow(n: nat, ghost b: seq<byte>)
      requires Shape() && HashesIn(b, 0, 0) && |b| == n <= WINDOW && window[..n] == b
      modifies hashHead, hashPrev
      ensures HashesIn(b, 0, n)
    {
      hide HashesIn;
      var loops := (n + 256 - MIN_LOOK) / 256;
      for j := 0 to loops
        invariant HashesIn(b, 0, Max(0, Min(256 * j, n - 3)))
      {
        var startindex := j * 256;
        var end := Min(startindex + 256 + MIN_LOOK - 1, n);
        WindowPart(n, startindex, end);
        InsertBulk(startindex, end, startindex, b, 0);
      }
      HashesLater(b, 0, Max(0, Min(256 * loops, n - 3)), n);
    }

    /** Puts a preset dictionary in the window. blockStart is left where it is, in front of it. */
    method FillWindow(b0: seq<byte>)
      requires Valid() && all == [] && windowEnd == index == blockStart == preset == 0 && written == [] &&
        !byteAvailable
      modifies this`windowEnd, this`index, this`all, this`cuts, this`preset, this`lead, window, hashHead, hashPrev
      ensures Valid() && all == b0[Max(|b0| - WINDOW, 0)..] && preset == lead == |all| && cuts == [preset]
    {
      hide Match, Covered, Buffer.Valid, Logged, NoBlocks, Below, HashesIn;
      NothingYet();
      var b := b0;
      if |b| > WINDOW {
        b := b[|b| - WINDOW..];
      }
      CopyIn(b);
      assert ([] + b)[0..] == b;
      HashesOfNone(b);
      HashWindow(|b|, b);
      StartAfter(b);
    }

    /** With no position looked at, the chains are right for any data. */
    lemma HashesOfNone(b: seq<byte>)
      requires HashesIn([], 0, 0)
      ensures HashesIn(b, 0, 0)
    {
      hide Chains, Below;
      ChainsLonger([], b, skipped, 0, hashOffset, hashHead[..], hashPrev[..], 0);
      assert skipped + PassedOver(0, 0) == skipped && [] + b == b;
    }

    method StartAfter(b: seq<byte>)
      requires Shape() && tokens.Valid() && tokens.n == 0 && tokens.Slice() == [] && length == 3 && leads == [] &&
        written == []
      requires |b| <= WINDOW && window[..|b|] == b && HashesIn(b, 0, |b|) && blockStart == 0 && !byteAvailable
      modifies this`windowEnd, this`index, this`all, this`cuts, this`preset, this`lead
      ensures Valid() && all == b && preset == lead == |b| && cuts == [preset]
    {
      hide Buffer.Valid, HashesIn, Valid, Buffer.Slice;
      tokens.Sizes();
      windowEnd, index := |b|, |b|;
      all, cuts, preset, lead := b, [|b|], |b|, |b|;
      JustStarted(b);
    }

    lemma JustStarted(b: seq<byte>)
      requires Shape() && tokens.Valid() && tokens.n == 0 && tokens.Slice() == [] && leads == [] && written == []
      requires |b| <= WINDOW && window[..|b|] == b && blockStart == 0
      requires all == b && windowEnd == index == preset == lead == |b| && cuts == [|b|]
      requires HashesIn(b, 0, |b|) && length == 3 && !byteAvailable
      ensures Valid()
    {
      hide Covered, Buffer.Valid, Logged, NoBlocks, HashesIn;
      LoggedStart(b, |b|);
      CoveredNone(b, |b|);
      tokens.Sizes();
      assert all[0..] == b;
    }

    lemma NothingYet()
      requires Valid() && all == [] && written == [] && !byteAvailable && index == 0
      ensures tokens.Valid() && tokens.n == 0 && tokens.Slice() == [] && length == 3 && leads == [] && |cuts| == 1
    {
      hide Match, Buffer.Valid, Below;
      tokens.Sizes();
      CoveredSize(all, cuts[|cuts| - 1], tokens.Slice(), Base() + index - Pending());
    }

    method ClearHashes()
      requires Shape()
      modifies hashHead, hashPrev
      ensures forall k :: 0 <= k < HASH_SIZE ==> hashHead[k] == 0
      ensures forall k :: 0 <= k < WINDOW ==> hashPrev[k] == 0
    {
      forall k | 0 <= k < HASH_SIZE {
        hashHead[k] := 0;
      }
      forall k | 0 <= k < WINDOW {
        hashPrev[k] := 0;
      }
    }

    method ClearMarks()
      modifies `sync, `chainHead, `hashOffset, `index, `windowEnd, `blockStart, `byteAvailable
      ensures windowEnd == blockStart == index == 0 && chainHead == -1 && hashOffset == 1 && !byteAvailable && !sync
    {
      sync := false;
      chainHead, hashOffset := -1, 1;
      index, windowEnd := 0, 0;
      blockStart, byteAvailable := 0, false;
    }

    method ClearHeld()
      modifies `length, `offset, `ii, `maxInsertIndex, `written
      ensures length == 3 && written == []
    {
      length, offset, ii, maxInsertIndex := 3, 0, 0, 0;
      written := [];
    }

    ghost method ClearLog()
      modifies `all, `cuts, `leads, `lead, `preset, `skipped
      ensures all == [] && cuts == [0] && leads == [] && lead == preset == 0 && skipped == {}
    {
      all, cuts, leads, lead, preset, skipped := [], [0], [], 0, 0, {};
    }

    lemma EmptyTokens()
      requires tokens.Valid() && tokens.Slice() == []
      ensures tokens.n == 0
    {
      tokens.Sizes();
    }

    /** Back to the start, for another stream. */
    method Reset()
      requires Shape() && tokens.Valid()
      modifies this, tokens`n, tokens.Repr(), hashHead, hashPrev
      ensures Valid() && all == [] && written == [] && cuts == [0] &&
        lead == preset == windowEnd == index == blockStart == 0
      ensures !sync && !byteAvailable
    {
      hide Buffer.Valid, Valid, Buffer.Slice;
      ClearHashes();
      tokens.Sizes();
      tokens.Reset();
      ClearMarks();
      ClearHeld();
      ClearLog();
      EmptyTokens();
      ValidAtStart();
    }
  }

  /** A match is extended back to where it can be no longer, or no further; owed bytes are not reached. */
  predicate ReachesBack(w: seq<byte>, s: nat, t: nat, len: nat, owed: nat)
    requires t < s && s + 2 <= |w|
  {
    owed == 0 || len == MAX_MATCH || (owed <= 2 && w[s + owed - 1] != w[t + owed - 1])
  }

  /** Whether the bytes from two after ch2 on agree for longer than prevLength with those after prevIndex. */
  method LongerIn(w: seq<byte>, prevIndex: nat, ch2: nat, prevLength: nat) returns (ok: bool, len: nat, owed: nat)
    requires ch2 < prevIndex <= ch2 + WINDOW && prevIndex + 2 <= |w| <= prevIndex + MAX_MATCH + 2
    ensures ok ==> owed <= 2 && prevLength < len <= MAX_MATCH && Match(w, prevIndex + owed, ch2 + owed, len)
    ensures ok <==> Common(w, prevIndex + 2, ch2 + 2) > prevLength
    ensures ok ==> len == Common(w, prevIndex + 2, ch2 + 2) + 2 - owed && ReachesBack(w, prevIndex, ch2, len, owed)
  {
    hide Match, Common;
    owed, len := 0, 0;
    var a, b := w[prevIndex + 2..], w[ch2 + 2..];
    var found := MatchLength(a, b);
    assert w[prevIndex + 2..prevIndex + 2 + found] == a[..found] && w[ch2 + 2..ch2 + 2 + found] == b[..found];
    CommonIs(w, prevIndex + 2, ch2 + 2, found);
    ok := found > prevLength;
    if ok {
      AgreedMatch(w, prevIndex + 2, ch2 + 2, found);
      owed, len := ExtendOver(w, prevIndex, ch2, found);
    }
  }

  /** Tokens cover at most 258 bytes each. */
  lemma {:induction false} ExpandBound(h: seq<byte>, xs: seq<Item>)
    requires AllValid(h, xs)
    ensures |Expand(h, xs)| <= |h| + MAX_MATCH * |xs|
    decreases xs
  {
    if xs != [] { ExpandBound(Apply(h, xs[0]), xs[1..]); }
  }

  lemma CoveredBound(h: seq<byte>, from: nat, ts: seq<nat>, to: nat)
    requires Covered(h, from, ts, to)
    ensures to <= from + MAX_MATCH * |ts|
  {
    ExpandBound(h[..from], Items(ts));
  }

  lemma MovedWindow(w: seq<byte>, w': seq<byte>, end: nat, all: seq<byte>)
    requires |w| == |w'| == WINDOW_SPACE && WINDOW <= end <= WINDOW_SPACE && end <= |all|
    requires forall i :: 0 <= i < WINDOW ==> w'[i] == w[i + WINDOW]
    requires w[..end] == all[|all| - end..]
    ensures w'[..end - WINDOW] == all[|all| - (end - WINDOW)..]
  {
    forall i | 0 <= i < end - WINDOW ensures w'[i] == all[|all| - (end - WINDOW)..][i] {
      assert w[..end][i + WINDOW] == all[|all| - end..][i + WINDOW];
    }
  }

  lemma LoggedStart(all: seq<byte>, n: nat)
    requires n <= |all|
    ensures Logged(all, [], [n], []) && NoBlocks([])
  {
  }

  lemma LoggedNone()
    ensures Logged([], [], [0], [])
  {
  }

  lemma BelowZero(table: seq<nat>)
    requires forall k :: 0 <= k < |table| ==> table[k] == 0
    ensures Below(table, 1)
  {
  }

  /** Entries lowered by delta, or to nothing. */
  method Lower(table: array<nat>, delta: nat, ghost lim: nat)
    requires Below(table[..], lim) && delta < lim
    modifies table
    ensures Below(table[..], lim - delta) && Lowered(old(table[..]), table[..], delta)
  {
    ghost var q := table[..];
    for i := 0 to table.Length
      invariant forall k :: 0 <= k < i ==>
        table[k] < lim - delta && table[k] == if q[k] > delta then q[k] - delta else 0
      invariant forall k :: i <= k < table.Length ==> table[k] == q[k]
    {
      assert q[i] < lim;
      var v := table[i];
      if v > delta {
        table[i] := v - delta;
      } else {
        table[i] := 0;
      }
    }
  }

  lemma AppendedWindow(w: seq<byte>, w': seq<byte>, end: nat, all: seq<byte>, b: seq<byte>)
    requires |w| == |w'| && end + |b| <= |w| && end <= |all| && w[..end] == all[|all| - end..]
    requires forall i :: 0 <= i < end ==> w'[i] == w[i]
    requires forall i :: 0 <= i < |b| ==> w'[end + i] == b[i]
    ensures w'[..end + |b|] == (all + b)[|all| - end..]
  {
    forall i | 0 <= i < end + |b| ensures w'[i] == (all + b)[|all| - end..][i] {
      if i < end {
        assert w[..end][i] == all[|all| - end..][i];
      } else {
        assert w'[end + (i - end)] == b[i - end];
      }
    }
  }

  lemma MatchLonger(h: seq<byte>, h': seq<byte>, s: nat, t: nat, l: nat)
    requires Match(h, s, t, l) && h <= h'
    ensures Match(h', s, t, l)
  {
    assert h'[s..s + l] == h[s..s + l] && h'[t..t + l] == h[t..t + l];
  }

  lemma MarkersOnly(written: seq<Handed>)
    ensures NoBlocks(written + [Marker]) <==> NoBlocks(written)
  {
    if NoBlocks(written + [Marker]) {
      forall k | 0 <= k < |written| ensures written[k].Marker? { assert (written + [Marker])[k] == written[k]; }
    }
  }

  lemma AgreedMatch(w: seq<byte>, s: nat, t: nat, l: nat)
    requires t < s <= t + WINDOW && s + l <= |w| && w[s..][..l] == w[t..][..l]
    ensures Match(w, s, t, l)
  {
    assert w[s..s + l] == w[s..][..l] && w[t..t + l] == w[t..][..l];
  }

  lemma CoveredEmpty(h: seq<byte>, from: nat, to: nat)
    requires Covered(h, from, [], to)
    ensures from == to
  {
    assert |h[..from]| == |h[..to]|;
  }
}
