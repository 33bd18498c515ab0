/** The buffer that collects a block's tokens, and the histograms it keeps beside them. */
module TokenBuffer {
  import opened Words
  import opened Canon
  import opened HuffmanTree
  import opened HuffmanSort
  import opened HuffmanCode
  import opened Lz
  import opened LzCodes
  import opened Format
  import opened Tokens
  import opened BitWriter

  const MAX_BLOCK: nat := 65535
  const EXTRA_CODES: nat := 32
  const OFFSET_SLOTS: nat := 32

  // ---------------------------------------------------------------------------------------------
  // What the histograms count.
  // ---------------------------------------------------------------------------------------------

  /** Position of a token in the literal, end-of-block and length histograms taken together. */
  function SymbolOf(t: nat): (s: nat)
    ensures s < 256 + EXTRA_CODES - 2
  {
    if t <= EOB_TOKEN then t else FIRST_LENGTH + LengthCode(TokLength(t))
  }

  /** The distance code of a match. */
  function OffsetOf(t: nat): (c: nat)
    ensures c < OFFSET_SLOTS
  {
    TokOffset(t) / OFFSET_UNIT % 32
  }

  function SymbolCount(ts: seq<nat>, s: nat): (n: nat)
    ensures n <= |ts|
  {
    if ts == [] then 0
    else SymbolCount(ts[..|ts| - 1], s) + if SymbolOf(ts[|ts| - 1]) == s then 1 else 0
  }

  function OffsetCount(ts: seq<nat>, c: nat): (n: nat)
    ensures n <= |ts|
  {
    if ts == [] then 0
    else
      OffsetCount(ts[..|ts| - 1], c)
      + if ts[|ts| - 1] > EOB_TOKEN && OffsetOf(ts[|ts| - 1]) == c then 1 else 0
  }

  lemma SymbolCountStep(ts: seq<nat>, t: nat, s: nat)
    ensures SymbolCount(ts + [t], s) == SymbolCount(ts, s) + if SymbolOf(t) == s then 1 else 0
  {
    assert (ts + [t])[..|ts|] == ts;
  }

  lemma OffsetCountStep(ts: seq<nat>, t: nat, c: nat)
    ensures OffsetCount(ts + [t], c) == OffsetCount(ts, c) + if t > EOB_TOKEN && OffsetOf(t) == c then 1 else 0
  {
    assert (ts + [t])[..|ts|] == ts;
  }

  lemma {:induction false} CountedSymbol(ts: seq<nat>, k: nat)
    requires k < |ts|
    ensures SymbolCount(ts, SymbolOf(ts[k])) > 0
    ensures ts[k] > EOB_TOKEN ==> OffsetCount(ts, OffsetOf(ts[k])) > 0
    decreases |ts|
  {
    if k < |ts| - 1 { CountedSymbol(ts[..|ts| - 1], k); }
  }

  /** The histograms are exact. */
  predicate Counted(lit: seq<nat>, extra: seq<nat>, off: seq<nat>, ts: seq<nat>) {
    && |lit| == 256 && |extra| == EXTRA_CODES && |off| == OFFSET_SLOTS
    && (forall v :: 0 <= v < 256 ==> lit[v] == SymbolCount(ts, v))
    && (forall c :: 0 <= c < EXTRA_CODES ==> extra[c] == SymbolCount(ts, 256 + c))
    && (forall c :: 0 <= c < OFFSET_SLOTS ==> off[c] == OffsetCount(ts, c))
  }

  lemma CountNone()
    ensures Counted(seq(256, _ => 0), seq(EXTRA_CODES, _ => 0), seq(OFFSET_SLOTS, _ => 0), [])
  {
  }

  lemma CountLiteral(lit: seq<nat>, extra: seq<nat>, off: seq<nat>, ts: seq<nat>, t: nat)
    requires Counted(lit, extra, off, ts) && t < 256
    ensures lit[t] <= |ts| && Counted(lit[t := lit[t] + 1], extra, off, ts + [t])
  {
    hide SymbolCount, OffsetCount;
    forall s ensures SymbolCount(ts + [t], s) == SymbolCount(ts, s) + if t == s then 1 else 0 {
      SymbolCountStep(ts, t, s);
    }
    forall c ensures OffsetCount(ts + [t], c) == OffsetCount(ts, c) { OffsetCountStep(ts, t, c); }
  }

  lemma CountEnd(lit: seq<nat>, extra: seq<nat>, off: seq<nat>, ts: seq<nat>)
    requires Counted(lit, extra, off, ts)
    ensures extra[0] <= |ts| && Counted(lit, extra[0 := extra[0] + 1], off, ts + [EOB_TOKEN])
  {
    hide SymbolCount, OffsetCount;
    var t := EOB_TOKEN;
    forall s ensures SymbolCount(ts + [t], s) == SymbolCount(ts, s) + if t == s then 1 else 0 {
      SymbolCountStep(ts, t, s);
    }
    forall c ensures OffsetCount(ts + [t], c) == OffsetCount(ts, c) { OffsetCountStep(ts, t, c); }
  }

  lemma CountMatch(lit: seq<nat>, extra: seq<nat>, off: seq<nat>, ts: seq<nat>, xl: nat, xo: nat)
    requires Counted(lit, extra, off, ts) && xl < 256 && xo < 0x8000
    ensures var t, c, o := MatchToken(xl, xo), LengthCode(xl) + 1, OffsetCode(xo);
      && extra[c] <= |ts| && off[o] <= |ts|
      && Counted(lit, extra[c := extra[c] + 1], off[o := off[o] + 1], ts + [t])
  {
    hide SymbolCount, OffsetCount, LengthCode, OffsetCode, MatchToken, TokLength, TokOffset;
    var t, c, o := MatchToken(xl, xo), LengthCode(xl) + 1, OffsetCode(xo);
    MatchFields(xl, xo);
    forall s ensures SymbolCount(ts + [t], s) == SymbolCount(ts, s) + if 256 + c == s then 1 else 0 {
      SymbolCountStep(ts, t, s);
    }
    forall k ensures OffsetCount(ts + [t], k) == OffsetCount(ts, k) + if o == k then 1 else 0 {
      OffsetCountStep(ts, t, k);
    }
  }

  // ---------------------------------------------------------------------------------------------
  // Splitting a long match.
  // ---------------------------------------------------------------------------------------------

  /** The next piece: never so long that fewer than three bytes remain. */
  function Piece(x: nat): nat {
    if x <= 258 then x else if x > 258 + MIN_MATCH then 258 else 258 - MIN_MATCH
  }

  function LongTokens(x: nat, xoffset: nat): (ts: seq<nat>)
    requires (x == 0 || x >= MIN_MATCH) && xoffset < 0x8000
    ensures |ts| <= x
  {
    if x == 0 then [] else [MatchToken(Piece(x) - MIN_MATCH, xoffset)] + LongTokens(x - Piece(x), xoffset)
  }

  lemma {:induction false} LongAreTokens(x: nat, xoffset: nat)
    requires (x == 0 || x >= MIN_MATCH) && xoffset < 0x8000
    ensures AllTokens(LongTokens(x, xoffset))
  {
    if x > 0 {
      LongAreTokens(x - Piece(x), xoffset);
      assert IsMatch(MatchToken(Piece(x) - MIN_MATCH, xoffset));
    }
  }

  /** The pieces, each 3 to 258 long, together copy what one long match copies. */
  lemma {:induction false} LongExpands(h: seq<byte>, x: nat, xoffset: nat)
    requires (x == 0 || x >= MIN_MATCH) && xoffset < 0x8000 && xoffset < |h|
    ensures AllValid(h, Items(LongTokens(x, xoffset)))
    ensures Expand(h, Items(LongTokens(x, xoffset))) == Extend(h, x, xoffset + 1)
    decreases x
  {
    hide MatchToken, Extend;
    var ts := LongTokens(x, xoffset);
    ExtendNone(h, xoffset + 1);
    if x > 0 {
      var p := Piece(x);
      MatchItem(p - MIN_MATCH, xoffset);
      assert ts[1..] == LongTokens(x - p, xoffset);
      var h' := Extend(h, p, xoffset + 1);
      LongExpands(h', x - p, xoffset);
      ExtendSplit(h, p, x - p, xoffset + 1);
    }
  }

  lemma ExtendNone(h: seq<byte>, dist: nat)
    requires 1 <= dist <= |h|
    ensures Extend(h, 0, dist) == h
  {
  }

  lemma TokenListOf(ts: seq<nat>, t: nat)
    requires AllTokens(ts) && (ValidToken(t) || t == EOB_TOKEN)
    ensures TokenList(ts + [t]) && (ValidToken(t) ==> AllTokens(ts + [t]))
  {
    assert (ts + [t])[..|ts|] == ts;
  }

  lemma SumStep(v: seq<nat>, k: nat)
    requires k < |v|
    ensures Sum(v[k := v[k] + 1]) == Sum(v) + 1
  {
    SumZero(v, k);
    SumZero(v[k := v[k] + 1], k);
    assert v[k := v[k] + 1][k := 0] == v[k := 0];
  }

  lemma {:induction false} SumNone(n: nat)
    ensures Sum(seq(n, _ => 0)) == 0
  {
    var z: seq<nat> := seq(n, _ => 0);
    if n > 0 {
      assert z[1..] == seq(n - 1, _ => 0);
      SumNone(n - 1);
    }
  }

  class Buffer {
    const tokens: array<nat>
    var n: nat
    const litHist: array<nat>
    const extraHist: array<nat>
    const offHist: array<nat>

    predicate Sized() {
      && litHist.Length == 256 && extraHist.Length == EXTRA_CODES && offHist.Length == OFFSET_SLOTS
      && tokens != litHist && tokens != extraHist && tokens != offHist
      && litHist != extraHist && litHist != offHist && extraHist != offHist && tokens.Length <= MAX_BLOCK + 1
    }

    ghost predicate Valid()
      reads this, Repr()
    {
      && Sized() && n <= tokens.Length && n <= MAX_BLOCK && TokenList(Slice()) && Tallied(Slice())
    }

    /** The histograms count these tokens. */
    ghost predicate Tallied(ts: seq<nat>)
      reads litHist, extraHist, offHist
    {
      && Counted(litHist[..], extraHist[..], offHist[..], ts)
      && Sum(litHist[..]) + Sum(extraHist[..]) == |ts| && Sum(offHist[..]) <= |ts|
    }

    function Repr(): set<object> {
      {tokens, litHist, extraHist, offHist}
    }

    function Slice(): seq<nat>
      requires n <= tokens.Length
      reads this, tokens
    {
      tokens[..n]
    }

    constructor (size: nat)
      requires 0 < size <= MAX_BLOCK
      ensures Valid() && fresh(Repr()) && Slice() == [] && tokens.Length == size + 1
      ensures forall k :: 0 <= k < tokens.Length ==> tokens[k] == 0
    {
      tokens := new nat[size + 1](_ => 0);
      litHist := new nat[256](_ => 0);
      extraHist := new nat[EXTRA_CODES](_ => 0);
      offHist := new nat[OFFSET_SLOTS](_ => 0);
      n := 0;
      new;
      CountNone();
      SumNone(256);
      SumNone(32);
      assert litHist[..] == seq(256, _ => 0) && extraHist[..] == seq(32, _ => 0) && offHist[..] == seq(32, _ => 0);
    }

    lemma Sizes()
      requires Valid()
      ensures Sized() && n <= tokens.Length && TokenList(Slice())
    {
    }

    lemma Counts()
      requires Valid()
      ensures n <= MAX_BLOCK && Tallied(Slice())
    {
    }

    /** Empties the buffer, whatever n was set to. */
    method Reset()
      requires Sized() && (n == 0 ==> Valid())
      modifies this`n, litHist, extraHist, offHist
      ensures Valid() && Slice() == [] && n == 0
    {
      hide Counted, Sum;
      if n == 0 {
        return;
      }
      n := 0;
      for i := 0 to 256
        invariant n == 0 && forall k :: 0 <= k < i ==> litHist[k] == 0
      {
        litHist[i] := 0;
      }
      for i := 0 to EXTRA_CODES
        invariant n == 0 && litHist[..] == seq(256, _ => 0)
        invariant forall k :: 0 <= k < i ==> extraHist[k] == 0
      {
        extraHist[i] := 0;
      }
      for i := 0 to OFFSET_SLOTS
        invariant n == 0 && litHist[..] == seq(256, _ => 0) && extraHist[..] == seq(32, _ => 0)
        invariant forall k :: 0 <= k < i ==> offHist[k] == 0
      {
        offHist[i] := 0;
      }
      assert offHist[..] == seq(32, _ => 0) && extraHist[..] == seq(32, _ => 0) && litHist[..] == seq(256, _ => 0);
      CountNone();
      SumNone(256);
      SumNone(32);
      assert Counted(litHist[..], extraHist[..], offHist[..], []);
      assert Slice() == [];
    }

    method AddLiteral(lit: byte)
      requires Valid() && AllTokens(Slice()) && n < MAX_BLOCK && n < tokens.Length
      modifies this`n, Repr()
      ensures Valid() && Slice() == old(Slice()) + [lit] && AllTokens(Slice())
    {
      hide Counted, Sum;
      ghost var ts, l, e, o := Slice(), litHist[..], extraHist[..], offHist[..];
      CountLiteral(l, e, o, ts, lit);
      SumStep(l, lit);
      TokenListOf(ts, lit);
      tokens[n] := lit;
      litHist[lit] := U16(litHist[lit] + 1);
      n := U16(n + 1);
      assert Slice() == ts + [lit as nat] && litHist[..] == l[lit := l[lit] + 1];
      assert extraHist[..] == e && offHist[..] == o;
    }

    method AddMatch(xlength: nat, xoffset: nat)
      requires Valid() && AllTokens(Slice()) && n < MAX_BLOCK && n < tokens.Length
      requires xlength < 256 && xoffset < 0x8000
      modifies this`n, Repr()
      ensures Valid() && Slice() == old(Slice()) + [MatchToken(xlength, xoffset)] && AllTokens(Slice())
    {
      hide Counted, Sum, LengthCode, OffsetCode, MatchToken;
      ghost var ts, l, e, o := Slice(), litHist[..], extraHist[..], offHist[..];
      var t := MatchToken(xlength, xoffset);
      var c, oc := LengthCode(xlength) + 1, OffsetCode(xoffset);
      CountMatch(l, e, o, ts, xlength, xoffset);
      SumStep(e, c);
      SumStep(o, oc);
      assert IsMatch(t);
      TokenListOf(ts, t);
      extraHist[c] := U16(extraHist[c] + 1);
      offHist[oc] := U16(offHist[oc] + 1);
      tokens[n] := t;
      n := U16(n + 1);
      assert Slice() == ts + [t] && extraHist[..] == e[c := e[c] + 1] && offHist[..] == o[oc := o[oc] + 1];
      assert litHist[..] == l;
    }

    /** A match of any length from 3 on, in as many tokens as needed. */
    method AddMatchLong(xlength: nat, xoffset: nat)
      requires Valid() && AllTokens(Slice()) && xlength >= MIN_MATCH && xoffset < 0x8000
      requires n + |LongTokens(xlength, xoffset)| <= MAX_BLOCK && n + |LongTokens(xlength, xoffset)| <= tokens.Length
      modifies this`n, Repr()
      ensures Valid() && Slice() == old(Slice()) + LongTokens(xlength, xoffset) && AllTokens(Slice())
    {
      hide Counted, Sum, LengthCode, OffsetCode, MatchToken;
      var left := xlength;
      while left > 0
        invariant left == 0 || left >= MIN_MATCH
        invariant Valid() && AllTokens(Slice())
        invariant n + |LongTokens(left, xoffset)| <= MAX_BLOCK && n + |LongTokens(left, xoffset)| <= tokens.Length
        invariant Slice() + LongTokens(left, xoffset) == old(Slice()) + LongTokens(xlength, xoffset)
        decreases left
      {
        ghost var ts := Slice();
        var xl := left;
        if xl > 258 {
          if xl > 258 + MIN_MATCH {
            xl := 258;
          } else {
            xl := 258 - MIN_MATCH;
          }
        }
        ghost var rest := LongTokens(left - xl, xoffset);
        left := left - xl;
        xl := xl - MIN_MATCH;
        AddMatch(xl, xoffset);
        assert ts + ([MatchToken(xl, xoffset)] + rest) == Slice() + rest;
      }
      assert Slice() + [] == Slice();
    }

    method AddEOB()
      requires Valid() && AllTokens(Slice()) && n < MAX_BLOCK && n < tokens.Length
      modifies this`n, Repr()
      ensures Valid() && Slice() == old(Slice()) + [EOB_TOKEN]
    {
      hide Counted, Sum;
      ghost var ts, l, e, o := Slice(), litHist[..], extraHist[..], offHist[..];
      CountEnd(l, e, o, ts);
      SumStep(e, 0);
      TokenListOf(ts, EOB_TOKEN);
      tokens[n] := EOB_TOKEN;
      extraHist[0] := U16(extraHist[0] + 1);
      n := U16(n + 1);
      assert Slice() == ts + [EOB_TOKEN] && extraHist[..] == e[0 := e[0] + 1];
      assert litHist[..] == l && offHist[..] == o;
    }
  }

  /** A match token is made of the fields read from it. */
  lemma MatchAgain(t: nat)
    requires IsMatch(t)
    ensures TokOffset(t) % OFFSET_UNIT < 0x8000 && MatchToken(TokLength(t), TokOffset(t) % OFFSET_UNIT) == t
  {
    var xl, xo :| 0 <= xl < 256 && 0 <= xo < 0x8000 && t == MatchToken(xl, xo);
    MatchFields(xl, xo);
  }

  /** A buffer filled with these tokens. */
  method IndexTokens(ts: seq<nat>) returns (t: Buffer)
    requires AllTokens(ts) && |ts| <= MAX_BLOCK
    ensures fresh(t) && fresh(t.Repr()) && t.Valid() && t.Slice() == ts && t.n == |ts| &&
      t.tokens.Length == MAX_BLOCK + 1
  {
    hide Counted, Sum, MatchToken, TokLength, TokOffset;
    t := new Buffer(MAX_BLOCK);
    for i := 0 to |ts|
      invariant t.Valid() && fresh(t) && fresh(t.Repr()) && t.Slice() == ts[..i] && AllTokens(t.Slice()) && t.n == i
      invariant t.tokens.Length == MAX_BLOCK + 1
    {
      var tok := ts[i];
      assert ts[..i + 1] == ts[..i] + [tok];
      if tok < MATCH_TYPE {
        SmallToken(tok);
        t.AddLiteral(tok);
      } else {
        MatchAgain(tok);
        t.AddMatch(TokLength(tok), TokOffset(tok) % OFFSET_UNIT);
      }
    }
    assert ts[..|ts|] == ts;
  }

  lemma SmallToken(t: nat)
    requires ValidToken(t) && t < MATCH_TYPE
    ensures t < 256
  {
  }

  /** Literal tokens for a string. */
  method EmitLiterals(dst: Buffer, lit: seq<byte>)
    requires dst.Valid() && AllTokens(dst.Slice())
    requires dst.n + |lit| <= MAX_BLOCK && dst.n + |lit| <= dst.tokens.Length
    modifies dst`n, dst.Repr()
    ensures dst.Valid() && dst.Slice() == old(dst.Slice()) + Plain(lit) && AllTokens(dst.Slice())
  {
    for i := 0 to |lit|
      invariant dst.Valid() && AllTokens(dst.Slice())
      invariant dst.Slice() == old(dst.Slice()) + Plain(lit[..i]) && dst.n == old(dst.n) + i
    {
      dst.AddLiteral(lit[i]);
      assert Plain(lit[..i + 1]) == Plain(lit[..i]) + [lit[i] as nat];
    }
    assert lit[..|lit|] == lit;
  }

  function Plain(s: seq<byte>): (ts: seq<nat>)
    ensures |ts| == |s|
  {
    seq(|s|, k requires 0 <= k < |s| => s[k] as nat)
  }

  lemma {:induction false} PlainItems(s: seq<byte>)
    ensures Items(Plain(s)) == Lits(s)
  {
    if s != [] {
      assert Plain(s)[1..] == Plain(s[1..]);
      PlainItems(s[1..]);
    }
  }
}
