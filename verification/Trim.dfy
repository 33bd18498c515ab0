/** Leaving off symbols without a code at the end of the alphabet does not change the code. */
module Trim {
  import opened Words
  import opened Canon

  /** The first m lengths are all there are. */
  predicate Trims(lens: seq<nat>, m: nat) {
    m <= |lens| && forall s :: m <= s < |lens| ==> lens[s] == 0
  }

  lemma {:induction false} TrimCountTo(lens: seq<nat>, m: nat, l: nat, k: nat)
    requires k <= m <= |lens|
    ensures CountTo(lens[..m], l, k) == CountTo(lens, l, k)
  {
    if k > 0 { TrimCountTo(lens, m, l, k - 1); }
  }

  lemma {:induction false} CountTail(lens: seq<nat>, m: nat, l: nat, k: nat)
    requires Trims(lens, m) && m <= k <= |lens| && l >= 1
    ensures CountTo(lens, l, k) == CountTo(lens, l, m)
  {
    if k > m { CountTail(lens, m, l, k - 1); }
  }

  lemma TrimCount(lens: seq<nat>, m: nat, l: nat)
    requires Trims(lens, m) && l >= 1
    ensures Count(lens[..m], l) == Count(lens, l)
  {
    TrimCountTo(lens, m, l, m);
    CountTail(lens, m, l, |lens|);
  }

  lemma {:induction false} TrimKraft(lens: seq<nat>, m: nat, l: nat)
    requires Trims(lens, m) && 1 <= l <= MAX_BITS + 1
    ensures KraftBelow(lens[..m], l) == KraftBelow(lens, l)
  {
    hide Count, Share;
    if l > 1 {
      TrimKraft(lens, m, l - 1);
      TrimCount(lens, m, l - 1);
    }
  }

  lemma {:induction false} TrimFirst(lens: seq<nat>, m: nat, l: nat)
    requires Trims(lens, m) && l >= 1
    ensures FirstCode(lens[..m], l) == FirstCode(lens, l)
  {
    hide Count;
    if l > 1 {
      TrimFirst(lens, m, l - 1);
      TrimCount(lens, m, l - 1);
    }
  }

  /** The codes stay the same. */
  lemma TrimCode(lens: seq<nat>, m: nat, s: nat)
    requires Trims(lens, m) && s < m
    ensures CanonHCode(lens[..m], s) == CanonHCode(lens, s)
    ensures Used(lens, s) ==> CodeOf(lens[..m], s) == CodeOf(lens, s)
  {
    hide FirstCode, CountTo, Reverse, HCode;
    if lens[s] > 0 {
      TrimFirst(lens, m, lens[s]);
      TrimCountTo(lens, m, lens[s], s);
    }
  }

  lemma TrimCanon(lens: seq<nat>, m: nat, codes: seq<nat>)
    requires Trims(lens, m) && CanonCodes(lens, codes)
    ensures CanonCodes(lens[..m], codes)
  {
    hide CanonHCode;
    forall s | 0 <= s < m ensures codes[s] == CanonHCode(lens[..m], s) { TrimCode(lens, m, s); }
  }

  /** So does what the decoder accepts. */
  lemma TrimAccepted(lens: seq<nat>, m: nat)
    requires Trims(lens, m)
    ensures Fits(lens) ==> Fits(lens[..m])
    ensures Complete(lens) ==> Complete(lens[..m])
    ensures Single(lens) ==> Single(lens[..m])
  {
    hide KraftBelow, CountTo;
    TrimKraft(lens, m, MAX_BITS + 1);
    TrimCount(lens, m, 1);
  }
}
