/** When the compressor gives up, and why a stream it does finish never outgrows its buffer. */
module QlzBound {
  import opened Bytes
  import opened QlzTokens
  import opened QlzLayout

  /**
   The test made each time a control word fills up while matches are still allowed: past the
   middle of the input, the output must be at least one 32nd smaller than the input read.
   */
  predicate GivesUp(x: seq<byte>, toks: seq<Token>)
  {
    && |toks| > 0 && |toks| % GROUP == 0
    && End(toks) + 11 <= |x|
    && End(toks) > |x| / 2
    && Used(toks, |toks|) > End(toks) - End(toks) / 32
  }

  /** No test made before the last token failed. */
  predicate NeverGaveUp(x: seq<byte>, toks: seq<Token>)
  {
    forall k :: 0 <= k < |toks| ==> !GivesUp(x, toks[..k])
  }

  lemma {:induction false} NeverGaveUpSnoc(x: seq<byte>, toks: seq<Token>, t: Token)
    requires NeverGaveUp(x, toks) && !GivesUp(x, toks)
    ensures NeverGaveUp(x, toks + [t])
  {
    var more := toks + [t];
    forall k | 0 <= k < |more| ensures !GivesUp(x, more[..k]) {
      assert more[..k] == toks[..k];
      assert toks[..|toks|] == toks;
    }
  }

  lemma {:induction false} SizesOfPrefix(toks: seq<Token>, k: nat, j: nat)
    requires j <= k <= |toks|
    ensures Sizes(toks[..k], j) == Sizes(toks, j)
  {
    if j > 0 { SizesOfPrefix(toks, k, j - 1); }
  }

  /** Coding tokens j..k costs at most the input they cover, and they cover at least a byte each. */
  lemma {:induction false} CostOfTokens(x: seq<byte>, toks: seq<Token>, j: nat, k: nat)
    requires Greedy(x, toks) && j <= k <= |toks|
    ensures Sizes(toks, k) - Sizes(toks, j) <= End(toks[..k]) - End(toks[..j])
    ensures k - j <= End(toks[..k]) - End(toks[..j])
    ensures End(toks[..k]) <= |x|
  {
    hide Next;
    if j < k {
      CostOfTokens(x, toks, j, k - 1);
      GreedyAt(x, toks, k - 1);
    } else if k > 0 {
      GreedyAt(x, toks, k - 1);
    }
  }

  /** The tokens chosen while matches are still allowed come first; at most ten literals follow. */
  lemma {:induction false} MainTokens(x: seq<byte>, toks: seq<Token>) returns (c: nat)
    requires Greedy(x, toks)
    ensures c <= |toks| <= c + 10
    ensures c > 0 ==> toks[c - 1].at + 11 <= |x|
    ensures c < |toks| ==> toks[c].at + 11 > |x|
    ensures c < |toks| ==> |toks| - c <= End(toks) - (|x| - 10)
  {
    hide Next;
    if toks == [] || toks[|toks| - 1].at + 11 <= |x| {
      c := |toks|;
    } else {
      c := MainTokens(x, toks[..|toks| - 1]);
      assert End(toks[..|toks| - 1]) < |x|;
    }
  }

  /** Some full control word was passed at most 41 tokens ago, and its test did not fail. */
  lemma {:induction false} LastTest(x: seq<byte>, toks: seq<Token>) returns (b: nat)
    requires Greedy(x, toks) && NeverGaveUp(x, toks)
    ensures b <= |toks| <= b + 41 && b % GROUP == 0
    ensures b > 0 ==> End(toks[..b]) <= |x| / 2 || Used(toks, b) <= End(toks[..b])
  {
    hide Next, Greedy, Sizes;
    var c := MainTokens(x, toks);
    if c <= GROUP {
      b := 0;
    } else {
      b := GROUP * ((c - 1) / GROUP);
      GreedyAt(x, toks, b);
      AtMonotone(x, toks, b, c - 1);
      assert !GivesUp(x, toks[..b]);
      SizesOfPrefix(toks, b, b);
    }
  }

  lemma {:induction false} AtMonotone(x: seq<byte>, toks: seq<Token>, j: nat, k: nat)
    requires Greedy(x, toks) && j <= k < |toks|
    ensures toks[j].at <= toks[k].at
  {
    hide Next, Greedy;
    CostOfTokens(x, toks, j, k);
    GreedyAt(x, toks, j);
    GreedyAt(x, toks, k);
  }

  /**
   Expansion bound, at every moment of a run that has not given up: at most 135 bytes more than
   the whole input, and for inputs under 216 bytes few enough for a one-byte length field.
   */
  lemma {:induction false} UsedBound(x: seq<byte>, toks: seq<Token>)
    requires Greedy(x, toks) && NeverGaveUp(x, toks)
    ensures Used(toks, |toks|) <= |x| + 135
    ensures |x| < 216 ==> Used(toks, |toks|) <= |x| + 20
  {
    hide Next, Greedy, Sizes;
    var b := LastTest(x, toks);
    CostOfTokens(x, toks, 0, b);
    CostOfTokens(x, toks, b, |toks|);
    SizesMonotone(toks, b, |toks|);
    SizesMonotone(toks, 0, b);
    assert toks[..0] == [] && toks[..|toks|] == toks;
    assert Sizes(toks, 0) <= 0;
  }
}
