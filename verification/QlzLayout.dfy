/**
 How a token sequence lies in the coded stream: a 32-bit control word in front of every group of
 31 tokens, one flag bit per token and a marker bit on top, and one, two or three bytes per token.
 */
module QlzLayout {
  import opened Bytes
  import opened QlzTokens

  const GROUP: nat := 31
  const CWORD_LEN: nat := 4

  // ----- Sizes and offsets -----

  function Size(t: Token): (n: nat)
    ensures 1 <= n <= 3
  {
    if t.Literal? then 1 else if t.len < 18 then 2 else 3
  }

  /** Bytes taken by the first k tokens, control words not counted. */
  function Sizes(toks: seq<Token>, k: nat): (n: nat)
    requires k <= |toks|
    ensures k <= n <= 3 * k
  {
    if k == 0 then 0 else Sizes(toks, k - 1) + Size(toks[k - 1])
  }

  /** Control words opened for k tokens; the first is opened before any token. */
  function Words(k: nat): nat { if k == 0 then 1 else (k - 1) / GROUP + 1 }

  /** Bytes used once k tokens are out. */
  function Used(toks: seq<Token>, k: nat): nat
    requires k <= |toks|
  {
    CWORD_LEN * Words(k) + Sizes(toks, k)
  }

  /** Where token k lies. */
  function TokenOff(toks: seq<Token>, k: nat): nat
    requires k <= |toks|
  {
    CWORD_LEN * (k / GROUP + 1) + Sizes(toks, k)
  }

  /** Where the control word of group g lies. */
  function WordOff(toks: seq<Token>, g: nat): nat
    requires GROUP * g <= |toks|
  {
    CWORD_LEN * g + Sizes(toks, GROUP * g)
  }

  predicate IsMatch(toks: seq<Token>, k: nat) { k < |toks| && toks[k].Match? }

  /** The control word of group g, bit by bit: flags in token order, then the marker. */
  function FlagBits(toks: seq<Token>, g: nat): (bits: seq<bool>)
    ensures |bits| == 32 && bits[31]
    ensures forall i :: 0 <= i < GROUP ==> bits[i] == IsMatch(toks, GROUP * g + i)
  {
    seq(GROUP, i requires 0 <= i => IsMatch(toks, GROUP * g + i)) + [true]
  }

  // ----- The stream -----

  predicate TokenLaid(b: seq<byte>, off: nat, t: Token)
  {
    && off + Size(t) <= |b|
    && match t
       case Literal(_, v) => b[off] == v
       case Match(_, h, n) =>
         && b[off] as int + 0x100 * (b[off + 1] as int) == 16 * h + (if n < 18 then n - 2 else 0)
         && (n >= 18 ==> b[off + 2] == n)
  }

  predicate WordLaid(b: seq<byte>, base: nat, toks: seq<Token>, g: nat)
    requires GROUP * g <= |toks|
  {
    && base + WordOff(toks, g) + CWORD_LEN <= |b|
    && Le32(b, base + WordOff(toks, g)) == Num(FlagBits(toks, g))
  }

  predicate TokensLaid(b: seq<byte>, base: nat, toks: seq<Token>)
  {
    forall k {:trigger TokenOff(toks, k)} :: 0 <= k < |toks| ==> TokenLaid(b, base + TokenOff(toks, k), toks[k])
  }

  predicate WordsLaid(b: seq<byte>, base: nat, toks: seq<Token>, n: nat)
    requires n > 0 ==> GROUP * (n - 1) <= |toks|
  {
    forall g :: 0 <= g < n ==> WordLaid(b, base, toks, g)
  }

  /** b[base..] is the coded form of toks. */
  predicate Coded(b: seq<byte>, base: nat, toks: seq<Token>)
  {
    TokensLaid(b, base, toks) && WordsLaid(b, base, toks, Words(|toks|))
  }

  lemma {:induction false} SizesPrefix(toks: seq<Token>, t: Token, k: nat)
    requires k <= |toks|
    ensures Sizes(toks + [t], k) == Sizes(toks, k)
  {
    if k > 0 { SizesPrefix(toks, t, k - 1); }
  }

  lemma {:induction false} SizesMonotone(toks: seq<Token>, j: nat, k: nat)
    requires j <= k <= |toks|
    ensures Sizes(toks, j) + (k - j) <= Sizes(toks, k) <= Sizes(toks, j) + 3 * (k - j)
  {
    if j < k { SizesMonotone(toks, j, k - 1); }
  }

  lemma {:induction false} SizesStep(toks: seq<Token>, k: nat)
    requires k < |toks|
    ensures Sizes(toks, k + 1) == Sizes(toks, k) + Size(toks[k])
  {
  }

  /** A finished group's control word does not depend on later tokens. */
  lemma {:induction false} FlagBitsPrefix(toks: seq<Token>, t: Token, g: nat)
    requires GROUP * (g + 1) <= |toks|
    ensures FlagBits(toks + [t], g) == FlagBits(toks, g)
  {
  }

  /** Earlier tokens and finished words lie wholly inside the bytes used. */
  lemma {:induction false} LaidInside(toks: seq<Token>, k: nat)
    requires k < |toks|
    ensures TokenOff(toks, k) + Size(toks[k]) <= Used(toks, |toks|)
    ensures Used(toks, k + 1) == TokenOff(toks, k) + Size(toks[k])
    ensures WordOff(toks, k / GROUP) + CWORD_LEN <= TokenOff(toks, k)
  {
    SizesMonotone(toks, k + 1, |toks|);
    SizesMonotone(toks, GROUP * (k / GROUP), k);
  }

  /** Writing past the bytes used changes nothing laid so far. */
  lemma {:induction false} LaidFrame(b: seq<byte>, c: seq<byte>, base: nat, toks: seq<Token>, n: nat)
    requires |b| == |c| && n <= |toks| / GROUP
    requires TokensLaid(b, base, toks) && WordsLaid(b, base, toks, n)
    requires forall i :: base <= i < base + Used(toks, |toks|) && i < |b| ==> c[i] == b[i]
    ensures TokensLaid(c, base, toks) && WordsLaid(c, base, toks, n)
  {
    forall k {:trigger TokenOff(toks, k)} | 0 <= k < |toks|
      ensures TokenLaid(c, base + TokenOff(toks, k), toks[k])
    {
      LaidInside(toks, k);
      assert TokenLaid(b, base + TokenOff(toks, k), toks[k]);
    }
    forall g | 0 <= g < n ensures WordLaid(c, base, toks, g) {
      assert WordLaid(b, base, toks, g);
      LaidInside(toks, GROUP * g);
    }
  }

  /** Tokens and control words do not overlap. */
  lemma {:induction false} TokenBesideWord(toks: seq<Token>, k: nat, g: nat)
    requires k < |toks| && GROUP * g <= |toks|
    ensures TokenOff(toks, k) + Size(toks[k]) <= WordOff(toks, g) || WordOff(toks, g) + CWORD_LEN <= TokenOff(toks, k)
  {
    hide Sizes;
    if k < GROUP * g {
      assert k / GROUP + 1 <= g;
      SizesMonotone(toks, k + 1, GROUP * g);
      SizesStep(toks, k);
    } else {
      assert g <= k / GROUP;
      SizesMonotone(toks, GROUP * g, k);
    }
  }

  lemma {:induction false} WordBesideWord(toks: seq<Token>, f: nat, g: nat)
    requires f < g && GROUP * g <= |toks|
    ensures WordOff(toks, f) + CWORD_LEN <= WordOff(toks, g)
  {
    SizesMonotone(toks, GROUP * f, GROUP * g);
  }

  /** Writing the control word of the group in progress keeps the tokens and the earlier words. */
  lemma {:induction false} WordFrame(b: seq<byte>, c: seq<byte>, base: nat, toks: seq<Token>, n: nat)
    requires |b| == |c| && GROUP * n <= |toks|
    requires TokensLaid(b, base, toks) && WordsLaid(b, base, toks, n)
    requires WordLaid(c, base, toks, n)
    requires forall i :: 0 <= i < |b| && !(base + WordOff(toks, n) <= i < base + WordOff(toks, n) + CWORD_LEN) ==>
      c[i] == b[i]
    ensures TokensLaid(c, base, toks) && WordsLaid(c, base, toks, n + 1)
  {
    hide FlagBits, Num, TokenOff, WordOff;
    forall k {:trigger TokenOff(toks, k)} | 0 <= k < |toks|
      ensures TokenLaid(c, base + TokenOff(toks, k), toks[k])
    {
      assert TokenLaid(b, base + TokenOff(toks, k), toks[k]);
      TokenBesideWord(toks, k, n);
    }
    forall g | 0 <= g < n + 1 ensures WordLaid(c, base, toks, g) {
      if g < n {
        assert WordLaid(b, base, toks, g);
        WordBesideWord(toks, g, n);
      }
    }
  }

  /** Appending a token that has been written at the end of the bytes used. */
  lemma {:induction false} LaidSnoc(b: seq<byte>, base: nat, toks: seq<Token>, t: Token, n: nat)
    requires TokensLaid(b, base, toks) && n <= |toks| / GROUP && WordsLaid(b, base, toks, n)
    requires TokenLaid(b, base + TokenOff(toks, |toks|), t)
    ensures TokensLaid(b, base, toks + [t]) && WordsLaid(b, base, toks + [t], n)
  {
    var more := toks + [t];
    forall k {:trigger TokenOff(more, k)} | 0 <= k < |more|
      ensures TokenLaid(b, base + TokenOff(more, k), more[k])
    {
      SizesPrefix(toks, t, k);
      assert k < |toks| ==> TokenLaid(b, base + TokenOff(toks, k), toks[k]);
    }
    forall g | 0 <= g < n ensures WordLaid(b, base, more, g) {
      assert WordLaid(b, base, toks, g);
      SizesPrefix(toks, t, GROUP * g);
      FlagBitsPrefix(toks, t, g);
    }
  }
}
