/**
 The parse QuickLZ level 1 chooses for an input, as a sequence of tokens, and why a decompressor
 that rebuilds the hash table late and incompletely still finds the bytes every match refers to.
 Positions are offsets from the start of the input; no table, cache or buffer appears here.
 */
module QlzTokens {
  import opened Bytes

  const HASH_VALUES: nat := 4096
  const MINOFFSET: nat := 2
  const UNCONDITIONAL_MATCHLEN: nat := 6
  const UNCOMPRESSED_END: nat := 4

  datatype Token =
    | Literal(at: nat, value: byte)
    | Match(at: nat, hash: nat, len: nat)
  {
    function Span(): nat { if Literal? then 1 else len }
  }

  // ----- Hashing -----

  function HashFunc(fetch: uint32): (h: nat)
    ensures h < HASH_VALUES
  {
    Xor(fetch / 4096, fetch) % 4096
  }

  /** The bucket of the three bytes at p; where three bytes do not remain, a value no bucket has. */
  function HashAt(x: seq<byte>, p: nat): (h: nat)
    ensures p + 3 <= |x| <==> h < HASH_VALUES
  {
    if p + 3 <= |x| then
      var b0: int, b1: int, b2: int := x[p], x[p + 1], x[p + 2];
      HashFunc(b0 + 0x100 * b1 + 0x1_0000 * b2)
    else HASH_VALUES
  }

  /** A 4-byte load hashes like the three bytes it is meant to hash: the fourth byte never matters. */
  lemma {:induction false} HashIgnoresFourthByte(x: seq<byte>, p: nat)
    requires p + 4 <= |x|
    ensures HashFunc(Le32(x, p)) == HashAt(x, p)
  {
    hide HashFunc;
    var b0: int, b1: int, b2: int, b3: int := x[p], x[p + 1], x[p + 2], x[p + 3];
    HashLowBytes(b0 + 0x100 * b1 + 0x1_0000 * b2, b3);
  }

  lemma {:induction false} HashLowBytes(low: uint32, top: int)
    requires low < 0x100_0000 && 0 <= top < 0x100
    ensures HashFunc(low + 0x100_0000 * top) == HashFunc(low)
  {
    hide HashFunc, Xor;
    HashLow(low + 0x100_0000 * top);
    HashLow(low);
    var high, rest := low / 4096, low % 4096;
    assert low + 0x100_0000 * top == 4096 * (high + 4096 * top) + rest;
    assert (low + 0x100_0000 * top) / 4096 == high + 4096 * top;
    assert (low + 0x100_0000 * top) % 4096 == rest;
    assert (high + 4096 * top) % 4096 == high;
  }

  lemma {:induction false} HashLow(w: uint32)
    ensures HashFunc(w) == Xor(w / 4096 % 4096, w % 4096)
  {
    Pow2Values();
    XorLowBits(w / 4096, w, 12);
  }

  /** The hash mixes the three bytes nibble by nibble. */
  lemma {:induction false} HashNibbles(x: seq<byte>, p: nat)
    requires p + 3 <= |x|
    ensures HashAt(x, p) == Xor(x[p + 1] / 16 + 16 * x[p + 2] as int, x[p] + 0x100 * (x[p + 1] % 16) as int)
  {
    hide HashFunc, Xor;
    var b0: int, b1: int, b2: int := x[p], x[p + 1], x[p + 2];
    var w := b0 + 0x100 * b1 + 0x1_0000 * b2;
    HashLow(w);
    var high, low := b1 / 16 + 16 * b2, b0 + 0x100 * (b1 % 16);
    assert w == 4096 * high + low && 0 <= low < 4096 && 0 <= high < 4096;
    assert w / 4096 == high && w % 4096 == low;
  }

  // ----- The greedy parse -----

  /** Where the next token starts. */
  function End(toks: seq<Token>): nat
  {
    if toks == [] then 0 else toks[|toks| - 1].at + toks[|toks| - 1].Span()
  }

  function TrailingLiterals(toks: seq<Token>): (n: nat)
    ensures n <= |toks|
  {
    if toks == [] || toks[|toks| - 1].Match? then 0 else 1 + TrailingLiterals(toks[..|toks| - 1])
  }

  /** The latest token start whose three bytes fall in bucket h, or -1. */
  function LatestStart(x: seq<byte>, toks: seq<Token>, h: nat): int
  {
    if toks == [] then -1
    else if HashAt(x, toks[|toks| - 1].at) == h then toks[|toks| - 1].at
    else LatestStart(x, toks[..|toks| - 1], h)
  }

  predicate SameThree(x: seq<byte>, o: nat, p: nat)
    requires o + 3 <= |x| && p + 3 <= |x|
  {
    x[o] == x[p] && x[o + 1] == x[p + 1] && x[o + 2] == x[p + 2]
  }

  predicate IsRun(x: seq<byte>, p: nat, n: nat)
    requires p + n < |x|
  {
    forall i :: p <= i <= p + n ==> x[i] == x[p]
  }

  /** No match covers the last four bytes, and none is longer than one byte can say. */
  function LongestMatch(x: seq<byte>, p: nat): (n: nat)
    requires p + 11 <= |x|
    ensures 7 <= n <= 255 && p + n + UNCOMPRESSED_END <= |x|
  {
    if |x| - UNCOMPRESSED_END - p > 255 then 255 else |x| - UNCOMPRESSED_END - p
  }

  /** How far the bytes at o and p agree beyond the first n, up to the longest match allowed at p. */
  function Extend(x: seq<byte>, o: nat, p: nat, n: nat): (r: nat)
    requires o < p && p + 11 <= |x| && n <= LongestMatch(x, p)
    ensures n <= r <= LongestMatch(x, p)
    ensures forall i :: p + n <= i < p + r ==> x[i] == x[i - (p - o)]
    ensures r < LongestMatch(x, p) ==> x[o + r] != x[p + r]
    decreases LongestMatch(x, p) - n
  {
    if n < LongestMatch(x, p) && x[o + n] == x[p + n] then Extend(x, o, p, n + 1) else n
  }

  /** The extension is the only length up to which the bytes agree and at which they stop doing so. */
  lemma {:induction false} ExtendUnique(x: seq<byte>, o: nat, p: nat, m: nat, n: nat)
    requires o < p && p + 11 <= |x| && m <= n <= LongestMatch(x, p)
    requires forall i :: p + m <= i < p + n ==> x[i] == x[i - (p - o)]
    requires n == LongestMatch(x, p) || x[o + n] != x[p + n]
    ensures Extend(x, o, p, m) == n
  {
    hide Extend;
  }

  /** When the compressor takes the candidate o at the end of toks. */
  predicate Accepts(x: seq<byte>, toks: seq<Token>, o: int)
    requires End(toks) + 11 <= |x|
  {
    var p := End(toks);
    && 0 < o < p
    && SameThree(x, o, p)
    && (|| p - o > MINOFFSET
        || (o == p - 1 && TrailingLiterals(toks) >= 3 && p > 3 && IsRun(x, p - 3, 6)))
  }

  function Next(x: seq<byte>, toks: seq<Token>): (t: Token)
    requires End(toks) < |x|
    ensures t.at == End(toks)
    ensures t.Match? ==> t.hash < HASH_VALUES && 3 <= t.len <= 255 && t.at + t.len + UNCOMPRESSED_END <= |x|
    ensures t.Span() >= 1 && t.at + t.Span() <= |x|
  {
    var p := End(toks);
    if p + 11 <= |x| && Accepts(x, toks, LatestStart(x, toks, HashAt(x, p))) then
      var o := LatestStart(x, toks, HashAt(x, p));
      Match(p, HashAt(x, p), Extend(x, o, p, 3))
    else
      Literal(p, x[p])
  }

  /** toks is how the compressor parses a beginning of x. */
  predicate Greedy(x: seq<byte>, toks: seq<Token>)
  {
    toks == [] ||
    var init := toks[..|toks| - 1];
    && Greedy(x, init)
    && End(init) < |x|
    && toks[|toks| - 1] == Next(x, init)
  }

  /** Every input has exactly one parse. */
  lemma {:induction false} GreedyUnique(x: seq<byte>, a: seq<Token>, b: seq<Token>)
    requires Greedy(x, a) && Greedy(x, b) && |a| <= |b|
    ensures a == b[..|a|]
  {
    hide Next;
    if |a| == |b| && a != [] {
      GreedyUnique(x, a[..|a| - 1], b[..|b| - 1]);
      assert a == a[..|a| - 1] + [a[|a| - 1]];
      assert b[..|b| - 1][..|a| - 1] == b[..|b| - 1];
      assert b[..|a|] == b[..|b| - 1] + [b[|b| - 1]];
    } else if a != [] {
      GreedyUnique(x, a, b[..|b| - 1]);
      assert b[..|b| - 1][..|a|] == b[..|a|];
    }
  }

  lemma {:induction false} GreedyPrefix(x: seq<byte>, toks: seq<Token>, k: nat)
    requires Greedy(x, toks) && k <= |toks|
    ensures Greedy(x, toks[..k])
  {
    if k < |toks| {
      GreedyPrefix(x, toks[..|toks| - 1], k);
      assert toks[..|toks| - 1][..k] == toks[..k];
    } else {
      assert toks[..k] == toks;
    }
  }

  /** Token k of a parse is what the compressor chooses after the k tokens before it. */
  lemma {:induction false} GreedyAt(x: seq<byte>, toks: seq<Token>, k: nat)
    requires Greedy(x, toks) && k < |toks|
    ensures Greedy(x, toks[..k]) && End(toks[..k]) < |x| && toks[k] == Next(x, toks[..k])
    ensures toks[k].at == End(toks[..k]) && End(toks[..k + 1]) == toks[k].at + toks[k].Span()
  {
    hide Next;
    GreedyPrefix(x, toks, k + 1);
    assert toks[..k + 1][..k] == toks[..k];
  }

  lemma {:induction false} GreedySnoc(x: seq<byte>, toks: seq<Token>)
    requires Greedy(x, toks) && End(toks) < |x|
    ensures Greedy(x, toks + [Next(x, toks)])
  {
    assert (toks + [Next(x, toks)])[..|toks|] == toks;
  }

  // ----- The decompressor's lagging table -----

  /**
   How many tokens the decompressor has hashed when it stands after toks. A literal is hashed
   only once two more bytes are known, so the last two may still be missing.
   */
  function Hashed(toks: seq<Token>): (m: nat)
    ensures m <= |toks|
  {
    |toks| - if TrailingLiterals(toks) < 2 then TrailingLiterals(toks) else 2
  }

  /** The position the decompressor's table holds for bucket h. */
  function CopySource(x: seq<byte>, toks: seq<Token>, h: nat): int
  {
    LatestStart(x, toks[..Hashed(toks)], h)
  }

  /** A trailing literal is one byte long, so dropping it moves the end back by one. */
  lemma {:induction false} DropLiteral(x: seq<byte>, toks: seq<Token>)
    requires Greedy(x, toks) && TrailingLiterals(toks) > 0
    ensures var init := toks[..|toks| - 1];
      && Greedy(x, init) && End(init) + 1 == End(toks) && toks[|toks| - 1].at == End(init)
      && TrailingLiterals(init) == TrailingLiterals(toks) - 1
  {
  }

  /** The unhashed tokens are literals, so the hashed ones end that many bytes earlier. */
  lemma {:induction false} HashedEnd(x: seq<byte>, toks: seq<Token>)
    requires Greedy(x, toks)
    ensures Greedy(x, toks[..Hashed(toks)])
    ensures End(toks[..Hashed(toks)]) == End(toks) - (|toks| - Hashed(toks))
    ensures forall k :: Hashed(toks) <= k < |toks| ==> toks[k].Literal? && toks[k].at == End(toks) - (|toks| - k)
  {
    hide Next;
    GreedyPrefix(x, toks, Hashed(toks));
    if TrailingLiterals(toks) == 0 {
      assert toks[..|toks|] == toks;
    } else {
      DropLiteral(x, toks);
      var init := toks[..|toks| - 1];
      if TrailingLiterals(init) > 0 {
        DropLiteral(x, init);
        assert init[..|init| - 1] == toks[..|toks| - 2];
      }
    }
  }

  /**
   Table agreement. Where the compressor emits a match, the decompressor's table holds the very
   position the compressor matched when it lies more than two bytes back, and the start of the
   run when the match continues a run; it is at least three bytes back, and the bytes copied
   from it, overlapping or not, are the bytes of the input.
   */
  lemma {:induction false} TableAgreement(x: seq<byte>, toks: seq<Token>)
    requires Greedy(x, toks) && End(toks) < |x| && Next(x, toks).Match?
    ensures var t := Next(x, toks);
      var o, s := LatestStart(x, toks, t.hash), CopySource(x, toks, t.hash);
      && (s == o || (o == t.at - 1 && s == t.at - 3))
      && 0 < s && s + 3 <= t.at
      && forall i :: t.at <= i < t.at + t.len ==> x[i] == x[i - (t.at - s)]
  {
    MatchMeaning(x, toks);
    hide Next, HashAt, Greedy;
    var t := Next(x, toks);
    var o := LatestStart(x, toks, t.hash);
    if t.at - o > MINOFFSET {
      HashedEnd(x, toks);
      LatestBeforeLag(x, toks, t.hash, Hashed(toks));
    } else {
      RunSource(x, toks);
      RunContinues(x, t.at - 3, 2 + t.len);
    }
  }

  /** What the compressor has checked when it emits a match. */
  lemma {:induction false} MatchMeaning(x: seq<byte>, toks: seq<Token>)
    requires End(toks) < |x| && Next(x, toks).Match?
    ensures var t := Next(x, toks);
      var p, o := t.at, LatestStart(x, toks, t.hash);
      && p == End(toks) && p + 11 <= |x| && t.hash == HashAt(x, p) && Accepts(x, toks, o)
      && forall i :: p <= i < p + t.len ==> x[i] == x[i - (p - o)]
  {
    hide HashAt, LatestStart;
    var t := Next(x, toks);
    var p, o := t.at, LatestStart(x, toks, t.hash);
    assert x[p] == x[o] && x[p + 1] == x[o + 1] && x[p + 2] == x[o + 2];
  }

  /** Tokens that are not the latest start of their bucket can be dropped without losing it. */
  lemma {:induction false} LatestBeforeLag(x: seq<byte>, toks: seq<Token>, h: nat, m: nat)
    requires m <= |toks|
    requires forall k :: m <= k < |toks| ==> toks[k].at != LatestStart(x, toks, h)
    ensures LatestStart(x, toks[..m], h) == LatestStart(x, toks, h)
  {
    if m == |toks| {
      assert toks[..m] == toks;
    } else {
      var init := toks[..|toks| - 1];
      assert LatestStart(x, toks, h) == LatestStart(x, init, h);
      LatestBeforeLag(x, init, h, m);
      assert init[..m] == toks[..m];
    }
  }

  /** In a run after three literals the table is three bytes behind, and that position is in the same bucket. */
  lemma {:induction false} RunSource(x: seq<byte>, toks: seq<Token>)
    requires Greedy(x, toks) && End(toks) + 11 <= |x|
    requires TrailingLiterals(toks) >= 3 && 3 <= End(toks) && IsRun(x, End(toks) - 3, 6)
    ensures CopySource(x, toks, HashAt(x, End(toks))) == End(toks) - 3
  {
    hide Next, HashFunc;
    var p := End(toks);
    DropLiteral(x, toks);
    var one := toks[..|toks| - 1];
    DropLiteral(x, one);
    var two := one[..|one| - 1];
    DropLiteral(x, two);
    assert two == toks[..Hashed(toks)];
    assert HashAt(x, p - 3) == HashAt(x, p);
  }

  /** Bytes that each equal their predecessor form a run. */
  lemma {:induction false} RunContinues(x: seq<byte>, p: nat, n: nat)
    requires p + n < |x|
    requires forall i :: p < i <= p + n ==> x[i] == x[i - 1]
    ensures IsRun(x, p, n)
  {
    if n > 0 { RunContinues(x, p, n - 1); assert x[p + n] == x[p + n - 1]; }
  }
}
