/**
 How small the coded form of a repetitive string is. Neither the candidate test nor the choice of the next token
 appears in the laws: a string of equal bytes, or of a repeated block, costs little more than its block.
 */
module QlzRatio {
  import opened Bytes
  import opened QlzTokens
  import opened QlzLayout
  import opened QlzBound

  /** All bytes are equal. */
  predicate Uniform(x: seq<byte>) { forall i :: 0 <= i < |x| ==> x[i] == x[0] }

  /** A block of d bytes repeated, the last time perhaps in part. */
  predicate Periodic(x: seq<byte>, d: nat) { forall i :: d <= i < |x| ==> x[i] == x[i - d] }

  /** The hash tells the positions of the block apart. */
  predicate Spread(x: seq<byte>, d: nat)
  {
    forall i, j :: 0 <= i < j < d ==> HashAt(x, i) != HashAt(x, j)
  }

  // ----- The shape of the parse -----

  /** n literals, then matches as long as they may be, then literals where matches are no longer allowed. */
  predicate Steady(x: seq<byte>, toks: seq<Token>, n: nat)
  {
    forall k :: 0 <= k < |toks| ==> SteadyToken(x, toks, n, k)
  }

  predicate SteadyToken(x: seq<byte>, toks: seq<Token>, n: nat, k: nat)
    requires k < |toks|
  {
    if k < n || toks[k].at + 11 > |x| then toks[k].Literal?
    else toks[k].Match? && toks[k].len == LongestMatch(x, toks[k].at)
  }

  lemma {:induction false} SteadyFront(x: seq<byte>, toks: seq<Token>, n: nat, k: nat)
    requires Steady(x, toks, n) && k <= |toks|
    ensures Steady(x, toks[..k], n)
  {
    forall i | 0 <= i < k ensures SteadyToken(x, toks[..k], n, i) { assert SteadyToken(x, toks, n, i); }
  }

  /** The first literals stand one behind the other. */
  lemma {:induction false} FirstAt(x: seq<byte>, toks: seq<Token>, n: nat, k: nat)
    requires Greedy(x, toks) && Steady(x, toks, n) && k <= |toks| && k <= n
    ensures End(toks[..k]) == k && Sizes(toks, k) == k && (k < |toks| ==> toks[k].at == k)
  {
    hide Next, Greedy;
    if k > 0 {
      FirstAt(x, toks, n, k - 1);
      assert SteadyToken(x, toks, n, k - 1);
      GreedyAt(x, toks, k - 1);
    }
    if k < |toks| { GreedyAt(x, toks, k); }
  }

  /** While matches are allowed, every match before the last is 255 bytes long. */
  lemma {:induction false} MatchesAt(x: seq<byte>, toks: seq<Token>, n: nat, k: nat)
    requires Greedy(x, toks) && Steady(x, toks, n) && n <= k < |toks| && toks[k].at + 11 <= |x|
    ensures toks[k].at == End(toks[..k]) == n + 255 * (k - n) && Sizes(toks, k) == n + 3 * (k - n)
  {
    hide Next, Greedy;
    GreedyAt(x, toks, k);
    if k == n {
      FirstAt(x, toks, n, n);
    } else {
      GreedyAt(x, toks, k - 1);
      assert SteadyToken(x, toks, n, k - 1);
      MatchesAt(x, toks, n, k - 1);
    }
  }

  /** Bytes used for the whole string: the literals at the start, three bytes for 255, and ten literals at the end. */
  lemma {:induction false} SteadySize(x: seq<byte>, toks: seq<Token>, n: nat)
    requires Greedy(x, toks) && Steady(x, toks, n)
    ensures Used(toks, |toks|) <= |x| / 32 + n + n / 7 + 26
  {
    hide Next, Greedy, Steady, Sizes;
    var c := MainTokens(x, toks);
    assert toks[..|toks|] == toks;
    CostOfTokens(x, toks, c, |toks|);
    if c < |toks| { GreedyAt(x, toks, c); }
    if c <= n {
      FirstAt(x, toks, n, c);
    } else {
      MatchesAt(x, toks, n, c - 1);
      SizesMonotone(toks, c - 1, c);
    }
  }

  /** With room for three blocks, such a parse is never given up. */
  lemma {:induction false} SteadyKept(x: seq<byte>, toks: seq<Token>, n: nat)
    requires Greedy(x, toks) && Steady(x, toks, n) && 3 * n <= |x|
    ensures !GivesUp(x, toks)
  {
    hide Next, Greedy, Steady, Sizes;
    var k := |toks|;
    assert toks[..k] == toks;
    if k > 0 && End(toks) + 11 <= |x| {
      GreedyAt(x, toks, k - 1);
      if k <= n {
        FirstAt(x, toks, n, k);
      } else {
        MatchesAt(x, toks, n, k - 1);
        SteadyLast(x, toks, n);
        SizesMonotone(toks, k - 1, k);
      }
    }
  }

  lemma {:induction false} SteadyLast(x: seq<byte>, toks: seq<Token>, n: nat)
    requires Greedy(x, toks) && Steady(x, toks, n) && n < |toks| && End(toks) + 11 <= |x|
    ensures toks[|toks| - 1].Match? && toks[|toks| - 1].len == 255
  {
    hide Next, Greedy;
    assert SteadyToken(x, toks, n, |toks| - 1);
  }

  /** The parse stays steady if its next token does. */
  lemma {:induction false} SteadySnoc(x: seq<byte>, toks: seq<Token>, n: nat)
    requires toks != [] && Steady(x, toks[..|toks| - 1], n) && SteadyToken(x, toks, n, |toks| - 1)
    ensures Steady(x, toks, n)
  {
    var front := toks[..|toks| - 1];
    forall k | 0 <= k < |toks| ensures SteadyToken(x, toks, n, k) {
      if k < |front| { assert SteadyToken(x, front, n, k); }
    }
  }

  /** A match at a distance over which the string repeats is as long as it may be. */
  lemma {:induction false} LongMatch(x: seq<byte>, toks: seq<Token>, d: nat)
    requires End(toks) + 11 <= |x| && d > 0 && Accepts(x, toks, End(toks) - d)
    requires LatestStart(x, toks, HashAt(x, End(toks))) == End(toks) - d && Periodic(x, d)
    ensures Next(x, toks).Match? && Next(x, toks).len == LongestMatch(x, End(toks))
  {
    hide HashAt, LatestStart, Extend;
    var p := End(toks);
    ExtendUnique(x, p - d, p, 3, LongestMatch(x, p));
  }

  // ----- Equal bytes -----

  lemma {:induction false} UniformHash(x: seq<byte>, p: nat, q: nat)
    requires Uniform(x) && p + 3 <= |x| && q + 3 <= |x|
    ensures HashAt(x, p) == HashAt(x, q)
  {
    hide HashFunc;
  }

  /** All positions are in one bucket, so the last token is the candidate. */
  lemma {:induction false} UniformNext(x: seq<byte>, toks: seq<Token>)
    requires Uniform(x) && Greedy(x, toks) && Steady(x, toks, 4) && End(toks) < |x|
    ensures if |toks| < 4 || End(toks) + 11 > |x| then Next(x, toks).Literal?
            else Next(x, toks).Match? && Next(x, toks).len == LongestMatch(x, End(toks))
  {
    hide HashAt, Greedy, Next, Extend;
    var p, k := End(toks), |toks|;
    assert toks[..k] == toks;
    if k == 0 || p + 11 > |x| {
      NotTaken(x, toks);
    } else {
      var q := toks[k - 1].at;
      GreedyAt(x, toks, k - 1);
      UniformHash(x, p, q);
      assert LatestStart(x, toks, HashAt(x, p)) == q;
      assert SteadyToken(x, toks, 4, k - 1);
      if k <= 4 {
        FirstAt(x, toks, 4, k);
        LiteralsTrail(x, toks, 4);
      } else {
        MatchesAt(x, toks, 4, k - 1);
      }
      if k < 4 {
        NotTaken(x, toks);
      } else {
        assert SameThree(x, q, p);
        assert k == 4 ==> IsRun(x, p - 3, 6);
        assert Accepts(x, toks, q);
        LongMatch(x, toks, p - q);
      }
    }
  }

  lemma {:induction false} NotTaken(x: seq<byte>, toks: seq<Token>)
    requires End(toks) < |x|
    requires End(toks) + 11 <= |x| ==> !Accepts(x, toks, LatestStart(x, toks, HashAt(x, End(toks))))
    ensures Next(x, toks).Literal?
  {
  }

  lemma {:induction false} LiteralsTrail(x: seq<byte>, toks: seq<Token>, n: nat)
    requires |toks| <= n && Steady(x, toks, n)
    ensures TrailingLiterals(toks) == |toks|
  {
    if toks != [] {
      assert SteadyToken(x, toks, n, |toks| - 1);
      SteadyFront(x, toks, n, |toks| - 1);
      LiteralsTrail(x, toks[..|toks| - 1], n);
    }
  }

  lemma {:induction false} UniformParse(x: seq<byte>, toks: seq<Token>)
    requires Uniform(x) && Greedy(x, toks)
    ensures Steady(x, toks, 4)
  {
    hide Uniform, Next;
    if toks != [] {
      var front := toks[..|toks| - 1];
      UniformParse(x, front);
      UniformNext(x, front);
      SteadySnoc(x, toks, 4);
    }
  }

  // ----- A repeated block -----

  /** Which position of the block a position repeats. */
  function Phase(i: nat, d: nat): (r: nat)
    requires d > 0
    ensures r < d && (i < d ==> r == i)
  {
    if i < d then i else Phase(i - d, d)
  }

  lemma {:induction false} PhaseGap(i: nat, j: nat, d: nat)
    requires d > 0 && i < j && Phase(i, d) == Phase(j, d)
    ensures i + d <= j && Phase(j - d, d) == Phase(i, d)
  {
    if i >= d { PhaseGap(i - d, j - d, d); }
  }

  /** Between positions of one phase the string repeats. */
  lemma {:induction false} PeriodicOver(x: seq<byte>, i: nat, j: nat, d: nat)
    requires Periodic(x, d) && d > 0 && i <= j && Phase(i, d) == Phase(j, d)
    ensures Periodic(x, j - i)
    decreases j
  {
    if i < j {
      PhaseGap(i, j, d);
      PeriodicOver(x, i, j - d, d);
      forall m | j - i <= m < |x| ensures x[m] == x[m - (j - i)] {
        assert x[m] == x[m - d];
        assert x[m - d] == x[m - d - (j - d - i)];
      }
    }
  }

  lemma {:induction false} PhaseHash(x: seq<byte>, p: nat, d: nat)
    requires Periodic(x, d) && d > 0 && p + 3 <= |x|
    ensures HashAt(x, p) == HashAt(x, Phase(p, d))
  {
    hide HashFunc;
    if p >= d { PhaseHash(x, p - d, d); }
  }

  /** The candidate of a position is the last token start of its phase. */
  lemma {:induction false} LatestPhase(x: seq<byte>, toks: seq<Token>, p: nat, d: nat)
    requires Periodic(x, d) && d > 0 && Spread(x, d) && p + 3 <= |x|
    requires forall k :: 0 <= k < |toks| ==> toks[k].at + 3 <= |x|
    requires forall i, j :: 0 <= i < j < |toks| ==> toks[i].at < toks[j].at
    ensures var o := LatestStart(x, toks, HashAt(x, p));
      && (o == -1 || (exists k :: 0 <= k < |toks| && toks[k].at == o && Phase(o, d) == Phase(p, d)))
      && forall k :: 0 <= k < |toks| && Phase(toks[k].at, d) == Phase(p, d) ==> o >= toks[k].at
  {
    hide HashAt;
    if toks != [] {
      var front, q := toks[..|toks| - 1], toks[|toks| - 1].at;
      LatestPhase(x, front, p, d);
      PhaseHash(x, p, d);
      PhaseHash(x, q, d);
      var o := LatestStart(x, toks, HashAt(x, p));
      if HashAt(x, q) == HashAt(x, p) {
        assert Phase(q, d) == Phase(p, d);
        assert toks[|toks| - 1].at == o;
      } else {
        if o != -1 {
          var k :| 0 <= k < |front| && front[k].at == o && Phase(o, d) == Phase(p, d);
          assert toks[k].at == o;
        }
        forall k | 0 <= k < |toks| && Phase(toks[k].at, d) == Phase(p, d) ensures o >= toks[k].at {
          assert k < |front| && front[k] == toks[k];
        }
      }
    }
  }

  lemma {:induction false} Increasing(x: seq<byte>, toks: seq<Token>)
    requires Greedy(x, toks)
    ensures forall i, j :: 0 <= i < j < |toks| ==> toks[i].at < toks[j].at < End(toks)
    ensures forall i :: 0 <= i < |toks| ==> toks[i].at < End(toks)
  {
    hide Next, Greedy;
    assert toks[..|toks|] == toks;
    forall i | 0 <= i < |toks| ensures toks[i].at < End(toks) {
      GreedyAt(x, toks, i);
      CostOfTokens(x, toks, i, |toks|);
    }
    forall i, j | 0 <= i < j < |toks| ensures toks[i].at < toks[j].at {
      GreedyAt(x, toks, i);
      GreedyAt(x, toks, j);
      CostOfTokens(x, toks, i, j);
    }
  }

  /** The block and one byte more are literals; then every position finds an earlier one of its phase. */
  lemma {:induction false} PeriodicNext(x: seq<byte>, toks: seq<Token>, d: nat)
    requires d >= 3 && Periodic(x, d) && Spread(x, d)
    requires Greedy(x, toks) && Steady(x, toks, d + 1) && End(toks) < |x|
    ensures if |toks| <= d || End(toks) + 11 > |x| then Next(x, toks).Literal?
            else Next(x, toks).Match? && Next(x, toks).len == LongestMatch(x, End(toks))
  {
    hide HashAt, Greedy, Next, Extend, Steady, Spread, LatestStart;
    var p, k := End(toks), |toks|;
    assert toks[..k] == toks;
    if p + 11 > |x| {
      NotTaken(x, toks);
    } else {
      Increasing(x, toks);
      LatestPhase(x, toks, p, d);
      var o := LatestStart(x, toks, HashAt(x, p));
      if k <= d {
        FirstAt(x, toks, d + 1, k);
        EarlyCandidate(x, toks, o, d);
        NotTaken(x, toks);
      } else {
        var i := if Phase(p, d) == 0 then d else Phase(p, d);
        FirstAt(x, toks, d + 1, i);
        assert Phase(d, d) == Phase(0, d);
        PhaseGap(o, p, d);
        PeriodicOver(x, o, p, d);
        assert SameThree(x, o, p);
        LongMatch(x, toks, p - o);
      }
    }
  }

  /** In the block itself there is no candidate but the very first byte, which the compressor never takes. */
  lemma {:induction false} EarlyCandidate(x: seq<byte>, toks: seq<Token>, o: int, d: nat)
    requires d > 0 && End(toks) == |toks| <= d
    requires forall i :: 0 <= i < |toks| ==> toks[i].at < End(toks)
    requires o == -1 || exists k :: 0 <= k < |toks| && toks[k].at == o && Phase(o, d) == Phase(End(toks), d)
    ensures o <= 0
  {
    assert Phase(d, d) == 0;
  }

  lemma {:induction false} PeriodicParse(x: seq<byte>, toks: seq<Token>, d: nat)
    requires d >= 3 && Periodic(x, d) && Spread(x, d) && Greedy(x, toks)
    ensures Steady(x, toks, d + 1)
  {
    hide Periodic, Spread, Next;
    if toks != [] {
      var front := toks[..|toks| - 1];
      PeriodicParse(x, front, d);
      PeriodicNext(x, front, d);
      SteadySnoc(x, toks, d + 1);
    }
  }

  // ----- A repeated block of three bytes -----

  /** Three different windows in one bucket hide each other: the candidate is always the byte before. */
  lemma {:induction false} CollidingNext(x: seq<byte>, toks: seq<Token>)
    requires Periodic(x, 3) && !Uniform(x) && |x| >= 5 && HashAt(x, 0) == HashAt(x, 1) == HashAt(x, 2)
    requires Greedy(x, toks) && End(toks) < |x| && forall k :: 0 <= k < |toks| ==> toks[k].Literal?
    ensures Next(x, toks).Literal?
  {
    hide HashAt, Greedy, Next, Extend;
    var p, k := End(toks), |toks|;
    if k > 0 && p + 11 <= |x| {
      var q := toks[k - 1].at;
      PhaseHash(x, p, 3);
      PhaseHash(x, q, 3);
      assert LatestStart(x, toks, HashAt(x, p)) == q == p - 1;
      if SameThree(x, q, p) { RunIsUniform(x, q); }
    }
    NotTaken(x, toks);
  }

  lemma {:induction false} RunIsUniform(x: seq<byte>, q: nat)
    requires Periodic(x, 3) && q + 4 <= |x| && SameThree(x, q, q + 1)
    ensures Uniform(x)
  {
    forall i | 0 <= i < |x| ensures x[i] == x[q] {
      SamePhase(x, i);
      SamePhase(x, q);
      SamePhase(x, q + 1);
      SamePhase(x, q + 2);
      assert Phase(q + 1, 3) == (Phase(q, 3) + 1) % 3 && Phase(q + 2, 3) == (Phase(q, 3) + 2) % 3 by {
        PhaseMod(q);
        PhaseMod(q + 1);
        PhaseMod(q + 2);
      }
    }
    SamePhase(x, 0);
  }

  lemma {:induction false} SamePhase(x: seq<byte>, i: nat)
    requires Periodic(x, 3) && i < |x|
    ensures x[i] == x[Phase(i, 3)]
  {
    if i >= 3 { SamePhase(x, i - 3); }
  }

  lemma {:induction false} PhaseMod(i: nat)
    ensures Phase(i, 3) == i % 3
  {
    if i >= 3 { PhaseMod(i - 3); }
  }

  lemma {:induction false} CollidingParse(x: seq<byte>, toks: seq<Token>)
    requires Periodic(x, 3) && !Uniform(x) && |x| >= 5 && HashAt(x, 0) == HashAt(x, 1) == HashAt(x, 2) &&
      Greedy(x, toks)
    ensures forall k :: 0 <= k < |toks| ==> toks[k].Literal?
  {
    hide Periodic, Uniform, HashAt, Next;
    if toks != [] {
      var front := toks[..|toks| - 1];
      CollidingParse(x, front);
      assert forall k :: 0 <= k < |front| ==> front[k] == toks[k];
      CollidingNext(x, front);
    }
  }

  /** One window has a bucket to itself, the other two share one. */
  predicate Lone(x: seq<byte>, c: nat)
  {
    && c < 3 && |x| >= 5
    && HashAt(x, c) != HashAt(x, (c + 1) % 3) == HashAt(x, (c + 2) % 3)
  }

  function LoneStart(c: nat): nat { if c == 0 then 6 else c + 3 }

  /** The hash of a position tells whether it is the lone one's turn. */
  lemma {:induction false} LoneHash(x: seq<byte>, p: nat, q: nat, c: nat)
    requires Periodic(x, 3) && Lone(x, c) && p + 3 <= |x| && q + 3 <= |x|
    ensures HashAt(x, p) == HashAt(x, q) <==> (p % 3 == c <==> q % 3 == c)
  {
    hide HashAt;
    PhaseHash(x, p, 3);
    PhaseHash(x, q, 3);
    PhaseMod(p);
    PhaseMod(q);
  }

  lemma {:induction false} ShiftIsUniform(x: seq<byte>, q: nat)
    requires Periodic(x, 3) && q + 5 <= |x| && SameThree(x, q, q + 2)
    ensures Uniform(x)
  {
    assert x[q + 3] == x[q] && x[q + 4] == x[q + 1];
    RunIsUniform(x, q);
  }

  /** Up to the lone window's second turn there are only literals. */
  lemma {:induction false} LoneLiterals(x: seq<byte>, toks: seq<Token>, c: nat)
    requires Periodic(x, 3) && !Uniform(x) && Lone(x, c) && |toks| < LoneStart(c)
    requires Greedy(x, toks) && Steady(x, toks, LoneStart(c)) && End(toks) < |x|
    ensures Next(x, toks).Literal?
  {
    hide HashAt, Greedy, Next, Extend, Steady, Lone;
    var p, k := End(toks), |toks|;
    assert toks[..k] == toks;
    FirstAt(x, toks, LoneStart(c), k);
    if p + 11 <= |x| {
      LoneCandidate(x, toks, c);
      var o := LatestStart(x, toks, HashAt(x, p));
      if o > 0 && o == p - 1 && SameThree(x, o, p) { RunIsUniform(x, o); }
      if o > 0 && o == p - 2 && SameThree(x, o, p) { ShiftIsUniform(x, o); }
    }
    NotTaken(x, toks);
  }

  /** Among literals the candidate is the last start with the same turn. */
  lemma {:induction false} LoneCandidate(x: seq<byte>, toks: seq<Token>, c: nat)
    requires Periodic(x, 3) && Lone(x, c) && |toks| <= LoneStart(c)
    requires Greedy(x, toks) && Steady(x, toks, LoneStart(c)) && End(toks) + 3 <= |x|
    ensures var p := End(toks);
      LatestStart(x, toks, HashAt(x, p)) ==
        if p % 3 == c then (if p >= 3 then p - 3 else -1)
        else if p >= 1 && (p - 1) % 3 != c then p - 1
        else if p >= 2 then p - 2 else -1
  {
    hide HashAt, Greedy, Steady, Lone, Next;
    var n, k := LoneStart(c), |toks|;
    assert toks[..k] == toks;
    FirstAt(x, toks, n, k);
    LastStarts(x, toks, n, HashAt(x, k));
    if k >= 1 { LoneHash(x, k - 1, k, c); }
    if k >= 2 { LoneHash(x, k - 2, k, c); }
    if k >= 3 { LoneHash(x, k - 3, k, c); }
  }

  /** The candidate among the last three of the first literals. */
  lemma {:induction false} LastStarts(x: seq<byte>, toks: seq<Token>, n: nat, h: nat)
    requires Greedy(x, toks) && Steady(x, toks, n) && |toks| <= n
    ensures var k, o := |toks|, LatestStart(x, toks, h);
      if k >= 1 && HashAt(x, k - 1) == h then o == k - 1
      else if k >= 2 && HashAt(x, k - 2) == h then o == k - 2
      else if k >= 3 && HashAt(x, k - 3) == h then o == k - 3
      else k < 3 ==> o == -1
  {
    hide HashAt, Greedy, Steady, Next;
    var k := |toks|;
    if k >= 1 {
      FirstAt(x, toks, n, k - 1);
      assert k == 1 ==> LatestStart(x, toks[..k - 1], h) == -1;
    }
    if k >= 2 {
      FirstAt(x, toks, n, k - 2);
      assert toks[..k - 1][..k - 2] == toks[..k - 2];
      assert k == 2 ==> LatestStart(x, toks[..k - 2], h) == -1;
    }
    if k >= 3 {
      FirstAt(x, toks, n, k - 3);
      assert toks[..k - 2][..k - 3] == toks[..k - 3];
      assert HashAt(x, k - 3) == h ==> LatestStart(x, toks[..k - 2], h) == k - 3;
    }
  }

  /** From then on every position with matches allowed is the lone window's turn again. */
  lemma {:induction false} LoneMatches(x: seq<byte>, toks: seq<Token>, c: nat)
    requires Periodic(x, 3) && Lone(x, c) && |toks| >= LoneStart(c)
    requires Greedy(x, toks) && Steady(x, toks, LoneStart(c)) && End(toks) + 11 <= |x|
    ensures Next(x, toks).Match? && Next(x, toks).len == LongestMatch(x, End(toks))
  {
    hide HashAt, Greedy, Next, Extend, Steady, LatestStart, LongestMatch;
    var p, k, n := End(toks), |toks|, LoneStart(c);
    var o;
    if k == n {
      assert toks[..k] == toks;
      FirstAt(x, toks, n, k);
      LoneCandidate(x, toks, c);
      o := p - 3;
    } else {
      LoneAgain(x, toks, c);
      o := p - 255;
      Turn(o);
    }
    PhaseMod(o);
    PhaseMod(p);
    PeriodicOver(x, o, p, 3);
    assert SameThree(x, o, p);
    LongMatch(x, toks, p - o);
  }

  lemma {:induction false} LoneAgain(x: seq<byte>, toks: seq<Token>, c: nat)
    requires Periodic(x, 3) && Lone(x, c) && |toks| > LoneStart(c)
    requires Greedy(x, toks) && Steady(x, toks, LoneStart(c)) && End(toks) + 11 <= |x|
    ensures End(toks) > 255 && LatestStart(x, toks, HashAt(x, End(toks))) == End(toks) - 255
  {
    hide HashAt, Greedy, Next, Steady, Lone, LongestMatch, LatestStart, Periodic;
    var k, n := |toks|, LoneStart(c);
    SteadyLast(x, toks, n);
    MatchesAt(x, toks, n, k - 1);
    var o := toks[k - 1].at;
    Turn(o);
    LoneHash(x, o, o + 255, c);
    LastStart(x, toks, HashAt(x, o));
  }

  lemma {:induction false} LastStart(x: seq<byte>, toks: seq<Token>, h: nat)
    requires toks != [] && HashAt(x, toks[|toks| - 1].at) == h
    ensures LatestStart(x, toks, h) == toks[|toks| - 1].at
  {
    hide HashAt;
  }

  lemma {:induction false} Turn(o: nat)
    ensures (o + 255) % 3 == o % 3
  {
  }

  lemma {:induction false} LoneParse(x: seq<byte>, toks: seq<Token>, c: nat)
    requires Periodic(x, 3) && !Uniform(x) && Lone(x, c) && Greedy(x, toks)
    ensures Steady(x, toks, LoneStart(c))
  {
    hide Periodic, Uniform, Lone, LoneStart, Next;
    if toks != [] {
      var front := toks[..|toks| - 1];
      LoneParse(x, front, c);
      if |front| < LoneStart(c) { LoneLiterals(x, front, c); }
      else if End(front) + 11 <= |x| { LoneMatches(x, front, c); }
      else { NotTaken(x, front); }
      SteadySnoc(x, toks, LoneStart(c));
    }
  }
}
