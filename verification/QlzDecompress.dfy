/** The level 1 decompressor core: overlapping wide copies, batched literals, lagging hash table. */
module QlzDecompress {
  import opened Bytes
  import opened QlzTokens
  import opened QlzLayout
  import opened QlzBound

  // ----- Copying -----

  /** The plain overlapping copy, one byte after the other. */
  function CopyUp(a: seq<byte>, dst: nat, src: nat, n: nat): (r: seq<byte>)
    requires src <= dst && dst + n <= |a|
    ensures |r| == |a|
  {
    if n == 0 then a
    else
      var r := CopyUp(a, dst, src, n - 1);
      r[dst + n - 1 := r[src + n - 1]]
  }

  lemma {:induction false} CopyUpLast(a: seq<byte>, dst: nat, src: nat, n: nat)
    requires src < dst && dst + n <= |a| && n > 0
    ensures var q := CopyUp(a, dst, src, n - 1); CopyUp(a, dst, src, n) == q[dst + n - 1 := q[src + n - 1]]
  {
  }

  /** The plain copy repeats what lies dst - src bytes before, and touches nothing else. */
  lemma {:induction false} CopyUpRepeats(a: seq<byte>, dst: nat, src: nat, n: nat)
    requires src < dst && dst + n <= |a|
    ensures var r := CopyUp(a, dst, src, n);
      && (forall i :: dst <= i < dst + n ==> r[i] == r[i - (dst - src)])
      && (forall i :: 0 <= i < |a| && !(dst <= i < dst + n) ==> r[i] == a[i])
  {
    if n > 0 {
      hide CopyUp;
      CopyUpRepeats(a, dst, src, n - 1);
      CopyUpLast(a, dst, src, n);
      var q, r, e := CopyUp(a, dst, src, n - 1), CopyUp(a, dst, src, n), dst + n - 1;
      assert r[e] == q[e - (dst - src)] == r[e - (dst - src)];
    }
  }

  /** Bytes that repeat what lies d before them are determined by the bytes before them. */
  lemma {:induction false} RepeatsUnique(a: seq<byte>, b: seq<byte>, dst: nat, d: nat, n: nat)
    requires 0 < d <= dst && dst + n <= |a| && dst + n <= |b|
    requires a[..dst] == b[..dst]
    requires forall i :: dst <= i < dst + n ==> a[i] == a[i - d]
    requires forall i :: dst <= i < dst + n ==> b[i] == b[i - d]
    ensures a[..dst + n] == b[..dst + n]
  {
    if n == 0 {
      assert a[..dst + 0] == b[..dst + 0];
    } else {
      RepeatsUnique(a, b, dst, d, n - 1);
      var e := dst + n - 1;
      assert a[e - d] == a[..e][e - d] == b[..e][e - d] == b[e - d];
      assert a[..dst + n] == a[..e] + [a[e]] && b[..dst + n] == b[..e] + [b[e]];
    }
  }

  /**
   Copies four bytes at a time in strides of three. From three bytes back or more, the n bytes
   wanted come out as the plain copy gives them; up to three bytes after them may be spoiled.
   */
  method MemcpyUp(a: array<byte>, dst: nat, src: nat, n: nat)
    requires src + MINOFFSET + 1 <= dst && n > 0 && dst + n + 3 <= a.Length
    modifies a
    ensures a[..dst + n] == CopyUp(old(a[..]), dst, src, n)[..dst + n]
    ensures forall i :: dst + n + 3 <= i < a.Length ==> a[i] == old(a[i])
  {
    var f := 0;
    while f < n
      invariant 0 <= f <= n + 2
      invariant forall i :: 0 <= i < dst ==> a[i] == old(a[i])
      invariant forall i :: dst <= i < dst + f ==> a[i] == a[i - (dst - src)]
      invariant forall i :: dst + n + 3 <= i < a.Length ==> a[i] == old(a[i])
    {
      a[dst + f], a[dst + f + 1], a[dst + f + 2], a[dst + f + 3] :=
        a[src + f], a[src + f + 1], a[src + f + 2], a[src + f + 3];
      f := f + MINOFFSET + 1;
    }
    ghost var was, got := old(a[..]), a[..];
    ghost var r := CopyUp(was, dst, src, n);
    CopyUpRepeats(was, dst, src, n);
    hide CopyUp;
    assert forall i :: 0 <= i < dst ==> got[i] == was[i] == r[i];
    assert got[..dst] == r[..dst];
    assert forall i :: dst <= i < dst + n ==> got[i] == got[i - (dst - src)];
    RepeatsUnique(got, r, dst, dst - src, n);
    assert got[..dst + n] == a[..dst + n];
  }

  // ----- The lagging table -----

  /** Hashes the positions after last up to max. */
  function Rehash(offset: seq<int>, a: seq<byte>, last: int, max: int): (r: seq<int>)
    requires |offset| == HASH_VALUES && -1 <= last && (last < max ==> max + 4 <= |a|)
    ensures |r| == HASH_VALUES
    decreases max - last
  {
    if last >= max then offset
    else Rehash(offset[HashFunc(Le32(a, last + 1)) := last + 1], a, last + 1, max)
  }

  method UpdateHashUpto(offset: array<int>, a: array<byte>, lastHashed: int, max: int) returns (last: int)
    requires offset.Length == HASH_VALUES && -1 <= lastHashed && (lastHashed < max ==> max + 4 <= a.Length)
    modifies offset
    ensures offset[..] == Rehash(old(offset[..]), a[..], lastHashed, max)
    ensures last == if lastHashed < max then max else lastHashed
  {
    hide HashFunc;
    last := lastHashed;
    while last < max
      invariant lastHashed <= last && (last <= max || last == lastHashed)
      invariant Rehash(offset[..], a[..], last, max) == Rehash(old(offset[..]), a[..], lastHashed, max)
    {
      last := last + 1;
      ghost var before := offset[..];
      offset[HashFunc(Le32(a[..], last))] := last;
      assert offset[..] == before[HashFunc(Le32(a[..], last)) := last];
    }
  }

  /** The table holds the latest start of every bucket some token of toks falls in. */
  ghost predicate TableFor(offset: seq<int>, x: seq<byte>, toks: seq<Token>)
  {
    && |offset| == HASH_VALUES
    && forall h :: 0 <= h < HASH_VALUES && LatestStart(x, toks, h) >= 0 ==> offset[h] == LatestStart(x, toks, h)
  }

  lemma {:induction false} TableSnoc(offset: seq<int>, x: seq<byte>, toks: seq<Token>, t: Token)
    requires TableFor(offset, x, toks) && t.at + 3 <= |x|
    ensures TableFor(offset[HashAt(x, t.at) := t.at], x, toks + [t])
  {
    hide HashFunc;
    assert (toks + [t])[..|toks|] == toks;
  }

  /** Hashing the starts of tokens m..n in order extends the table from the first m tokens to the first n. */
  lemma {:induction false} RehashTable(offset: seq<int>, a: seq<byte>, x: seq<byte>, toks: seq<Token>, m: nat, n: nat,
        last: int, max: int)
    requires m <= n <= |toks| && -1 <= last && max == last + (n - m)
    requires m < n ==> max + 4 <= |a| && max + 3 <= |x| && forall i :: 0 <= i < max + 3 ==> a[i] == x[i]
    requires forall j :: m <= j < n ==> toks[j].at == last + 1 + (j - m)
    requires TableFor(offset, x, toks[..m])
    ensures TableFor(Rehash(offset, a, last, max), x, toks[..n])
    decreases n - m
  {
    hide HashFunc;
    assert |offset| == HASH_VALUES;
    if m < n {
      var p := last + 1;
      HashIgnoresFourthByte(a, p);
      assert HashAt(a, p) == HashAt(x, p);
      TableSnoc(offset, x, toks[..m], toks[m]);
      assert toks[..m] + [toks[m]] == toks[..m + 1];
      RehashTable(offset[HashAt(x, p) := p], a, x, toks, m + 1, n, p, max);
    }
  }

  // ----- The read position -----

  /**
   src stands at token k and bits is what remains of the control word: the flags of the tokens
   to come and the marker. Only the marker is left when the next word has not been read yet.
   */
  ghost predicate Cursor(base: nat, toks: seq<Token>, k: nat, bits: seq<bool>, src: nat)
  {
    && k <= |toks|
    && 1 <= |bits| <= 32 && bits[|bits| - 1]
    && if |bits| == 1 then k % GROUP == 0 && src + CWORD_LEN == base + TokenOff(toks, k)
       else |bits| == 32 - k % GROUP && src == base + TokenOff(toks, k)
  }

  /** bits are the flags the stream really carries. */
  ghost predicate TrueFlags(toks: seq<Token>, k: nat, bits: seq<bool>)
  {
    forall i :: 0 <= i < |bits| - 1 ==> bits[i] == IsMatch(toks, k + i)
  }

  lemma {:induction false} ReadWord(b: seq<byte>, base: nat, toks: seq<Token>, k: nat, bits: seq<bool>, src: nat)
    requires Coded(b, base, toks) && k < |toks| && Cursor(base, toks, k, bits, src) && |bits| == 1
    ensures src + 4 <= |b| && Le32(b, src) == Num(FlagBits(toks, k / GROUP))
    ensures Cursor(base, toks, k, FlagBits(toks, k / GROUP), src + CWORD_LEN)
    ensures TrueFlags(toks, k, FlagBits(toks, k / GROUP))
  {
    hide Num;
    assert WordLaid(b, base, toks, k / GROUP);
  }

  /** A token uses up one bit of the control word and its own bytes. */
  lemma {:induction false} Advance(base: nat, toks: seq<Token>, k: nat, bits: seq<bool>, src: nat)
    requires k < |toks| && Cursor(base, toks, k, bits, src) && |bits| > 1
    ensures Cursor(base, toks, k + 1, bits[1..], src + Size(toks[k]))
    ensures TrueFlags(toks, k, bits) ==> TrueFlags(toks, k + 1, bits[1..])
  {
    forall i | TrueFlags(toks, k, bits) && 0 <= i < |bits[1..]| - 1
      ensures bits[1..][i] == IsMatch(toks, k + 1 + i)
    {
      assert bits[i + 1] == IsMatch(toks, k + (i + 1));
    }
  }

  lemma {:induction false} AdvanceLiterals(base: nat, toks: seq<Token>, k: nat, bits: seq<bool>, src: nat, n: nat)
    requires k + n <= |toks| && Cursor(base, toks, k, bits, src) && n < |bits| && TrueFlags(toks, k, bits)
    requires forall j :: k <= j < k + n ==> toks[j].Literal?
    ensures Cursor(base, toks, k + n, bits[n..], src + n) && TrueFlags(toks, k + n, bits[n..])
    ensures forall j :: k <= j < k + n ==> base + TokenOff(toks, j) == src + (j - k)
    decreases n
  {
    if n == 0 {
      assert bits[0..] == bits;
    } else {
      AdvanceLiterals(base, toks, k, bits, src, n - 1);
      Advance(base, toks, k + n - 1, bits[n - 1..], src + (n - 1));
      assert bits[n - 1..][1..] == bits[n..];
    }
  }

  /** The number of literals announced by the low four bits, looked up in a table. */
  function BitLut(m: nat): nat
    requires m < 16
  {
    [4, 0, 1, 0, 2, 0, 1, 0, 3, 0, 1, 0, 2, 0, 1, 0][m]
  }

  lemma {:induction false} LutValues(m: nat)
    requires m < 16
    ensures BitLut(m) ==
      if m % 2 == 1 then 0 else if m % 4 == 2 then 1 else if m % 8 == 4 then 2 else if m == 8 then 3 else 4
  {
  }

  lemma {:induction false} NumTail(bits: seq<bool>, i: nat)
    requires i < |bits|
    ensures Num(bits[i..]) == Bit(bits[i]) + 2 * Num(bits[i + 1..])
  {
    assert bits[i..][1..] == bits[i + 1..];
  }

  /** The table counts zero bits, never past the marker, and shifting by the count drops exactly those. */
  lemma {:induction false} LiteralRun(bits: seq<bool>)
    requires bits != [] && bits[|bits| - 1] && !bits[0]
    ensures var n := BitLut(Num(bits) % 16);
      && 1 <= n < |bits| && (forall i :: 0 <= i < n ==> !bits[i])
      && ShiftRight(Num(bits), n) == Num(bits[n..])
  {
    hide Num, BitLut;
    var c := Num(bits);
    assert bits[0..] == bits;
    NumTail(bits, 0);
    NumTail(bits, 1);
    LutValues(c % 16);
    if bits[1] {
      LowBits(c, 2, Num(bits[2..]));
    } else {
      NumTail(bits, 2);
      if bits[2] {
        LowBits(c, 4, Num(bits[3..]));
      } else {
        NumTail(bits, 3);
        LowBits(c, if bits[3] then 8 else 16, Num(bits[4..]));
      }
    }
    NumShift(bits, BitLut(c % 16));
  }

  /** The lowest set bit of a number decides its remainder modulo 16 up to what the table distinguishes. */
  lemma {:induction false} LowBits(c: nat, w: nat, q: nat)
    requires (w == 2 && c == 2 + 4 * q) || (w == 4 && c == 4 + 8 * q) || (w == 8 && c == 8 + 16 * q) ||
      (w == 16 && c == 16 * q)
    ensures c % 2 == 0 && c % 16 % 2 == 0
    ensures w == 2 ==> c % 16 % 4 == 2
    ensures w == 4 ==> c % 16 % 4 == 0 && c % 16 % 8 == 4
    ensures w == 8 ==> c % 16 == 8
    ensures w == 16 ==> c % 16 == 0
  {
    if w == 2 {
      RemainderUnique(c, 16, q / 4, 4 * (q % 4) + 2);
    } else if w == 4 {
      RemainderUnique(c, 16, q / 2, 8 * (q % 2) + 4);
    } else if w == 8 {
      RemainderUnique(c, 16, q, 8);
    } else {
      RemainderUnique(c, 16, q, 0);
    }
  }

  /** A match can be read back from the word at its position. */
  lemma {:induction false} MatchFields(b: seq<byte>, off: nat, t: Token)
    requires t.Match? && TokenLaid(b, off, t) && off + 4 <= |b| && t.hash < HASH_VALUES && 3 <= t.len <= 255
    ensures Le32(b, off) / 16 % 4096 == t.hash
    ensures Le32(b, off) % 16 == if t.len < 18 then t.len - 2 else 0
  {
    var low := 16 * t.hash + (if t.len < 18 then t.len - 2 else 0);
    var high := b[off + 2] as int + 0x100 * (b[off + 3] as int);
    assert Le32(b, off) == low + 0x1_0000 * high;
    assert Le32(b, off) / 16 == t.hash + 4096 * high;
  }

  // ----- The end of the stream -----

  lemma {:induction false} LastToken(x: seq<byte>, toks: seq<Token>)
    requires Greedy(x, toks) && toks != [] && End(toks) + UNCOMPRESSED_END > |x|
    ensures toks[|toks| - 1].Literal? && Greedy(x, toks[..|toks| - 1]) && End(toks[..|toks| - 1]) == End(toks) - 1
  {
    hide Next;
  }

  /** The last four bytes are always four literals. */
  lemma {:induction false} LastFour(x: seq<byte>, toks: seq<Token>)
    requires Greedy(x, toks) && End(toks) == |x| >= UNCOMPRESSED_END
    ensures |toks| >= 4 && End(toks[..|toks| - 4]) == |x| - 4
  {
    hide Greedy;
    var n := |toks|;
    LastToken(x, toks);
    LastToken(x, toks[..n - 1]);
    assert toks[..n - 1][..n - 2] == toks[..n - 2];
    LastToken(x, toks[..n - 2]);
    assert toks[..n - 2][..n - 3] == toks[..n - 3];
    LastToken(x, toks[..n - 3]);
    assert toks[..n - 3][..n - 4] == toks[..n - 4];
  }

  /** So while four bytes of output are missing, four bytes of input are still there to be read. */
  lemma {:induction false} InputLeft(x: seq<byte>, toks: seq<Token>, k: nat)
    requires Greedy(x, toks) && End(toks) == |x| && k <= |toks|
    requires End(toks[..k]) + UNCOMPRESSED_END <= |x|
    ensures k + 4 <= |toks| && TokenOff(toks, k) + 4 <= Used(toks, |toks|)
  {
    hide Greedy;
    LastFour(x, toks);
    var m := |toks| - 4;
    if k > m {
      CostOfTokens(x, toks, m, k);
      assert false;
    }
    SizesMonotone(toks, k, |toks|);
  }

  /** From a literal on that starts too late for a match, everything is literal. */
  lemma {:induction false} LiteralTail(x: seq<byte>, toks: seq<Token>, k: nat, j: nat)
    requires Greedy(x, toks) && k <= j < |toks| && toks[k].Literal? && End(toks[..k]) + 11 >= |x|
    ensures toks[j].Literal?
  {
    hide Greedy;
    GreedyAt(x, toks, j);
    CostOfTokens(x, toks, k, j);
  }

  // ----- The core -----

  /** b[base..] is a whole coded stream of x, at least nine bytes long. */
  ghost predicate Stream(b: seq<byte>, base: nat, x: seq<byte>, toks: seq<Token>)
  {
    && Greedy(x, toks) && x != [] && End(toks) == |x|
    && Coded(b, base, toks)
    && base + 9 <= |b| && base + Used(toks, |toks|) <= |b|
  }

  /** What the decompressor keeps true when k tokens are decoded. */
  ghost predicate Decoding(x: seq<byte>, toks: seq<Token>, base: nat, d: seq<byte>, offset: seq<int>, k: nat,
        bits: seq<bool>, src: nat, dst: nat, last: int)
  {
    && k <= |toks|
    && dst == End(toks[..k])
    && dst <= |x| <= |d| && (forall i :: 0 <= i < dst ==> d[i] == x[i])
    && Hashed(toks[..k]) <= k
    && last + 1 == End(toks[..Hashed(toks[..k])])
    && TableFor(offset, x, toks[..Hashed(toks[..k])])
    && Cursor(base, toks, k, bits, src) && TrueFlags(toks, k, bits)
  }

  /** Hash and length of the match at src, and where the next token lies. */
  method ReadMatch(b: seq<byte>, src: nat, ghost t: Token) returns (hash: nat, matchlen: nat, src': nat)
    requires t.Match? && TokenLaid(b, src, t) && src + 4 <= |b| && t.hash < HASH_VALUES && 3 <= t.len <= 255
    ensures hash == t.hash && matchlen == t.len && src' == src + Size(t)
  {
    var fetch := Le32(b, src);
    MatchFields(b, src, t);
    hash := fetch / 16 % 4096;
    if fetch % 16 != 0 {
      matchlen := fetch % 16 + 2;
      src' := src + 2;
    } else {
      matchlen := b[src + 2];
      src' := src + 3;
    }
  }

  /** Decodes a match: copies from the position the table holds, then hashes up to the match start only. */
  method CopyMatch(b: seq<byte>, base: nat, destination: array<byte>, offset: array<int>, ghost x: seq<byte>,
        ghost toks: seq<Token>, ghost k: nat, ghost bits: seq<bool>, src: nat, dst: nat, last: int)
    returns (src': nat, dst': nat, last': int)
    requires Stream(b, base, x, toks) && offset.Length == HASH_VALUES
    requires Decoding(x, toks, base, destination[..], offset[..], k, bits, src, dst, last)
    requires |bits| > 1 && bits[0] && k < |toks| && src + 4 <= |b|
    modifies destination, offset
    ensures Decoding(x, toks, base, destination[..], offset[..], k + 1, bits[1..], src', dst', last')
    ensures dst < dst' && dst' + UNCOMPRESSED_END <= |x|
    ensures forall i :: |x| <= i < destination.Length ==> destination[i] == old(destination[i])
  {
    hide Greedy, Next, HashFunc, TableFor, LatestStart;
    ghost var t, was := toks[k], destination[..];
    assert bits[0] == IsMatch(toks, k + 0);
    GreedyAt(x, toks, k);
    assert TokenLaid(b, base + TokenOff(toks, k), t);
    var hash, matchlen;
    hash, matchlen, src' := ReadMatch(b, src, t);
    var offset2 := offset[hash];
    MatchSource(offset[..], x, toks, k, offset2);
    MemcpyUp(destination, dst, offset2, matchlen);
    dst' := dst + matchlen;
    CopiedMatch(x, was, destination[..], dst, offset2, matchlen);
    last' := UpdateHashUpto(offset, destination, last, dst' - matchlen);
    MatchHashed(old(offset[..]), destination[..], x, toks, k, last, dst);
    last' := dst' - 1;
    Advance(base, toks, k, bits, src);
  }

  /** The table entry of a match is a safe place to copy it from. */
  lemma {:induction false} MatchSource(offset: seq<int>, x: seq<byte>, toks: seq<Token>, k: nat, from: int)
    requires Greedy(x, toks) && k < |toks| && toks[k].Match? && toks[k].hash < HASH_VALUES
    requires TableFor(offset, x, toks[..Hashed(toks[..k])]) && from == offset[toks[k].hash]
    ensures 0 < from && from + 3 <= toks[k].at && toks[k].at + toks[k].len <= |x|
    ensures forall i :: toks[k].at <= i < toks[k].at + toks[k].len ==> x[i] == x[i - (toks[k].at - from)]
  {
    hide Greedy, Next, HashFunc, LatestStart, TableFor;
    var m := Hashed(toks[..k]);
    GreedyAt(x, toks, k);
    TableAgreement(x, toks[..k]);
    assert toks[..k][..m] == toks[..m];
    TableEntry(offset, x, toks[..m], toks[k].hash);
  }

  /** Hashing up to the start of a match brings the table up to date with the match itself. */
  lemma {:induction false} MatchHashed(offset: seq<int>, d: seq<byte>, x: seq<byte>, toks: seq<Token>, k: nat,
        last: int, dst: nat)
    requires Greedy(x, toks) && k < |toks| && toks[k].Match? && dst == toks[k].at
    requires last + 1 == End(toks[..Hashed(toks[..k])]) && TableFor(offset, x, toks[..Hashed(toks[..k])])
    requires dst + toks[k].len + UNCOMPRESSED_END <= |x| <= |d| && 3 <= toks[k].len &&
      forall i :: 0 <= i < dst + toks[k].len ==> d[i] == x[i]
    ensures -1 <= last <= dst - 1 && Hashed(toks[..k + 1]) == k + 1
    ensures TableFor(Rehash(offset, d, last, dst), x, toks[..k + 1])
  {
    hide Greedy, Next, HashFunc, LatestStart, TableFor, Rehash;
    var m := Hashed(toks[..k]);
    GreedyAt(x, toks, k);
    HashedEnd(x, toks[..k]);
    assert toks[..k][..m] == toks[..m];
    assert TableFor(offset, x, toks[..m]) ==> |offset| == HASH_VALUES by { TableSize(offset, x, toks[..m]); }
    forall j | m <= j < k + 1 ensures toks[j].at == last + 1 + (j - m) {
      if j < k { assert toks[..k][j].at == End(toks[..k]) - (k - j); }
    }
    RehashTable(offset, d, x, toks, m, k + 1, last, dst);
  }

  lemma {:induction false} TableSize(offset: seq<int>, x: seq<byte>, toks: seq<Token>)
    ensures TableFor(offset, x, toks) ==> |offset| == HASH_VALUES
  {
  }

  lemma {:induction false} TableEntry(offset: seq<int>, x: seq<byte>, toks: seq<Token>, h: nat)
    requires TableFor(offset, x, toks) && h < HASH_VALUES && LatestStart(x, toks, h) >= 0
    ensures offset[h] == LatestStart(x, toks, h)
  {
  }

  /** Where the input repeats itself, copying what is decoded so far decodes more of it. */
  lemma {:induction false} CopiedMatch(x: seq<byte>, was: seq<byte>, d: seq<byte>, dst: nat, from: nat, n: nat)
    requires from < dst && dst + n <= |x| <= |d| && |was| == |d|
    requires forall i :: 0 <= i < dst ==> was[i] == x[i]
    requires d[..dst + n] == CopyUp(was, dst, from, n)[..dst + n]
    requires forall i :: dst <= i < dst + n ==> x[i] == x[i - (dst - from)]
    ensures forall i :: 0 <= i < dst + n ==> d[i] == x[i]
  {
    CopyUpRepeats(was, dst, from, n);
    var r := CopyUp(was, dst, from, n);
    assert r[..dst] == x[..dst];
    RepeatsUnique(r, x, dst, dst - from, n);
    assert forall i :: 0 <= i < dst + n ==> d[i] == d[..dst + n][i] == r[..dst + n][i] == x[..dst + n][i];
  }

  /** While more than eleven bytes are missing, the next n literals are all there. */
  lemma {:induction false} LiteralsAhead(x: seq<byte>, toks: seq<Token>, k: nat, n: nat)
    requires Greedy(x, toks) && End(toks) == |x| && k <= |toks| && n <= 4 && End(toks[..k]) + 11 < |x|
    requires forall j :: k <= j < k + n ==> !IsMatch(toks, j)
    ensures k + n <= |toks| && End(toks[..k + n]) == End(toks[..k]) + n
    ensures forall j :: k <= j < k + n ==> toks[j].Literal? && toks[j].at == End(toks[..k]) + (j - k)
    ensures forall j :: k <= j < k + n ==> toks[j].value == x[toks[j].at]
    ensures TrailingLiterals(toks[..k + n]) == TrailingLiterals(toks[..k]) + n
  {
    hide Greedy;
    if n > 0 {
      LiteralsAhead(x, toks, k, n - 1);
      assert toks[..|toks|] == toks;
      var j := k + n - 1;
      assert !IsMatch(toks, j);
      GreedyAt(x, toks, j);
      assert toks[..k + n][..k + n - 1] == toks[..j];
    }
  }

  /** After n literals, hashing all positions whose three bytes are known leaves the same lag as before. */
  lemma {:induction false} LagShrinks(x: seq<byte>, toks: seq<Token>, k: nat, n: nat)
    requires Greedy(x, toks) && k + n <= |toks| && n > 0
    requires End(toks[..k + n]) == End(toks[..k]) + n
    requires forall j :: k <= j < k + n ==> toks[j].Literal? && toks[j].at == End(toks[..k]) + (j - k)
    requires TrailingLiterals(toks[..k + n]) == TrailingLiterals(toks[..k]) + n
    ensures var m, m', known := Hashed(toks[..k]), Hashed(toks[..k + n]), End(toks[..k + n]) - 3;
      && m <= m' <= k + n
      && var last, last' := End(toks[..m]) - 1, End(toks[..m']) - 1;
      && last' == (if last < known then known else last) && last' == last + (m' - m)
      && (m < m' ==> last' + 2 < End(toks[..k + n]))
      && forall j :: m <= j < m' ==> toks[j].at == last + 1 + (j - m)
  {
    hide Greedy;
    var m, m' := Hashed(toks[..k]), Hashed(toks[..k + n]);
    GreedyPrefix(x, toks, k);
    HashedEnd(x, toks[..k]);
    GreedyPrefix(x, toks, k + n);
    HashedEnd(x, toks[..k + n]);
    assert toks[..k][..m] == toks[..m] && toks[..k + n][..m'] == toks[..m'];
    forall j | m <= j < m' ensures toks[j].at == End(toks[..m]) + (j - m) {
      if j < k {
        assert toks[..k][j].at == End(toks[..k]) - (k - j);
      }
    }
  }

  /** Copies up to four literals with one 4-byte store, then hashes all positions whose bytes are known. */
  method CopyLiterals(b: seq<byte>, base: nat, destination: array<byte>, offset: array<int>, ghost x: seq<byte>,
        ghost toks: seq<Token>, ghost k: nat, ghost bits: seq<bool>, src: nat, dst: nat, last: int, cword: nat)
    returns (n: nat, last': int)
    requires Stream(b, base, x, toks) && offset.Length == HASH_VALUES
    requires Decoding(x, toks, base, destination[..], offset[..], k, bits, src, dst, last)
    requires |bits| > 1 && !bits[0] && cword == Num(bits) && src + 4 <= |b|
    requires dst + 11 < |x|
    modifies destination, offset
    ensures 1 <= n <= 4 && n < |bits| && k + n <= |toks| && ShiftRight(cword, n) == Num(bits[n..])
    ensures Decoding(x, toks, base, destination[..], offset[..], k + n, bits[n..], src + n, dst + n, last')
    ensures forall i :: |x| <= i < destination.Length ==> destination[i] == old(destination[i])
  {
    hide Greedy, HashFunc, TableFor, Num, LatestStart;
    n := BitLut(cword % 16);
    LiteralRun(bits);
    forall j | k <= j < k + n ensures !IsMatch(toks, j) {
      assert bits[j - k] == IsMatch(toks, k + (j - k));
    }
    LiteralsAhead(x, toks, k, n);
    AdvanceLiterals(base, toks, k, bits, src, n);
    destination[dst], destination[dst + 1], destination[dst + 2], destination[dst + 3] :=
      b[src], b[src + 1], b[src + 2], b[src + 3];
    LiteralsCopied(b, base, destination[..], x, toks, k, src, dst, n);
    LagShrinks(x, toks, k, n);
    last' := UpdateHashUpto(offset, destination, last, dst + n - 3);
    RehashTable(old(offset[..]), destination[..], x, toks, Hashed(toks[..k]), Hashed(toks[..k + n]), last, last');
  }

  lemma {:induction false} LiteralsCopied(b: seq<byte>, base: nat, d: seq<byte>, x: seq<byte>, toks: seq<Token>, k: nat,
        src: nat, dst: nat, n: nat)
    requires TokensLaid(b, base, toks) && k + n <= |toks| && n <= 4 && dst + 4 <= |d| && src + 4 <= |b| &&
      dst + n <= |x|
    requires d[dst] == b[src] && d[dst + 1] == b[src + 1] && d[dst + 2] == b[src + 2] && d[dst + 3] == b[src + 3]
    requires forall i :: 0 <= i < dst && i < |x| ==> d[i] == x[i]
    requires forall j :: k <= j < k + n ==>
      toks[j].Literal? && toks[j].at == dst + (j - k) && toks[j].value == x[toks[j].at]
    requires forall j :: k <= j < k + n ==> base + TokenOff(toks, j) == src + (j - k)
    ensures forall i :: 0 <= i < dst + n ==> d[i] == x[i]
  {
    forall i | dst <= i < dst + n ensures d[i] == x[i] {
      var j := k + (i - dst);
      assert TokenLaid(b, base + TokenOff(toks, j), toks[j]);
    }
  }

  /** The end of the output: literals one by one, stepping over control words without looking at them. */
  method CopyTail(b: seq<byte>, base: nat, destination: array<byte>, ghost offset: seq<int>, ghost x: seq<byte>,
        ghost toks: seq<Token>, ghost k0: nat, ghost bits0: seq<bool>, src0: nat, dst0: nat, ghost last: int,
        cword0: nat, size: nat)
    requires Stream(b, base, x, toks) && size == |x|
    requires Decoding(x, toks, base, destination[..], offset, k0, bits0, src0, dst0, last)
    requires cword0 == Num(bits0) && |bits0| > 1 && !bits0[0] && k0 < |toks| && |x| <= dst0 + 11
    modifies destination
    ensures last >= -1 && destination[..size] == x
    ensures forall i :: size <= i < destination.Length ==> destination[i] == old(destination[i])
  {
    hide Greedy, Num, TableFor;
    var src: nat, dst: nat, cword: nat := src0, dst0, cword0;
    ghost var k: nat, bits := k0, bits0;
    assert bits0[0] == IsMatch(toks, k0 + 0);
    assert toks[..|toks|] == toks;
    while dst < size
      invariant k0 <= k <= |toks| && dst == End(toks[..k]) <= |x|
      invariant forall i :: 0 <= i < dst ==> destination[i] == x[i]
      invariant forall i :: size <= i < destination.Length ==> destination[i] == old(destination[i])
      invariant Cursor(base, toks, k, bits, src) && cword == Num(bits)
    {
      NumEndsInOne(bits);
      if cword == 1 {
        src := src + CWORD_LEN;
        cword := 0x8000_0000;
        bits := Zeros(31) + [true];
        MarkerOnTop();
      }
      GreedyAt(x, toks, k);
      LiteralTail(x, toks, k0, k);
      assert TokenLaid(b, base + TokenOff(toks, k), toks[k]);
      destination[dst] := b[src];
      Advance(base, toks, k, bits, src);
      NumTail(bits, 0);
      assert bits[0..] == bits;
      dst, src, cword := dst + 1, src + 1, cword / 2;
      k, bits := k + 1, bits[1..];
    }
  }

  lemma {:induction false} MarkerOnTop()
    ensures Num(Zeros(31) + [true]) == 0x8000_0000
  {
    Pow2Values();
    NumPadded([], 31);
    assert [] + Zeros(31) == Zeros(31);
    NumSnoc(Zeros(31), true);
  }

  /** Reads the next control word when the current one is used up. */
  method NextWord(b: seq<byte>, base: nat, ghost d: seq<byte>, ghost offset: seq<int>, ghost x: seq<byte>,
        ghost toks: seq<Token>, ghost k: nat, ghost bits: seq<bool>, src: nat, ghost dst: nat, ghost last: int,
        cword: nat)
    returns (src': nat, cword': nat, ghost bits': seq<bool>)
    requires Stream(b, base, x, toks)
    requires Decoding(x, toks, base, d, offset, k, bits, src, dst, last)
    requires cword == Num(bits) && dst < |x| && (k == 0 || dst + UNCOMPRESSED_END <= |x|)
    ensures k < |toks| && cword' == Num(bits') && |bits'| > 1
    ensures Decoding(x, toks, base, d, offset, k, bits', src', dst, last)
    ensures src' + 4 <= |b| && (cword' % 2 == 1 <==> bits'[0]) && cword' / 2 == Num(bits'[1..])
  {
    hide Greedy, Num, TableFor;
    assert toks[..|toks|] == toks;
    NumEndsInOne(bits);
    src', cword', bits' := src, cword, bits;
    if cword == 1 {
      ReadWord(b, base, toks, k, bits, src);
      cword' := Le32(b, src);
      src' := src + CWORD_LEN;
      bits' := FlagBits(toks, k / GROUP);
    }
    WordAhead(b, base, x, toks, k, src');
    NumTail(bits', 0);
    assert bits'[0..] == bits';
  }

  /** Decodes a stream the compressor made: exactly x, whatever the table held, and nothing past it is written. */
  method DecompressCore(b: seq<byte>, base: nat, destination: array<byte>, size: nat, offset: array<int>,
        ghost x: seq<byte>, ghost toks: seq<Token>)
    returns (r: nat)
    requires Stream(b, base, x, toks) && size == |x| <= destination.Length && offset.Length == HASH_VALUES
    modifies destination, offset
    ensures r == size && destination[..size] == x
    ensures forall i :: size <= i < destination.Length ==> destination[i] == old(destination[i])
  {
    hide Decoding, Num;
    var src: nat, dst: nat, last: int, cword: nat := base, 0, -1, 1;
    ghost var k: nat, bits := 0, [true];
    DecodingStarts(x, toks, base, destination[..], offset[..]);
    while true
      invariant Decoding(x, toks, base, destination[..], offset[..], k, bits, src, dst, last)
      invariant cword == Num(bits) && dst < size
      invariant k == 0 || dst + UNCOMPRESSED_END <= size
      invariant forall i :: size <= i < destination.Length ==> destination[i] == old(destination[i])
      decreases size - dst
    {
      src, cword, bits := NextWord(b, base, destination[..], offset[..], x, toks, k, bits, src, dst, last, cword);
      if cword % 2 == 1 {
        cword := cword / 2;
        src, dst, last := CopyMatch(b, base, destination, offset, x, toks, k, bits, src, dst, last);
        k, bits := k + 1, bits[1..];
      } else if dst < size - 1 - UNCONDITIONAL_MATCHLEN - UNCOMPRESSED_END {
        var n;
        n, last := CopyLiterals(b, base, destination, offset, x, toks, k, bits, src, dst, last, cword);
        cword, dst, src := ShiftRight(cword, n), dst + n, src + n;
        k, bits := k + n, bits[n..];
      } else {
        CopyTail(b, base, destination, offset[..], x, toks, k, bits, src, dst, last, cword, size);
        var _ := UpdateHashUpto(offset, destination, last, size - 1 - 3);
        return size;
      }
    }
  }

  lemma {:induction false} DecodingStarts(x: seq<byte>, toks: seq<Token>, base: nat, d: seq<byte>, offset: seq<int>)
    requires |x| <= |d| && |offset| == HASH_VALUES
    ensures Decoding(x, toks, base, d, offset, 0, [true], base, 0, -1)
    ensures Num([true]) == 1
  {
    assert toks[..0] == [];
    assert Num([true][1..]) == 0;
  }

  /** A 4-byte load at the next token stays inside the stream. */
  lemma {:induction false} WordAhead(b: seq<byte>, base: nat, x: seq<byte>, toks: seq<Token>, k: nat, src: nat)
    requires Stream(b, base, x, toks) && k < |toks| && src == base + TokenOff(toks, k)
    requires k == 0 || End(toks[..k]) + UNCOMPRESSED_END <= |x|
    ensures src + 4 <= |b|
  {
    hide Greedy;
    if k > 0 {
      InputLeft(x, toks, k);
    }
  }
}
