/** The level 1 compressor core: hash table with cached words, control word register, output buffer. */
module QlzCompress {
  import opened Bytes
  import opened QlzTokens
  import opened QlzLayout
  import opened QlzBound

  datatype HashEntry = HashEntry(cache: uint32, offset: uint32)

  /** Empties the table; the cached words stay, since offset 0 alone marks an unused entry. */
  method ResetTable(hash: array<HashEntry>)
    requires hash.Length == HASH_VALUES
    modifies hash
    ensures forall h :: 0 <= h < HASH_VALUES ==> hash[h].offset == 0 && hash[h].cache == old(hash[h].cache)
  {
    for i := 0 to HASH_VALUES
      invariant forall h :: 0 <= h < HASH_VALUES ==>
        hash[h] == if h < i then old(hash[h]).(offset := 0) else old(hash[h])
    {
      hash[i] := hash[i].(offset := 0);
    }
  }

  // ----- The table -----

  /** The table remembers the latest token start of every bucket and the four bytes found there. */
  ghost predicate TableFor(hash: seq<HashEntry>, x: seq<byte>, toks: seq<Token>)
  {
    && |hash| == HASH_VALUES
    && forall h :: 0 <= h < HASH_VALUES ==> EntryFor(hash[h], x, toks, h)
  }

  ghost predicate EntryFor(e: HashEntry, x: seq<byte>, toks: seq<Token>, h: nat)
  {
    var o := LatestStart(x, toks, h);
    && e.offset == (if o < 0 then 0 else o)
    && (o > 0 ==> o + 4 <= |x| && e.cache == Le32(x, o))
  }

  lemma {:induction false} TableSnoc(hash: seq<HashEntry>, x: seq<byte>, toks: seq<Token>, t: Token)
    requires TableFor(hash, x, toks) && t.at + 4 <= |x| && t.at < 0x1_0000_0000
    ensures TableFor(hash[HashAt(x, t.at) := HashEntry(Le32(x, t.at), t.at)], x, toks + [t])
  {
    hide HashFunc;
    assert (toks + [t])[..|toks|] == toks;
    assert forall h :: 0 <= h < HASH_VALUES ==> EntryFor(hash[h], x, toks, h);
  }

  /** The xor of two words is zero, or zero in its low three bytes, exactly when they agree there. */
  lemma {:induction false} XorZero(a: nat, b: nat)
    ensures Xor(a, b) == 0 <==> a == b
    decreases a + b
  {
    if a != 0 || b != 0 { XorZero(a / 2, b / 2); }
  }

  lemma {:induction false} CachedMeaning(x: seq<byte>, o: nat, p: nat)
    requires o + 4 <= |x| && p + 4 <= |x|
    ensures Xor(Le32(x, p), Le32(x, o)) % 0x100_0000 == 0 <==> SameThree(x, o, p)
    ensures Xor(Le32(x, p), Le32(x, o)) == 0 <==> SameThree(x, o, p) && x[o + 3] == x[p + 3]
  {
    hide Xor;
    var a, b := Le32(x, p), Le32(x, o);
    Pow2Values();
    XorLowBits(a, b, 24);
    XorZero(a % 0x100_0000, b % 0x100_0000);
    XorZero(a, b);
    LowThree(x, p);
    LowThree(x, o);
    ThreeBytes(x[p], x[p + 1], x[p + 2], x[o], x[o + 1], x[o + 2]);
  }

  lemma {:induction false} LowThree(x: seq<byte>, p: nat)
    requires p + 4 <= |x|
    ensures Le32(x, p) % 0x100_0000 == x[p] as int + 0x100 * (x[p + 1] as int) + 0x1_0000 * (x[p + 2] as int)
  {
  }

  lemma {:induction false} ThreeBytes(a0: int, a1: int, a2: int, b0: int, b1: int, b2: int)
    requires 0 <= a0 < 256 && 0 <= a1 < 256 && 0 <= b0 < 256 && 0 <= b1 < 256
    ensures a0 + 0x100 * a1 + 0x1_0000 * a2 == b0 + 0x100 * b1 + 0x1_0000 * b2 <==> a0 == b0 && a1 == b1 && a2 == b2
  {
  }

  // ----- The control word register -----

  /** The register with tokens 31g.. shifted in from the top; the marker bit travels below them. */
  ghost function Register(toks: seq<Token>, g: nat): (bits: seq<bool>)
    requires GROUP * g <= |toks| <= GROUP * g + GROUP
    ensures |bits| == 32
  {
    var j := |toks| - GROUP * g;
    Zeros(GROUP - j) + [true] + Flags(toks, g, j)
  }

  ghost function Flags(toks: seq<Token>, g: nat, j: nat): (bits: seq<bool>)
    ensures |bits| == j && forall i :: 0 <= i < j ==> bits[i] == IsMatch(toks, GROUP * g + i)
  {
    seq(j, i requires 0 <= i => IsMatch(toks, GROUP * g + i))
  }

  lemma {:induction false} RegisterEmpty(toks: seq<Token>, g: nat)
    requires |toks| == GROUP * g
    ensures Num(Register(toks, g)) == 0x8000_0000
  {
    Pow2Values();
    assert Register(toks, g) == Zeros(31) + [true];
    NumSnoc(Zeros(31), true);
    NumPadded([], 31);
    assert [] + Zeros(31) == Zeros(31);
  }

  /** Shifting right and setting the top bit for a match is how a token enters the register. */
  lemma {:induction false} RegisterSnoc(toks: seq<Token>, g: nat, t: Token)
    requires GROUP * g <= |toks| < GROUP * g + GROUP
    ensures Num(Register(toks + [t], g)) == Num(Register(toks, g)) / 2 + (if t.Match? then 0x8000_0000 else 0)
  {
    Pow2Values();
    var r, r' := Register(toks, g), Register(toks + [t], g);
    assert r' == r[1..] + [t.Match?];
    assert !r[0];
    NumSnoc(r[1..], t.Match?);
  }

  lemma {:induction false} RegisterFullIffOdd(toks: seq<Token>, g: nat)
    requires GROUP * g <= |toks| <= GROUP * g + GROUP
    ensures Num(Register(toks, g)) % 2 == 1 <==> |toks| == GROUP * g + GROUP
  {
    hide Num;
    var r := Register(toks, g);
    assert r[0] <==> |toks| == GROUP * g + GROUP;
    assert r == [r[0]] + r[1..];
    NumCons(r[0], r[1..]);
  }

  /** Once the marker is at the bottom, one more shift with a set top bit gives the control word. */
  lemma {:induction false} RegisterDone(toks: seq<Token>, g: nat)
    requires GROUP * g <= |toks| <= GROUP * g + GROUP
    ensures var j := |toks| - GROUP * g;
      Num([true] + Flags(toks, g, j)) / 2 + 0x8000_0000 == Num(FlagBits(toks, g))
  {
    var j := |toks| - GROUP * g;
    var f := Flags(toks, g, j);
    NumCons(true, f);
    Pow2Values();
    NumPadded(f, GROUP - j);
    NumSnoc(f + Zeros(GROUP - j), true);
    assert FlagBits(toks, g) == f + Zeros(GROUP - j) + [true];
  }

  // ----- The output -----

  /** A 4-byte store. */
  method Store32(a: array<byte>, at: nat, w: uint32)
    requires at + 4 <= a.Length
    modifies a
    ensures Le32(a[..], at) == w
    ensures forall i :: 0 <= i < a.Length && !(at <= i < at + 4) ==> a[i] == old(a[i])
  {
    var s := Le32Bytes(w);
    a[at], a[at + 1], a[at + 2], a[at + 3] := s[0], s[1], s[2], s[3];
  }

  /**
   Writes a match: length and hash share two bytes when the length is under 18, and a third byte
   holds it otherwise. The long form is one 4-byte store, whose last byte is overwritten later.
   */
  method EmitMatch(a: array<byte>, dst: nat, ghost at: nat, hash: nat, matchlen: nat) returns (next: nat)
    requires dst + 4 <= a.Length && hash < HASH_VALUES && 3 <= matchlen <= 255
    modifies a
    ensures next == dst + Size(Match(at, hash, matchlen))
    ensures TokenLaid(a[..], dst, Match(at, hash, matchlen))
    ensures forall i :: 0 <= i < a.Length && !(dst <= i < dst + 4) ==> a[i] == old(a[i])
  {
    if matchlen < 18 {
      var f := matchlen - 2 + 16 * hash;
      a[dst], a[dst + 1] := f % 0x100, f / 0x100;
      next := dst + 2;
    } else {
      var f := 0x1_0000 * matchlen + 16 * hash;
      Store32(a, dst, f);
      next := dst + 3;
    }
  }

  /**
   The output while group g is being filled: tokens and finished control words are in place,
   the word of group g is still in the register.
   */
  ghost predicate Filling(d: seq<byte>, base: nat, toks: seq<Token>, g: nat, cwordPtr: nat, dst: nat, cword: nat)
  {
    && GROUP * g <= |toks| <= GROUP * g + GROUP
    && cwordPtr == base + WordOff(toks, g)
    && dst == base + CWORD_LEN * (g + 1) + Sizes(toks, |toks|)
    && cword == Num(Register(toks, g))
    && TokensLaid(d, base, toks)
    && WordsLaid(d, base, toks, g)
  }

  lemma {:induction false} FillingSnoc(d: seq<byte>, d': seq<byte>, base: nat, toks: seq<Token>, t: Token, g: nat,
        cwordPtr: nat, dst: nat, cword: nat)
    requires Filling(d, base, toks, g, cwordPtr, dst, cword) && |toks| < GROUP * g + GROUP
    requires |d| == |d'| && forall i :: 0 <= i < dst && i < |d| ==> d'[i] == d[i]
    requires TokenLaid(d', dst, t)
    ensures Filling(d', base, toks + [t], g, cwordPtr, dst + Size(t), cword / 2 + if t.Match? then 0x8000_0000 else 0)
  {
    hide Num, Register, FlagBits;
    LaidFrame(d, d', base, toks, g);
    LaidSnoc(d', base, toks, t, g);
    RegisterSnoc(toks, g, t);
    SizesPrefix(toks, t, |toks|);
    SizesPrefix(toks, t, GROUP * g);
  }

  /** Writing the word of a finished (or last) group. */
  method CloseGroup(destination: array<byte>, base: nat, ghost toks: seq<Token>, ghost g: nat, cwordPtr: nat, dst: nat,
        word: uint32)
    requires GROUP * g <= |toks| <= GROUP * g + GROUP && g < Words(|toks|)
    requires cwordPtr == base + WordOff(toks, g) && cwordPtr + 4 <= destination.Length
    requires word == Num(FlagBits(toks, g))
    requires TokensLaid(destination[..], base, toks) && WordsLaid(destination[..], base, toks, g)
    modifies destination
    ensures TokensLaid(destination[..], base, toks) && WordsLaid(destination[..], base, toks, g + 1)
    ensures forall i :: 0 <= i < base ==> destination[i] == old(destination[i])
  {
    ghost var before := destination[..];
    Store32(destination, cwordPtr, word);
    WordFrame(before, destination[..], base, toks, g);
  }

  // ----- The core -----

  /** Are the n bytes after p equal to the byte at p? */
  method Same(x: seq<byte>, p: nat, n: nat) returns (yes: bool)
    requires p + n < |x|
    ensures yes == IsRun(x, p, n)
  {
    var k := n;
    while k > 0 && x[p + k] == x[p]
      invariant 0 <= k <= n
      invariant forall i :: p + k < i <= p + n ==> x[i] == x[p]
    {
      k := k - 1;
    }
    yes := k == 0;
  }

  /** Length of a match of at least four bytes, found by testing byte after byte. */
  method MatchLength(x: seq<byte>, o: nat, p: nat) returns (n: nat)
    requires o < p && p + 11 <= |x| && SameThree(x, o, p) && x[o + 3] == x[p + 3]
    ensures n == Extend(x, o, p, 3) && n >= 4
  {
    hide Extend;
    n := 4;
    if x[o + 4] == x[p + 4] {
      n := 5;
      if x[o + 5] == x[p + 5] {
        var q := |x| - 1 - UNCOMPRESSED_END - p + 1;
        var remaining := if q > 255 then 255 else q;
        n := 6;
        while x[o + n] == x[p + n] && n < remaining
          invariant 6 <= n <= remaining == LongestMatch(x, p)
          invariant forall i :: p + 3 <= i < p + n ==> x[i] == x[i - (p - o)]
        {
          n := n + 1;
        }
      }
    }
    ExtendUnique(x, o, p, 3, n);
  }

  /**
   Looks the current word up in the table, enters the current position, and decides whether to
   take the position found; o is 0 for an unused entry.
   */
  method Probe(hash: array<HashEntry>, x: seq<byte>, ghost toks: seq<Token>, src: nat, fetch: uint32, lits: nat)
    returns (h: nat, o: nat, take: bool, four: bool)
    requires src == End(toks) && src + 11 <= |x| < 0x1_0000_0000
    requires fetch == Le32(x, src) && lits == TrailingLiterals(toks)
    requires Greedy(x, toks) && TableFor(hash[..], x, toks)
    modifies hash
    ensures h == HashAt(x, src)
    ensures take == Accepts(x, toks, LatestStart(x, toks, h))
    ensures take ==> o == LatestStart(x, toks, h) && (four <==> x[o + 3] == x[src + 3])
    ensures hash[..] == old(hash[..])[h := HashEntry(fetch, src)]
  {
    hide HashFunc, Greedy;
    h := HashFunc(fetch);
    HashIgnoresFourthByte(x, src);
    var cached := Xor(fetch, hash[h].cache);
    o := hash[h].offset;
    assert EntryFor(hash[..][h], x, toks, h);
    hash[h] := HashEntry(fetch, src);
    four := cached == 0;
    if o != 0 {
      LatestBefore(x, toks, h);
      CachedMeaning(x, o, src);
    }
    take := cached % 0x100_0000 == 0 && o != 0;
    if take && !(src - o > MINOFFSET) {
      take := src == o + 1 && lits >= 3 && src > 3;
      if take {
        take := Same(x, src - 3, 6);
      }
    }
  }

  lemma {:induction false} LatestBefore(x: seq<byte>, toks: seq<Token>, h: nat)
    requires Greedy(x, toks)
    ensures LatestStart(x, toks, h) < End(toks) || toks == []
  {
    hide Next, HashAt;
    if toks != [] {
      LatestBefore(x, toks[..|toks| - 1], h);
    }
  }

  /** Everything the two loops of the core keep true between tokens. */
  ghost predicate Running(x: seq<byte>, d: seq<byte>, base: nat, toks: seq<Token>, g: nat, src: nat, cwordPtr: nat,
        dst: nat, cword: nat)
  {
    && Greedy(x, toks) && NeverGaveUp(x, toks)
    && src == End(toks)
    && |d| >= |x| + 400 && base <= 9
    && Filling(d, base, toks, g, cwordPtr, dst, cword)
  }

  /** There is always room for one more control word and one more token. */
  lemma {:induction false} Room(x: seq<byte>, d: seq<byte>, base: nat, toks: seq<Token>, g: nat, src: nat,
        cwordPtr: nat, dst: nat, cword: nat)
    requires Running(x, d, base, toks, g, src, cwordPtr, dst, cword)
    ensures cwordPtr + 4 <= dst && dst + 8 <= |d|
  {
    hide Greedy, NeverGaveUp, TokensLaid, WordsLaid, Register, Num;
    UsedBound(x, toks);
    SizesMonotone(toks, GROUP * g, |toks|);
  }

  /** One token: the body of the main loop after the control word has been dealt with. */
  method EmitToken(x: seq<byte>, destination: array<byte>, base: nat, hash: array<HashEntry>, ghost toks: seq<Token>,
        ghost g: nat, src: nat, ghost cwordPtr: nat, dst: nat, cword: uint32, lits: nat, fetch: uint32)
    returns (src': nat, dst': nat, cword': uint32, lits': nat, ghost t: Token)
    requires |x| < 0x1_0000_0000 && src + 11 <= |x| && fetch == Le32(x, src) && lits == TrailingLiterals(toks)
    requires TableFor(hash[..], x, toks)
    requires Running(x, destination[..], base, toks, g, src, cwordPtr, dst, cword)
    requires |toks| < GROUP * g + GROUP && !GivesUp(x, toks)
    modifies destination, hash
    ensures t == Next(x, toks)
    ensures TableFor(hash[..], x, toks + [t])
    ensures lits' == TrailingLiterals(toks + [t])
    ensures Running(x, destination[..], base, toks + [t], g, src', cwordPtr, dst', cword')
    ensures forall i :: 0 <= i < base ==> destination[i] == old(destination[i])
  {
    hide Greedy, HashFunc, Num, Register, TokensLaid, WordsLaid, TableFor;
    Room(x, destination[..], base, toks, g, src, cwordPtr, dst, cword);
    ghost var d, table := destination[..], hash[..];
    var h, o, take, four := Probe(hash, x, toks, src, fetch, lits);
    t := Next(x, toks);
    if take {
      var n := 3;
      if four {
        n := MatchLength(x, o, src);
      }
      dst' := EmitMatch(destination, dst, src, h, n);
      cword' := cword / 2 + 0x8000_0000;
      src', lits' := src + n, 0;
    } else {
      destination[dst] := x[src];
      dst', cword' := dst + 1, cword / 2;
      src', lits' := src + 1, lits + 1;
    }
    TableSnoc(table, x, toks, t);
    FillingSnoc(d, destination[..], base, toks, t, g, cwordPtr, dst, cword);
    GreedySnoc(x, toks);
    NeverGaveUpSnoc(x, toks, t);
    assert (toks + [t])[..|toks|] == toks;
  }

  /** Starts a new control word when the current one is full. */
  method OpenGroup(x: seq<byte>, destination: array<byte>, base: nat, ghost toks: seq<Token>, ghost g: nat,
        ghost src: nat, cwordPtr: nat, dst: nat, cword: uint32)
    returns (cwordPtr': nat, dst': nat, cword': uint32, ghost g': nat)
    requires Running(x, destination[..], base, toks, g, src, cwordPtr, dst, cword)
    requires g < Words(|toks|)
    modifies destination
    ensures Running(x, destination[..], base, toks, g', src, cwordPtr', dst', cword')
    ensures |toks| < GROUP * g' + GROUP && g' < Words(|toks| + 1)
    ensures forall i :: 0 <= i < base ==> destination[i] == old(destination[i])
  {
    hide Greedy, NeverGaveUp, TokensLaid, WordsLaid, Num, Register;
    Room(x, destination[..], base, toks, g, src, cwordPtr, dst, cword);
    RegisterFullIffOdd(toks, g);
    if cword % 2 == 1 {
      RegisterDone(toks, g);
      FullRegister(toks, g);
      CloseGroup(destination, base, toks, g, cwordPtr, dst, cword / 2 + 0x8000_0000);
      g' := g + 1;
      RegisterEmpty(toks, g');
      cwordPtr', dst', cword' := dst, dst + CWORD_LEN, 0x8000_0000;
    } else {
      cwordPtr', dst', cword', g' := cwordPtr, dst, cword, g;
    }
  }

  lemma {:induction false} FullRegister(toks: seq<Token>, g: nat)
    requires |toks| == GROUP * g + GROUP
    ensures Register(toks, g) == [true] + Flags(toks, g, GROUP)
  {
  }

  /** Shifts out the unused positions of the last control word and writes it. */
  method CloseLast(x: seq<byte>, destination: array<byte>, base: nat, ghost toks: seq<Token>, ghost g: nat,
        ghost src: nat, cwordPtr: nat, dst: nat, cword: uint32)
    requires Running(x, destination[..], base, toks, g, src, cwordPtr, dst, cword)
    requires g + 1 == Words(|toks|)
    modifies destination
    ensures Coded(destination[..], base, toks)
    ensures forall i :: 0 <= i < base ==> destination[i] == old(destination[i])
  {
    hide Greedy, NeverGaveUp, TokensLaid, WordsLaid, FlagBits;
    Room(x, destination[..], base, toks, g, src, cwordPtr, dst, cword);
    ghost var bottom := [true] + Flags(toks, g, |toks| - GROUP * g);
    ghost var left := GROUP - (|toks| - GROUP * g);
    var w := cword;
    assert Register(toks, g) == Zeros(left) + bottom;
    while w % 2 != 1
      invariant 0 <= left && w == Num(Zeros(left) + bottom) && w < 0x1_0000_0000
      decreases left
      modifies {}
    {
      LowestBit(left, bottom);
      w := w / 2;
      left := left - 1;
    }
    LowestBit(left, bottom);
    RegisterDone(toks, g);
    assert destination[..] == old(destination[..]);
    CloseGroup(destination, base, toks, g, cwordPtr, dst, w / 2 + 0x8000_0000);
  }

  lemma {:induction false} LowestBit(n: nat, bottom: seq<bool>)
    requires bottom != [] && bottom[0]
    ensures Num(Zeros(n) + bottom) % 2 == 1 <==> n == 0
    ensures n == 0 ==> Num(Zeros(n) + bottom) == Num(bottom)
    ensures n > 0 ==> Num(Zeros(n) + bottom) / 2 == Num(Zeros(n - 1) + bottom)
  {
    hide Num;
    if n == 0 {
      assert Zeros(n) + bottom == bottom;
      assert bottom == [true] + bottom[1..];
      NumCons(true, bottom[1..]);
    } else {
      assert Zeros(n) + bottom == [false] + (Zeros(n - 1) + bottom);
      NumCons(false, Zeros(n - 1) + bottom);
    }
  }

  /** The last bytes: literals, whatever the table holds. */
  method EmitTail(x: seq<byte>, destination: array<byte>, base: nat, hash: array<HashEntry>, ghost toks0: seq<Token>,
        ghost g0: nat, src0: nat, cwordPtr0: nat, dst0: nat, cword0: uint32)
    returns (cwordPtr: nat, dst: nat, cword: uint32, ghost toks: seq<Token>, ghost g: nat)
    requires |x| < 0x1_0000_0000 && hash.Length == HASH_VALUES
    requires src0 <= |x| < src0 + 11
    requires Running(x, destination[..], base, toks0, g0, src0, cwordPtr0, dst0, cword0) && g0 + 1 == Words(|toks0|)
    modifies destination, hash
    ensures Running(x, destination[..], base, toks, g, |x|, cwordPtr, dst, cword) && g + 1 == Words(|toks|)
    ensures forall i :: 0 <= i < base ==> destination[i] == old(destination[i])
  {
    hide Greedy, NeverGaveUp, TokensLaid, WordsLaid, Num, Register, HashFunc;
    var src := src0;
    cwordPtr, dst, cword, toks, g := cwordPtr0, dst0, cword0, toks0, g0;
    while src < |x|
      invariant src <= |x| < src + 11
      invariant Running(x, destination[..], base, toks, g, src, cwordPtr, dst, cword) && g + 1 == Words(|toks|)
      invariant forall i :: 0 <= i < base ==> destination[i] == old(destination[i])
    {
      cwordPtr, dst, cword, g := OpenGroup(x, destination, base, toks, g, src, cwordPtr, dst, cword);
      if src + 4 <= |x| {
        var fetch := Le32(x, src);
        hash[HashFunc(fetch)] := HashEntry(fetch, src);
      }
      Room(x, destination[..], base, toks, g, src, cwordPtr, dst, cword);
      ghost var d, t := destination[..], Next(x, toks);
      destination[dst] := x[src];
      FillingSnoc(d, destination[..], base, toks, t, g, cwordPtr, dst, cword);
      GreedySnoc(x, toks);
      NeverGaveUpSnoc(x, toks, t);
      toks := toks + [t];
      src, dst, cword := src + 1, dst + 1, cword / 2;
    }
  }

  /**
   Codes x behind the first base bytes of the destination. The result is 0 exactly when the
   compressor gave up; otherwise the destination holds the coded form of the parse of x.
   */
  method CompressCore(x: seq<byte>, destination: array<byte>, base: nat, hash: array<HashEntry>)
    returns (r: nat, ghost toks: seq<Token>)
    requires 0 < |x| < 0x1_0000_0000 && base <= 9 && destination.Length >= |x| + 400
    requires hash.Length == HASH_VALUES && forall h :: 0 <= h < HASH_VALUES ==> hash[h].offset == 0
    modifies destination, hash
    ensures Greedy(x, toks) && NeverGaveUp(x, toks)
    ensures r == 0 <==> GivesUp(x, toks)
    ensures r != 0 ==> End(toks) == |x| && Coded(destination[..], base, toks)
    ensures r != 0 ==> r == if Used(toks, |toks|) < 9 then 9 else Used(toks, |toks|)
    ensures forall i :: 0 <= i < base ==> destination[i] == old(destination[i])
  {
    hide Greedy, NeverGaveUp, Num, Register, HashFunc, TokensLaid, WordsLaid, TableFor;
    var src: nat, cwordPtr: nat, dst: nat, cword: uint32, lits: nat := 0, base, base + CWORD_LEN, 0x8000_0000, 0;
    var fetch := 0;
    toks := [];
    ghost var g := 0;
    Started(x, destination[..], base, hash[..]);
    if src + 11 <= |x| {
      fetch := Le32(x, src);
    }
    while src + 11 <= |x|
      invariant src <= |x|
      invariant src + 11 <= |x| ==> fetch == Le32(x, src)
      invariant lits == TrailingLiterals(toks)
      invariant TableFor(hash[..], x, toks)
      invariant Running(x, destination[..], base, toks, g, src, cwordPtr, dst, cword) && g + 1 == Words(|toks|)
      invariant forall i :: 0 <= i < base ==> destination[i] == old(destination[i])
    {
      RegisterFullIffOdd(toks, g);
      if cword % 2 == 1 && src > |x| / 2 && dst - base > src - src / 32 {
        return 0, toks;
      }
      assert !GivesUp(x, toks);
      ghost var g', t;
      cwordPtr, dst, cword, g' := OpenGroup(x, destination, base, toks, g, src, cwordPtr, dst, cword);
      src, dst, cword, lits, t :=
        EmitToken(x, destination, base, hash, toks, g', src, cwordPtr, dst, cword, lits, fetch);
      toks, g := toks + [t], g';
      assert t.at + t.Span() + 4 <= |x|;
      fetch := Le32(x, src);
    }
    cwordPtr, dst, cword, toks, g := EmitTail(x, destination, base, hash, toks, g, src, cwordPtr, dst, cword);
    CloseLast(x, destination, base, toks, g, |x|, cwordPtr, dst, cword);
    r := if dst - base < 9 then 9 else dst - base;
  }

  lemma {:induction false} Started(x: seq<byte>, d: seq<byte>, base: nat, hash: seq<HashEntry>)
    requires |d| >= |x| + 400 && base <= 9
    requires |hash| == HASH_VALUES && forall h :: 0 <= h < HASH_VALUES ==> hash[h].offset == 0
    ensures TableFor(hash, x, [])
    ensures Running(x, d, base, [], 0, 0, base, base + CWORD_LEN, 0x8000_0000)
  {
    RegisterEmpty([], 0);
  }
}
