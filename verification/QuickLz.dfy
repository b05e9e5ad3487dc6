/** The QuickLZ interface: header bytes, size readers, compress, decompress, and the round trip. */
module QuickLz {
  import opened Bytes
  import opened QlzTokens
  import opened QlzLayout
  import opened QlzBound
  import opened QlzRatio
  import C = QlzCompress
  import D = QlzDecompress

  const MAX_SIZE: nat := 0xffff_ffff - 400

  // ----- The packed form -----

  function BaseFor(size: nat): nat { if size < 216 then 3 else 9 }

  /** Header of a packed string: flags, packed size, unpacked size; both sizes in one byte or in four. */
  predicate HeaderOk(b: seq<byte>, size: nat, coded: bool)
  {
    && |b| >= 12
    && b[0] == 68 + (if size < 216 then 0 else 2) + (if coded then 1 else 0)
    && if size < 216 then b[1] == |b| && b[2] == size
       else Le32(b, 1) == |b| && Le32(b, 5) == size
  }

  /** b is the packed form of x whose parse is toks: coded, or the bytes of x themselves where coding gave up. */
  ghost predicate PackedAs(b: seq<byte>, x: seq<byte>, toks: seq<Token>)
  {
    var base := BaseFor(|x|);
    && Greedy(x, toks) && NeverGaveUp(x, toks)
    && HeaderOk(b, |x|, !GivesUp(x, toks))
    && if GivesUp(x, toks) then |b| == base + |x| && b[base..] == x
       else D.Stream(b, base, x, toks) && |b| == base + if Used(toks, |toks|) < 9 then 9 else Used(toks, |toks|)
  }

  ghost predicate Packed(b: seq<byte>, x: seq<byte>) { exists toks :: PackedAs(b, x, toks) }

  lemma {:induction false} PackedLength(b: seq<byte>, x: seq<byte>)
    requires Packed(b, x)
    ensures |b| >= 12
  {
    hide Greedy;
  }

  // ----- How small it is -----

  lemma {:induction false} SteadyPacked(b: seq<byte>, x: seq<byte>, toks: seq<Token>, n: nat)
    requires PackedAs(b, x, toks) && Steady(x, toks, n) && 3 * n <= |x|
    ensures |b| <= |x| / 32 + n + n / 7 + 35
  {
    hide Greedy, Steady, NeverGaveUp, GivesUp, D.Stream;
    SteadySize(x, toks, n);
    SteadyKept(x, toks, n);
  }

  /** A string of equal bytes packs to about a 32nd of its size, or less, and a few bytes. */
  lemma {:induction false} RunShrinks(b: seq<byte>, x: seq<byte>)
    requires Packed(b, x) && Uniform(x)
    ensures |b| <= |x| / 32 + 40
  {
    hide Greedy, NeverGaveUp, Uniform, D.Stream;
    var toks :| PackedAs(b, x, toks);
    UniformParse(x, toks);
    if |x| >= 12 { SteadyPacked(b, x, toks, 4); } else { UsedBound(x, toks); }
  }

  /** So does a block of three or more bytes repeated three times or more, apart from the block itself. */
  lemma {:induction false} BlockShrinks(b: seq<byte>, x: seq<byte>, d: nat)
    requires Packed(b, x) && d >= 3 && Periodic(x, d) && Spread(x, d) && 3 * (d + 1) <= |x|
    ensures |b| <= |x| / 32 + d + d / 7 + 40
  {
    hide Greedy, NeverGaveUp, Periodic, Spread, D.Stream;
    var toks :| PackedAs(b, x, toks);
    PeriodicParse(x, toks, d);
    SteadyPacked(b, x, toks, d + 1);
  }

  /** The three windows of a block of three bytes share a bucket. */
  predicate Colliding(x: seq<byte>)
  {
    |x| >= 5 && HashAt(x, 0) == HashAt(x, 1) == HashAt(x, 2)
  }

  /**
   A repeated block of three bytes shrinks if and only if the hash tells one of its windows from the others, or the
   three bytes are equal; otherwise the windows hide each other and the packed form is longer than the string.
   */
  lemma {:induction false} TripleShrinksIff(b: seq<byte>, x: seq<byte>)
    requires Packed(b, x) && Periodic(x, 3) && |x| >= 48
    ensures |b| <= |x| / 32 + 44 <==> Uniform(x) || !Colliding(x)
    ensures !Uniform(x) && Colliding(x) ==> |b| > |x|
  {
    hide Greedy, NeverGaveUp, Uniform, Periodic, HashAt;
    var toks :| PackedAs(b, x, toks);
    if Uniform(x) {
      RunShrinks(b, x);
    } else if Colliding(x) {
      CollidingParse(x, toks);
      LiteralsSize(x, toks);
    } else if HashAt(x, 0) == HashAt(x, 1) {
      LoneParse(x, toks, 2);
      SteadyPacked(b, x, toks, 5);
    } else if HashAt(x, 1) == HashAt(x, 2) {
      LoneParse(x, toks, 0);
      SteadyPacked(b, x, toks, 6);
    } else if HashAt(x, 0) == HashAt(x, 2) {
      LoneParse(x, toks, 1);
      SteadyPacked(b, x, toks, 4);
    } else {
      assert Spread(x, 3);
      BlockShrinks(b, x, 3);
    }
  }

  lemma {:induction false} LiteralsSize(x: seq<byte>, toks: seq<Token>)
    requires Greedy(x, toks) && forall k :: 0 <= k < |toks| ==> toks[k].Literal?
    ensures Used(toks, |toks|) >= End(toks) + 4
  {
    hide Greedy;
    assert Steady(x, toks, |toks|);
    assert toks[..|toks|] == toks;
    FirstAt(x, toks, |toks|, |toks|);
  }

  /** Three bytes over and over. */
  function Triples(n: nat, a: byte, b: byte, c: byte): (x: seq<byte>)
    ensures |x| == n && forall i :: 0 <= i < n ==> x[i] == (if i % 3 == 0 then a else if i % 3 == 1 then b else c)
  {
    seq(n, i => if i % 3 == 0 then a else if i % 3 == 1 then b else c)
  }

  lemma {:induction false} TriplesRepeat(n: nat, a: byte, b: byte, c: byte)
    requires n >= 5 && a != b
    ensures Periodic(Triples(n, a, b, c), 3) && !Uniform(Triples(n, a, b, c))
  {
    var x := Triples(n, a, b, c);
    assert x[0] == a && x[1] == b;
  }

  lemma {:induction false} TripleWindows(n: nat, a: byte, b: byte, c: byte)
    requires n >= 5
    ensures var x := Triples(n, a, b, c);
      && HashAt(x, 0) == Xor(b / 16 + 16 * c as int, a + 0x100 * (b % 16) as int)
      && HashAt(x, 1) == Xor(c / 16 + 16 * a as int, b + 0x100 * (c % 16) as int)
      && HashAt(x, 2) == Xor(a / 16 + 16 * b as int, c + 0x100 * (a % 16) as int)
  {
    hide HashAt, Xor;
    var x := Triples(n, a, b, c);
    assert x[0] == a && x[1] == b && x[2] == c && x[3] == a && x[4] == b;
    hide Triples;
    HashNibbles(x, 0);
    HashNibbles(x, 1);
    HashNibbles(x, 2);
  }

  /** Bytes 1, 18 and 32 over and over: a block that never shrinks. */
  lemma {:induction false} TripleStaysRaw(n: nat)
    requires n >= 48
    ensures var x := Triples(n, 1, 18, 32); Periodic(x, 3) && !Uniform(x) && Colliding(x)
  {
    hide HashAt, Xor, Triples;
    TriplesRepeat(n, 1, 18, 32);
    TripleWindows(n, 1, 18, 32);
    C.XorZero(513, 513);
    C.XorZero(18, 18);
    C.XorZero(288, 288);
  }

  /** The letters a, b and c over and over: a block that does. */
  lemma {:induction false} LettersSpread(n: nat)
    requires n >= 48
    ensures var x := Triples(n, 97, 98, 99); Periodic(x, 3) && Spread(x, 3) && !Uniform(x)
  {
    hide HashAt, Triples, Xor;
    TriplesRepeat(n, 97, 98, 99);
    TripleWindows(n, 97, 98, 99);
    LetterHashes();
  }

  lemma {:induction false} LetterHashes()
    ensures var f, g, h := Xor(1590, 609), Xor(1558, 866), Xor(1574, 355); f != g && g != h && f != h
  {
    hide Xor;
    XorUnfold(1590, 609);
    XorUnfold(795, 304);
    XorUnfold(1558, 866);
    XorUnfold(1574, 355);
    XorUnfold(787, 177);
  }

  // ----- Readers -----

  function FieldWidth(b: seq<byte>): nat
    requires b != []
  {
    if b[0] / 2 % 2 == 1 then 4 else 1
  }

  function SizeHeader(b: seq<byte>): nat
    requires b != []
  {
    2 * FieldWidth(b) + 1
  }

  /** A 4-byte load, masked to the width of the field. */
  function SizeField(b: seq<byte>, at: nat, width: nat): nat
    requires at + 4 <= |b|
  {
    if width == 4 then Le32(b, at) else Le32(b, at) % 0x100
  }

  function SizeDecompressed(b: seq<byte>): nat
    requires |b| >= 9
  {
    SizeField(b, 1 + FieldWidth(b), FieldWidth(b))
  }

  function SizeCompressed(b: seq<byte>): nat
    requires |b| >= 9
  {
    SizeField(b, 1, FieldWidth(b))
  }

  /** The readers recover the true sizes from every header the compressor writes. */
  lemma {:induction false} ReadersAgree(b: seq<byte>, size: nat, coded: bool)
    requires HeaderOk(b, size, coded)
    ensures SizeHeader(b) == BaseFor(size)
    ensures SizeDecompressed(b) == size && SizeCompressed(b) == |b|
    ensures b[0] % 2 == 1 <==> coded
  {
    if size < 216 {
      var b1: int, b2: int, b3: int, b4: int, b5: int := b[1], b[2], b[3], b[4], b[5];
      assert Le32(b, 1) == b1 + 0x100 * (b2 + 0x100 * b3 + 0x1_0000 * b4);
      assert Le32(b, 2) == b2 + 0x100 * (b3 + 0x100 * b4 + 0x1_0000 * b5);
    }
  }

  // ----- Compress -----

  method WriteHeader(destination: array<byte>, size: nat, r: nat, coded: bool)
    requires 12 <= r <= destination.Length && r < 0x1_0000_0000 && size < 0x1_0000_0000
    requires size < 216 ==> r < 0x100
    modifies destination
    ensures HeaderOk(destination[..r], size, coded)
    ensures forall i :: BaseFor(size) <= i < destination.Length ==> destination[i] == old(destination[i])
  {
    var flag := if coded then 1 else 0;
    if size < 216 {
      destination[0], destination[1], destination[2] := flag, r % 0x100, size % 0x100;
    } else {
      destination[0] := 2 + flag;
      C.Store32(destination, 1, r);
      C.Store32(destination, 5, size);
    }
    destination[0] := destination[0] as int + 4;
    destination[0] := destination[0] as int + 64;
  }

  method StoreRaw(destination: array<byte>, base: nat, x: seq<byte>)
    requires base + |x| <= destination.Length
    modifies destination
    ensures destination[base..base + |x|] == x
  {
    for i := 0 to |x|
      invariant destination[base..base + i] == x[..i]
    {
      destination[base + i] := x[i];
      assert x[..i + 1] == x[..i] + [x[i]];
    }
  }

  /**
   Packs x at the start of the destination. Fails exactly on the sizes QuickLZ refuses; the
   packed form never needs more than the 400 extra bytes callers must provide.
   */
  method Compress(x: seq<byte>, destination: array<byte>, hash: array<C.HashEntry>) returns (r: nat)
    requires destination.Length >= |x| + 400 && hash.Length == HASH_VALUES
    modifies destination, hash
    ensures r == 0 <==> |x| == 0 || |x| > MAX_SIZE
    ensures r != 0 ==> r <= |x| + 400 && Packed(destination[..r], x)
    ensures Uniform(x) ==> r <= |x| / 32 + 40
    ensures forall d :: 3 <= d && Periodic(x, d) && Spread(x, d) && 3 * (d + 1) <= |x| ==>
      r <= |x| / 32 + d + d / 7 + 40
    ensures r == 0 ==> destination[..] == old(destination[..])
  {
    hide Greedy, NeverGaveUp, Packed, Coded, Uniform, Periodic, Spread;
    if |x| == 0 || |x| > MAX_SIZE {
      return 0;
    }
    var base := if |x| < 216 then 3 else 9;
    C.ResetTable(hash);
    var body;
    ghost var toks;
    body, toks := C.CompressCore(x, destination, base, hash);
    UsedBound(x, toks);
    r := base + body;
    var coded := r != base;
    if !coded {
      StoreRaw(destination, base, x);
      r := |x| + base;
    }
    ghost var d := destination[..];
    WriteHeader(destination, |x|, r, coded);
    Assembled(d, destination[..r], x, toks, r, coded);
    if Uniform(x) { RunShrinks(destination[..r], x); }
    forall d | 3 <= d && Periodic(x, d) && Spread(x, d) && 3 * (d + 1) <= |x|
      ensures r <= |x| / 32 + d + d / 7 + 40
    {
      BlockShrinks(destination[..r], x, d);
    }
  }

  /** A finished body behind a correct header is a packed string. */
  lemma {:induction false} Assembled(d: seq<byte>, b: seq<byte>, x: seq<byte>, toks: seq<Token>, r: nat, coded: bool)
    requires Greedy(x, toks) && NeverGaveUp(x, toks) && x != []
    requires HeaderOk(b, |x|, coded) && |b| == r <= |d| && coded == !GivesUp(x, toks)
    requires forall i :: BaseFor(|x|) <= i < r ==> b[i] == d[i]
    requires !coded ==> r == |x| + BaseFor(|x|) && d[BaseFor(|x|)..r] == x
    requires coded ==> End(toks) == |x| && Coded(d, BaseFor(|x|), toks)
    requires coded ==> r == BaseFor(|x|) + if Used(toks, |toks|) < 9 then 9 else Used(toks, |toks|)
    ensures Packed(b, x)
  {
    var base := BaseFor(|x|);
    if coded {
      CodedFrame(d, b, base, toks);
    } else {
      assert b[base..] == d[base..r];
    }
    assert PackedAs(b, x, toks);
  }

  lemma {:induction false} CodedFrame(d: seq<byte>, b: seq<byte>, base: nat, toks: seq<Token>)
    requires Coded(d, base, toks) && toks != [] && base + Used(toks, |toks|) <= |b| <= |d|
    requires forall i :: base <= i < |b| ==> b[i] == d[i]
    ensures Coded(b, base, toks)
  {
    hide Num, FlagBits;
    forall k {:trigger TokenOff(toks, k)} | 0 <= k < |toks| ensures TokenLaid(b, base + TokenOff(toks, k), toks[k]) {
      assert TokenLaid(d, base + TokenOff(toks, k), toks[k]);
      LaidInside(toks, k);
    }
    forall g | 0 <= g < Words(|toks|) ensures WordLaid(b, base, toks, g) {
      assert WordLaid(d, base, toks, g);
      LaidInside(toks, GROUP * g);
    }
  }

  // ----- Decompress -----

  /** Unpacks what Compress made: exactly the original, with no byte written past it. */
  method Decompress(b: seq<byte>, destination: array<byte>, offset: array<int>, ghost x: seq<byte>) returns (size: nat)
    requires Packed(b, x) && |x| <= destination.Length && offset.Length == HASH_VALUES
    modifies destination, offset
    ensures size == |x| && destination[..size] == x
    ensures forall i :: size <= i < destination.Length ==> destination[i] == old(destination[i])
  {
    hide Greedy;
    ghost var toks :| PackedAs(b, x, toks);
    ReadersAgree(b, |x|, !GivesUp(x, toks));
    size := SizeDecompressed(b);
    if b[0] % 2 == 1 {
      size := D.DecompressCore(b, SizeHeader(b), destination, size, offset, x, toks);
    } else {
      var base := SizeHeader(b);
      for i := 0 to size
        invariant destination[..i] == x[..i]
        invariant forall j :: size <= j < destination.Length ==> destination[j] == old(destination[j])
      {
        assert b[base..][i] == x[i];
        destination[i] := b[base + i];
      }
    }
  }

  /**
   The codec round trip, over both implementations, for every string QuickLZ accepts and any
   contents of the buffers and tables beforehand.
   */
  method RoundTrip(x: seq<byte>, packed: array<byte>, hash: array<C.HashEntry>, unpacked: array<byte>,
        offset: array<int>)
    returns (y: seq<byte>)
    requires 0 < |x| <= MAX_SIZE
    requires packed.Length >= |x| + 400 && hash.Length == HASH_VALUES
    requires unpacked.Length >= |x| && offset.Length == HASH_VALUES && packed != unpacked
    modifies packed, hash, unpacked, offset
    ensures y == x
  {
    var r := Compress(x, packed, hash);
    var size := Decompress(packed[..r], unpacked, offset, x);
    y := unpacked[..size];
  }
}
