/** Octets, little-endian 32-bit words and bit lists: the arithmetic every other module builds on. */
module Bytes {

  type byte = b: int | 0 <= b < 0x100
  type uint16 = w: int | 0 <= w < 0x1_0000
  type uint32 = w: int | 0 <= w < 0x1_0000_0000

  /** The four bytes that name a box. */
  type Id = i: seq<byte> | |i| == 4 witness [0, 0, 0, 0]

  /** Addition modulo 2^32. */
  function Add32(a: uint32, d: int): uint32 { (a as int + d) % 0x1_0000_0000 }

  function Zeroes(n: nat): (s: seq<byte>)
    ensures |s| == n
  {
    seq(n, i => 0)
  }

  /** The little-endian 32-bit word stored at s[i..i+4] (an unaligned x86 load). */
  function Le32(s: seq<byte>, i: int): (w: uint32)
    requires 0 <= i && i + 4 <= |s|
  {
    var b0: int, b1: int, b2: int, b3: int := s[i], s[i + 1], s[i + 2], s[i + 3];
    b0 + 0x100 * b1 + 0x1_0000 * b2 + 0x100_0000 * b3
  }

  /** The four bytes of a word in the order an x86 store writes them. */
  function Le32Bytes(w: uint32): (s: seq<byte>)
    ensures |s| == 4 && Le32(s, 0) == w
  {
    var w1 := w / 0x100;
    var w2 := w1 / 0x100;
    [w % 0x100, w1 % 0x100, w2 % 0x100, w2 / 0x100]
  }

  /** Bitwise exclusive or on naturals. */
  function Xor(a: nat, b: nat): nat
    decreases a + b
  {
    if a == 0 && b == 0 then 0 else (a + b) % 2 + 2 * Xor(a / 2, b / 2)
  }

  function ShiftRight(a: nat, n: nat): nat
  {
    if n == 0 then a else ShiftRight(a / 2, n - 1)
  }

  function Pow2(n: nat): (p: nat)
    ensures p > 0
  {
    if n == 0 then 1 else 2 * Pow2(n - 1)
  }

  lemma {:induction false} Pow2Values()
    ensures Pow2(12) == 4096 && Pow2(16) == 0x1_0000 && Pow2(24) == 0x100_0000 && Pow2(31) == 0x8000_0000
  {
    assert Pow2(8) == 256;
    assert Pow2(16) == 0x1_0000;
    assert Pow2(24) == 0x100_0000;
    assert Pow2(31) == 0x8000_0000;
  }

  /** The low n bits of a xor depend on the low n bits of its operands only. */
  lemma {:induction false} XorLowBits(a: nat, b: nat, n: nat)
    ensures Xor(a, b) % Pow2(n) == Xor(a % Pow2(n), b % Pow2(n))
  {
    if n > 0 {
      var p := Pow2(n - 1);
      XorLowBits(a / 2, b / 2, n - 1);
      HalveModulo(a, p);
      HalveModulo(b, p);
      XorUnfold(a, b);
      XorUnfold(a % (2 * p), b % (2 * p));
      var last, rest := (a % 2 + b % 2) % 2, Xor(a / 2, b / 2);
      HalveModulo(last + 2 * rest, p);
      assert (last + 2 * rest) / 2 == rest;
    }
  }

  /** Different words stay different under exclusive or with the same word. */
  lemma {:induction false} XorInjective(a: nat, b: nat, c: nat)
    requires Xor(a, b) == Xor(a, c)
    ensures b == c
    decreases a + b + c
  {
    if a + b + c > 0 {
      XorUnfold(a, b);
      XorUnfold(a, c);
      hide Xor;
      XorInjective(a / 2, b / 2, c / 2);
    }
  }

  lemma {:induction false} XorSmall(a: nat, b: nat, n: nat)
    requires a < Pow2(n) && b < Pow2(n)
    ensures Xor(a, b) < Pow2(n)
  {
    if n > 0 {
      XorSmall(a / 2, b / 2, n - 1);
      XorUnfold(a, b);
    }
  }

  lemma {:induction false} XorUnfold(a: nat, b: nat)
    ensures Xor(a, b) == (a % 2 + b % 2) % 2 + 2 * Xor(a / 2, b / 2)
  {
    ParityOfSum(a, b);
  }

  lemma {:induction false} ParityOfSum(a: nat, b: nat)
    ensures (a + b) % 2 == (a % 2 + b % 2) % 2
  {
  }

  /** Taking a number modulo 2p keeps its last bit and takes its other bits modulo p. */
  lemma {:induction false} HalveModulo(a: nat, p: nat)
    requires p > 0
    ensures a % (2 * p) == a % 2 + 2 * (a / 2 % p)
    ensures a % (2 * p) % 2 == a % 2 && a % (2 * p) / 2 == a / 2 % p
  {
    var h, q := a / 2, a / 2 / p;
    var r := a % 2 + 2 * (h % p);
    calc {
      a;
      2 * h + a % 2;
      2 * (p * q + h % p) + a % 2;
      { assert 2 * (p * q) == 2 * p * q; }
      2 * p * q + r;
    }
    RemainderUnique(a, 2 * p, q, r);
  }

  lemma {:induction false} RemainderUnique(a: int, d: int, q: int, r: int)
    requires 0 <= r < d && a == d * q + r
    ensures a % d == r
  {
    var e := a / d - q;
    assert d * e == r - a % d by {
      assert a == d * (a / d) + a % d;
      assert d * (a / d - q) == d * (a / d) - d * q;
    }
    assert -d < d * e < d;
    assert e == 0;
  }

  // ----- Bit lists, least significant bit first -----

  function Bit(b: bool): nat { if b then 1 else 0 }

  function Num(bits: seq<bool>): nat
  {
    if bits == [] then 0 else Bit(bits[0]) + 2 * Num(bits[1..])
  }

  function Zeros(n: nat): (z: seq<bool>)
    ensures |z| == n && forall i :: 0 <= i < n ==> !z[i]
  {
    seq(n, i => false)
  }

  /** Appending a most significant bit adds its weight. */
  lemma {:induction false} NumSnoc(bits: seq<bool>, b: bool)
    ensures Num(bits + [b]) == Num(bits) + Bit(b) * Pow2(|bits|)
  {
    if bits == [] {
      assert bits + [b] == [b];
      assert Num([b][1..]) == 0;
    } else {
      NumSnoc(bits[1..], b);
      assert (bits + [b])[1..] == bits[1..] + [b];
      assert Bit(b) * Pow2(|bits|) == 2 * (Bit(b) * Pow2(|bits[1..]|));
    }
  }

  /** Appending zero bits does not change the number. */
  lemma {:induction false} NumPadded(bits: seq<bool>, n: nat)
    ensures Num(bits + Zeros(n)) == Num(bits)
  {
    if n == 0 {
      assert bits + Zeros(0) == bits;
    } else {
      NumPadded(bits, n - 1);
      assert bits + Zeros(n) == (bits + Zeros(n - 1)) + [false];
      NumSnoc(bits + Zeros(n - 1), false);
    }
  }

  /** Prepending zero bits multiplies by a power of two; one at a time, it doubles. */
  lemma {:induction false} NumCons(b: bool, bits: seq<bool>)
    ensures Num([b] + bits) == Bit(b) + 2 * Num(bits)
  {
    assert ([b] + bits)[1..] == bits;
  }

  /** Shifting right drops bits from the bottom. */
  lemma {:induction false} NumShift(bits: seq<bool>, n: nat)
    requires n <= |bits|
    ensures ShiftRight(Num(bits), n) == Num(bits[n..])
  {
    if n == 0 {
      assert bits[0..] == bits;
    } else {
      NumShift(bits[1..], n - 1);
      assert bits[1..][n - 1..] == bits[n..];
      assert Num(bits) / 2 == Num(bits[1..]);
    }
  }

  /** A list that ends in a one bit is 1 exactly when that bit is its only one, and at least 2 otherwise. */
  lemma {:induction false} NumEndsInOne(bits: seq<bool>)
    requires bits != [] && bits[|bits| - 1]
    ensures Num(bits) >= 1 && (Num(bits) == 1 <==> |bits| == 1)
  {
    if |bits| == 1 {
      assert Num(bits[1..]) == 0;
    } else {
      NumEndsInOne(bits[1..]);
    }
  }
}
