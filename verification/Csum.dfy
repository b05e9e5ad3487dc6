/** The Internet checksums of a TCP packet (section 1 of RFC 1071). */
module Csum {
  import opened Bytes
  import opened TcpPacket

  // ----- One's complement sums -----

  /** Sum of the big-endian 16-bit words; an odd last byte counts as the high half of a word. */
  function WordSum(s: seq<byte>): nat
  {
    if s == [] then 0
    else if |s| == 1 then 0x100 * (s[0] as int)
    else Be16(s, 0) + WordSum(s[2..])
  }

  /** Adds the carries back in until 16 bits remain. */
  function Fold(n: nat): (f: uint16)
    decreases n
  {
    if n < 0x1_0000 then n else
    FoldStep(n);
    Fold(n % 0x1_0000 + n / 0x1_0000)
  }

  lemma {:induction false} FoldStep(n: nat)
    requires n >= 0x1_0000
    ensures 0 < n % 0x1_0000 + n / 0x1_0000 < n
    ensures (n % 0x1_0000 + n / 0x1_0000) % 0xffff == n % 0xffff
  {
    var lo, hi := n % 0x1_0000, n / 0x1_0000;
    assert n == (lo + hi) + 0xffff * hi;
    RemainderUnique(n, 0xffff, (lo + hi) / 0xffff + hi, (lo + hi) % 0xffff);
  }

  /** Folding keeps the sum modulo 65535 and turns only zero into zero. */
  lemma {:induction false} FoldKeeps(n: nat)
    ensures Fold(n) % 0xffff == n % 0xffff
    ensures Fold(n) == 0 <==> n == 0
  {
    if n >= 0x1_0000 {
      FoldStep(n);
      FoldKeeps(n % 0x1_0000 + n / 0x1_0000);
    }
  }

  /** Adding the complement of the folded sum makes the sum fold to all ones. */
  lemma {:induction false} ComplementCloses(n: nat)
    ensures n + (0xffff - Fold(n)) > 0 ==> Fold(n + (0xffff - Fold(n))) == 0xffff
  {
    var m := n + (0xffff - Fold(n));
    FoldKeeps(n);
    FoldKeeps(m);
    var q, k, r := n / 0xffff, Fold(n) / 0xffff, n % 0xffff;
    assert n == 0xffff * q + r && Fold(n) == 0xffff * k + r;
    RemainderUnique(m, 0xffff, q + 1 - k, 0);
  }

  lemma {:induction false} WordSumConcat(a: seq<byte>, b: seq<byte>)
    requires |a| % 2 == 0
    ensures WordSum(a + b) == WordSum(a) + WordSum(b)
  {
    if a == [] {
      assert a + b == b;
    } else {
      WordSumConcat(a[2..], b);
      assert (a + b)[2..] == a[2..] + b;
    }
  }

  lemma {:induction false} WordSumPair(s: seq<byte>)
    requires |s| == 2
    ensures WordSum(s) == Be16(s, 0)
  {
    assert s[2..] == [];
  }

  /** Splitting a sum around the word at an even offset. */
  lemma {:induction false} WordSumAround(s: seq<byte>, k: nat)
    requires k % 2 == 0 && k + 2 <= |s|
    ensures WordSum(s) == WordSum(s[..k]) + Be16(s, k) + WordSum(s[k + 2..])
  {
    assert s == s[..k] + (s[k..k + 2] + s[k + 2..]);
    WordSumConcat(s[..k], s[k..k + 2] + s[k + 2..]);
    WordSumConcat(s[k..k + 2], s[k + 2..]);
    WordSumPair(s[k..k + 2]);
  }

  // ----- The code -----

  /** Sums the words of n bytes, and the odd byte if there is one. */
  method SumWords(s: seq<byte>) returns (sum: nat)
    ensures sum == WordSum(s)
  {
    sum := 0;
    var i := 0;
    while i < |s| / 2
      invariant 0 <= i <= |s| / 2
      invariant sum == WordSum(s[..2 * i])
    {
      WordSumAround(s[..2 * i + 2], 2 * i);
      assert s[..2 * i + 2][..2 * i] == s[..2 * i];
      assert s[..2 * i + 2][2 * i + 2..] == [];
      sum := sum + Be16(s, 2 * i);
      i := i + 1;
    }
    if |s| % 2 == 1 {
      assert s == s[..2 * i] + s[2 * i..] && s[2 * i..] == [s[2 * i]];
      WordSumConcat(s[..2 * i], s[2 * i..]);
      sum := sum + 0x100 * (s[2 * i] as int);
    } else {
      assert s[..2 * i] == s;
    }
  }

  /** Folds a sum and complements it. */
  method FoldComplement(total: nat) returns (c: uint16)
    ensures c == 0xffff - Fold(total)
  {
    var sum := total;
    while sum / 0x1_0000 != 0
      invariant Fold(sum) == Fold(total)
      decreases sum
    {
      FoldStep(sum);
      sum := sum % 0x1_0000 + sum / 0x1_0000;
    }
    c := 0xffff - sum;
  }

  /** A packet whose two headers and total length make sense. */
  predicate Sound(p: seq<byte>)
  {
    Readable(p) && 20 <= TcpAt(p) && TcpAt(p) + 20 <= TotLen(p) <= |p|
  }

  /** The twelve bytes in front of a segment of len bytes that its checksum covers too (section 3.1 of RFC 793). */
  function PseudoHeader(p: seq<byte>, len: nat): (h: seq<byte>)
    requires |p| >= 20 && len < 0x1_0000
    ensures |h| == 12
  {
    p[12..20] + [0, IPPROTO_TCP, len / 0x100, len % 0x100]
  }

  /** The TCP sum: pseudo-header and segment, word by word. */
  function TcpSum(p: seq<byte>): nat
    requires Sound(p)
  {
    WordSum(PseudoHeader(p, TotLen(p) - TcpAt(p)) + p[TcpAt(p)..TotLen(p)])
  }

  /** The words that stand in no segment: addresses, segment length and protocol. */
  function PseudoSum(p: seq<byte>, len: nat): (n: nat)
    requires |p| >= 20
    ensures n > 0
  {
    Be16(p, 12) + Be16(p, 14) + Be16(p, 16) + Be16(p, 18) + len + 6
  }

  /** What the code adds to the sum of the segment is the sum of the pseudo-header. */
  lemma {:induction false} TcpSumParts(p: seq<byte>)
    requires Sound(p)
    ensures TcpSum(p) == PseudoSum(p, TotLen(p) - TcpAt(p)) + WordSum(p[TcpAt(p)..TotLen(p)])
  {
    hide WordSum;
    var len := TotLen(p) - TcpAt(p);
    var h := PseudoHeader(p, len);
    WordSumConcat(h, p[TcpAt(p)..TotLen(p)]);
    WordSumSix(h);
    assert forall i :: 0 <= i < 8 ==> h[i] == p[12 + i];
  }

  lemma {:induction false} WordSumSix(h: seq<byte>)
    requires |h| == 12
    ensures WordSum(h) == Be16(h, 0) + Be16(h, 2) + Be16(h, 4) + Be16(h, 6) + Be16(h, 8) + Be16(h, 10)
  {
    hide WordSum;
    WordSumTail(h, 10);
    WordSumTail(h, 8);
    WordSumTail(h, 6);
    WordSumTail(h, 4);
    WordSumTail(h, 2);
    WordSumTail(h, 0);
    assert h[12..] == [] && WordSum([]) == 0;
    assert h[0..] == h;
  }

  lemma {:induction false} WordSumTail(h: seq<byte>, i: nat)
    requires i + 2 <= |h|
    ensures WordSum(h[i..]) == Be16(h, i) + WordSum(h[i + 2..])
    ensures WordSum([]) == 0
  {
    assert h[i..][2..] == h[i + 2..];
  }

  function IpSum(p: seq<byte>): nat
    requires Sound(p)
  {
    WordSum(p[..TcpAt(p)])
  }

  /** Stores a checksum in network order. */
  method Store16(a: array<byte>, at: nat, c: uint16)
    requires at + 2 <= a.Length
    modifies a
    ensures Be16(a[..], at) == c
    ensures forall i :: 0 <= i < a.Length && i != at && i != at + 1 ==> a[i] == old(a[i])
  {
    a[at], a[at + 1] := c / 0x100, c % 0x100;
  }

  /** Changing the word at an even offset from zero to c adds c to the sum. */
  lemma {:induction false} SumWithField(s: seq<byte>, t: seq<byte>, k: nat)
    requires k % 2 == 0 && k + 2 <= |s| == |t| && Be16(s, k) == 0
    requires forall i :: 0 <= i < |s| && i != k && i != k + 1 ==> t[i] == s[i]
    ensures WordSum(t) == WordSum(s) + Be16(t, k)
  {
    WordSumAround(s, k);
    WordSumAround(t, k);
    assert t[..k] == s[..k] && t[k + 2..] == s[k + 2..];
  }

  /**
   Recomputes both checksums. Afterwards the TCP sum over pseudo-header and segment and the sum
   over the IP header, each with its stored checksum, fold to all ones; no other byte changes,
   and packets of other protocols are left alone.
   */
  method Checksum(a: array<byte>)
    requires Sound(a[..])
    modifies a
    ensures Sound(a[..]) && TcpAt(a[..]) == old(TcpAt(a[..]))
    ensures a[9] == IPPROTO_TCP ==> Fold(TcpSum(a[..])) == 0xffff && Fold(IpSum(a[..])) == 0xffff
    ensures a[9] != IPPROTO_TCP ==> a[..] == old(a[..])
    ensures forall i :: 0 <= i < a.Length && i !in {10, 11, TcpAt(a[..]) + 16, TcpAt(a[..]) + 17} ==> a[i] == old(a[i])
  {
    hide Fold, WordSum;
    if a[9] == IPPROTO_TCP {
      var t := TcpAt(a[..]);
      SetTcpChecksum(a);
      SetIpChecksum(a);
    }
  }

  method SetTcpChecksum(a: array<byte>)
    requires Sound(a[..])
    modifies a
    ensures Sound(a[..]) && TcpAt(a[..]) == old(TcpAt(a[..])) && Fold(TcpSum(a[..])) == 0xffff
    ensures forall i :: 0 <= i < a.Length && i != TcpAt(a[..]) + 16 && i != TcpAt(a[..]) + 17 ==> a[i] == old(a[i])
  {
    hide Fold, WordSum;
    var t, total := TcpAt(a[..]), TotLen(a[..]);
    Store16(a, t + 16, 0);
    ghost var p := a[..];
    var sum := SumWords(a[t..total]);
    var c := FoldComplement(PseudoSum(a[..], total - t) + sum);
    Store16(a, t + 16, c);
    ghost var q := a[..];
    assert Be16(p[t..total], 16) == 0 && Be16(q[t..total], 16) == c;
    SumWithField(p[t..total], q[t..total], 16);
    TcpSumParts(q);
    ComplementCloses(PseudoSum(p, total - t) + sum);
  }

  /** The TCP sum does not depend on the IP checksum. */
  lemma {:induction false} TcpSumKept(o: seq<byte>, q: seq<byte>)
    requires Sound(o) && |q| == |o| && forall i :: 0 <= i < |o| && i != 10 && i != 11 ==> q[i] == o[i]
    ensures Sound(q) && TcpSum(q) == TcpSum(o)
  {
    hide WordSum;
    assert q[TcpAt(q)..TotLen(q)] == o[TcpAt(o)..TotLen(o)] && q[12..20] == o[12..20];
  }

  method SetIpChecksum(a: array<byte>)
    requires Sound(a[..]) && Fold(TcpSum(a[..])) == 0xffff
    modifies a
    ensures Sound(a[..]) && TcpAt(a[..]) == old(TcpAt(a[..])) && Fold(TcpSum(a[..])) == 0xffff &&
      Fold(IpSum(a[..])) == 0xffff
    ensures forall i :: 0 <= i < a.Length && i != 10 && i != 11 ==> a[i] == old(a[i])
  {
    hide Fold, WordSum;
    ghost var o := a[..];
    var t := TcpAt(a[..]);
    Store16(a, 10, 0);
    ghost var p := a[..];
    var sum := SumWords(a[..t]);
    var c := FoldComplement(sum);
    Store16(a, 10, c);
    ghost var q := a[..];
    TcpSumKept(o, q);
    assert Be16(p[..t], 10) == 0 && Be16(q[..t], 10) == c;
    SumWithField(p[..t], q[..t], 10);
    ComplementCloses(sum);
    SumPositive(q[..t]);
  }

  lemma {:induction false} SumPositive(s: seq<byte>)
    requires |s| > 0 && s[0] != 0
    ensures WordSum(s) > 0
  {
  }
}
