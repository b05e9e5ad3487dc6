/** An IPv4/TCP packet as bytes and as a header, an option list, padding and payload. */
module TcpPacket {
  import opened Bytes

  const IPPROTO_TCP: byte := 6
  const TCPOPT_EOL: byte := 0
  const TCPOPT_NOP: byte := 1

  // ----- Big-endian fields -----

  function Be16(s: seq<byte>, i: nat): (w: uint16)
    requires i + 2 <= |s|
  {
    var b0: int, b1: int := s[i], s[i + 1];
    0x100 * b0 + b1
  }

  function Be32(s: seq<byte>, i: nat): (w: uint32)
    requires i + 4 <= |s|
  {
    var b0: int, b1: int, b2: int, b3: int := s[i], s[i + 1], s[i + 2], s[i + 3];
    0x100_0000 * b0 + 0x1_0000 * b1 + 0x100 * b2 + b3
  }

  function Be32Bytes(v: uint32): (s: seq<byte>)
    ensures |s| == 4 && Be32(s, 0) == v
  {
    var v1 := v / 0x100;
    var v2 := v1 / 0x100;
    [v2 / 0x100, v2 % 0x100, v1 % 0x100, v % 0x100]
  }

  /** The n low-order bytes of v, most significant first. */
  function BeBytes(v: nat, n: nat): (s: seq<byte>)
    ensures |s| == n
  {
    if n == 0 then [] else BeBytes(v / 0x100, n - 1) + [v % 0x100]
  }

  function BeValue(s: seq<byte>): nat
  {
    if s == [] then 0 else 0x100 * BeValue(s[..|s| - 1]) + s[|s| - 1] as int
  }

  function Pow256(n: nat): (p: nat)
    ensures p > 0
  {
    if n == 0 then 1 else 0x100 * Pow256(n - 1)
  }

  /** Reading n bytes back gives the value modulo 256^n. */
  lemma {:induction false} BeRoundTrip(v: nat, n: nat)
    ensures BeValue(BeBytes(v, n)) == v % Pow256(n)
  {
    if n > 0 {
      BeRoundTrip(v / 0x100, n - 1);
      assert BeBytes(v, n)[..n - 1] == BeBytes(v / 0x100, n - 1);
      LastDigit(v, Pow256(n - 1));
    }
  }

  lemma {:induction false} LastDigit(v: nat, p: nat)
    requires p > 0
    ensures v % (0x100 * p) == 0x100 * (v / 0x100 % p) + v % 0x100
  {
    var h := v / 0x100;
    var q, r := h / p, h % p;
    assert 0x100 * h == 0x100 * p * q + 0x100 * r by {
      assert h == p * q + r;
    }
    RemainderUnique(v, 0x100 * p, q, 0x100 * r + v % 0x100);
  }

  // ----- Options -----

  type OptKind = k: int | 2 <= k < 0x100 witness 2
  type OptData = d: seq<byte> | |d| <= 253

  datatype Option = Nop | Opt(kind: OptKind, data: OptData)
  {
    function Bytes(): (s: seq<byte>)
      ensures |s| == Length()
    {
      if Nop? then [TCPOPT_NOP] else [kind, |data| + 2] + data
    }

    function Length(): nat { if Nop? then 1 else |data| + 2 }
  }

  function Encoded(os: seq<Option>): (s: seq<byte>)
    ensures |s| == Size(os)
  {
    if os == [] then [] else os[0].Bytes() + Encoded(os[1..])
  }

  function Size(os: seq<Option>): nat
  {
    if os == [] then 0 else os[0].Length() + Size(os[1..])
  }

  /** The option area: the options, then end-of-list zeroes up to the 4-byte boundary. */
  function Area(os: seq<Option>, pad: nat): (s: seq<byte>)
    ensures |s| == Size(os) + pad
  {
    Encoded(os) + Zeroes(pad)
  }

  lemma {:induction false} EncodedConcat(a: seq<Option>, b: seq<Option>)
    ensures Encoded(a + b) == Encoded(a) + Encoded(b)
  {
    hide Size, Option.Bytes, Option.Length;
    if a != [] {
      EncodedConcat(a[1..], b);
      assert (a + b)[1..] == a[1..] + b;
    } else {
      assert a + b == b;
    }
  }

  lemma {:induction false} SizeConcat(a: seq<Option>, b: seq<Option>)
    ensures Size(a + b) == Size(a) + Size(b)
  {
    EncodedConcat(a, b);
  }

  // ----- Segments -----

  /** IP header and TCP header without options; then options, padding and payload. */
  datatype Segment = Segment(head: seq<byte>, opts: seq<Option>, pad: nat, data: seq<byte>)
  {
    function AreaSize(): nat { Size(opts) + pad }

    function Bytes(): (p: seq<byte>)
      ensures |p| == |head| + AreaSize() + |data|
    {
      head + Area(opts, pad) + data
    }

    predicate Valid()
    {
      && HeadOk(head)
      && AreaSize() == 4 * Doff(head) - 20
      && TotLen(head) == |head| + AreaSize() + |data|
    }
  }

  /** Start of the TCP header. */
  function TcpAt(p: seq<byte>): nat { if p == [] then 0 else 4 * (p[0] % 16) }

  /** Long enough to read both headers from. */
  predicate Readable(p: seq<byte>) { |p| >= 20 && TcpAt(p) + 20 <= |p| }

  /** The header bytes up to the options: both headers complete, and a TCP packet. */
  predicate HeadOk(h: seq<byte>)
  {
    Readable(h) && TcpAt(h) >= 20 && |h| == TcpAt(h) + 20 && h[9] == IPPROTO_TCP && Doff(h) >= 5
  }

  // Fields, 0 where the bytes are too few.

  function TotLen(p: seq<byte>): uint16 { if Readable(p) then Be16(p, 2) else 0 }

  /** TCP data offset, in 4-byte words. */
  function Doff(p: seq<byte>): (d: nat)
    ensures d < 16
  {
    if Readable(p) then p[TcpAt(p) + 12] / 16 else 0
  }

  function SeqNo(p: seq<byte>): uint32 { if Readable(p) then Be32(p, TcpAt(p) + 4) else 0 }

  /** The packet held in buffer p is s. */
  ghost predicate Holds(p: seq<byte>, s: Segment)
  {
    s.Valid() && |s.Bytes()| <= |p| && p[..|s.Bytes()|] == s.Bytes()
  }

  /** The header with its two length fields set for an option area and a payload of the given sizes. */
  function Resized(h: seq<byte>, area: nat, data: nat): (r: seq<byte>)
    requires HeadOk(h) && area % 4 == 0 && area <= 40 && |h| + area + data < 0x1_0000
    ensures HeadOk(r) && |r| == |h| && 4 * Doff(r) - 20 == area && TotLen(r) == |h| + area + data
    ensures SeqNo(r) == SeqNo(h)
  {
    var total := |h| + area + data;
    var t := TcpAt(h) + 12;
    h[2 := total / 0x100][3 := total % 0x100][t := (area + 20) / 4 * 16 + h[t] % 16]
  }

  function WithSeq(h: seq<byte>, v: uint32): (r: seq<byte>)
    requires HeadOk(h)
    ensures HeadOk(r) && |r| == |h| && Doff(r) == Doff(h) && TotLen(r) == TotLen(h) && SeqNo(r) == v
  {
    var t, b := TcpAt(h) + 4, Be32Bytes(v);
    var r := h[..t] + b + h[t + 4..];
    assert r[t] == b[0] && r[t + 1] == b[1] && r[t + 2] == b[2] && r[t + 3] == b[3];
    assert forall i :: 0 <= i < |h| && !(t <= i < t + 4) ==> r[i] == h[i];
    r
  }
}
