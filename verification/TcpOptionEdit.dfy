/** The option code itself: byte walks, moves and stores inside the packet buffer. */
module TcpOptionEdit {
  import opened Bytes
  import opened TcpPacket
  import opened TcpOptions

  // ----- Finding things in a buffer -----

  /** Where the parts of a packet lie in its buffer. */
  lemma {:induction false} HoldsParts(p: seq<byte>, s: Segment)
    requires Holds(p, s)
    ensures Readable(p) && TcpAt(p) + 20 == |s.head| && |s.head| + s.AreaSize() + |s.data| == TotLen(p) <= |p|
    ensures Doff(p) == Doff(s.head) && TotLen(p) == TotLen(s.head) && SeqNo(p) == SeqNo(s.head) && p[9] == IPPROTO_TCP
    ensures 4 * Doff(p) - 20 == s.AreaSize()
    ensures p[..|s.head|] == s.head
    ensures p[|s.head|..|s.head| + s.AreaSize()] == Area(s.opts, s.pad)
    ensures p[|s.head| + s.AreaSize()..TotLen(p)] == s.data
  {
    hide Area, Size;
    var b := s.Bytes();
    assert forall i :: 0 <= i < |b| ==> p[i] == p[..|b|][i] == b[i];
    assert forall i :: 0 <= i < |s.head| ==> p[i] == s.head[i];
  }

  lemma {:induction false} HoldsFrom(p: seq<byte>, s: Segment)
    requires s.Valid() && |s.Bytes()| <= |p|
    requires p[..|s.head|] == s.head
    requires p[|s.head|..|s.head| + s.AreaSize()] == Area(s.opts, s.pad)
    requires p[|s.head| + s.AreaSize()..|s.Bytes()|] == s.data
    ensures Holds(p, s)
  {
    hide Area, Size;
    var o, n, e := |s.head|, s.AreaSize(), |s.Bytes()|;
    assert p[..e] == p[..o] + p[o..o + n] + p[o + n..e];
  }

  lemma {:induction false} Regroup(a: seq<byte>, b: seq<byte>, c: seq<byte>, d: seq<byte>)
    ensures a + (b + c) + d == a + b + (c + d)
  {
  }

  lemma {:induction false} Middle(a: seq<byte>, b: seq<byte>, c: seq<byte>, w: seq<byte>)
    requires w == a + b + c
    ensures w[|a|..|a| + |b|] == b
    ensures forall i :: |a| <= i < |a| + |b| ==> w[i] == b[i - |a|]
  {
  }

  lemma {:induction false} AreaSplit(os: seq<Option>, pad: nat, j: nat)
    requires j < |os|
    ensures Area(os, pad) == Encoded(os[..j]) + os[j].Bytes() + (Encoded(os[j + 1..]) + Zeroes(pad))
  {
    hide Encoded, Size, Option.Length, Option.Bytes;
    var before, o, after := os[..j], os[j], os[j + 1..];
    assert os == before + ([o] + after);
    EncodedConcat(before, [o] + after);
    SizeCons(o, after);
    Regroup(Encoded(before), o.Bytes(), Encoded(after), Zeroes(pad));
  }

  lemma {:induction false} SizeSplit(os: seq<Option>, j: nat)
    requires j < |os|
    ensures Size(os[..j + 1]) == Size(os[..j]) + os[j].Length() <= Size(os)
  {
    hide Encoded, Size, Option.Length, Option.Bytes;
    assert os == os[..j + 1] + os[j + 1..];
    SizeConcat(os[..j + 1], os[j + 1..]);
    assert os[..j + 1] == os[..j] + [os[j]];
    SizeConcat(os[..j], [os[j]]);
    SizeSingle(os[j]);
  }

  lemma {:induction false} SizeSingle(o: Option)
    ensures Size([o]) == o.Length()
  {
    hide Option.Length;
    assert Size([o][1..]) == 0;
  }

  /** The bytes of option j. */
  lemma {:induction false} AreaAt(os: seq<Option>, pad: nat, j: nat)
    requires j < |os|
    ensures var a, i, n := Area(os, pad), Size(os[..j]), os[j].Length();
      && i + n == Size(os[..j + 1]) <= Size(os)
      && a[i] == (if os[j].Nop? then TCPOPT_NOP else os[j].kind)
      && (os[j].Opt? ==> a[i + 1] == n && forall k :: i + 2 <= k < i + n ==> a[k] == os[j].data[k - i - 2])
  {
    hide Encoded, Size, Area, Option.Bytes;
    AreaSplit(os, pad, j);
    SizeSplit(os, j);
    BytesAt(os[j]);
    Middle(Encoded(os[..j]), os[j].Bytes(), Encoded(os[j + 1..]) + Zeroes(pad), Area(os, pad));
  }

  lemma {:induction false} BytesAt(o: Option)
    ensures o.Bytes()[0] == if o.Nop? then TCPOPT_NOP else o.kind
    ensures o.Opt? ==> o.Bytes()[1] == o.Length() && forall k :: 2 <= k < o.Length() ==> o.Bytes()[k] == o.data[k - 2]
  {
  }

  /** The step of an option walk: one byte for EOL, NOP and options without a length. */
  function OptLen(p: seq<byte>, at: nat): nat
    requires at < |p| && (p[at] > TCPOPT_NOP ==> at + 1 < |p|)
  {
    if p[at] <= TCPOPT_NOP || p[at + 1] == 0 then 1 else p[at + 1]
  }

  /** A walk over the area stands at option j, or past the options in the padding. */
  ghost predicate Walking(os: seq<Option>, pad: nat, j: nat, i: nat)
  {
    && j <= |os| && i <= Size(os) + pad
    && if j < |os| then i == Size(os[..j]) else Size(os) <= i
  }

  /** What a buffer holds at option j of the area at o. */
  lemma {:induction false} OptionAt(p: seq<byte>, o: nat, os: seq<Option>, pad: nat, j: nat)
    requires o + Size(os) + pad <= |p| && p[o..o + Size(os) + pad] == Area(os, pad) && j < |os|
    ensures var i, n := o + Size(os[..j]), os[j].Length();
      && i + n <= o + Size(os) && p[i] == (if os[j].Nop? then TCPOPT_NOP else os[j].kind)
      && (os[j].Opt? ==> p[i + 1] == n && forall k :: i + 2 <= k < i + n ==> p[k] == os[j].data[k - i - 2])
  {
    hide Size, Encoded, Area;
    AreaAt(os, pad, j);
    SliceAt(p, o, Area(os, pad));
  }

  lemma {:induction false} SliceAt(p: seq<byte>, o: nat, a: seq<byte>)
    requires o + |a| <= |p| && p[o..o + |a|] == a
    ensures forall k :: o <= k < o + |a| ==> p[k] == a[k - o]
  {
    assert forall k :: o <= k < o + |a| ==> p[k] == p[o..o + |a|][k - o];
  }

  lemma {:induction false} SliceIs(p: seq<byte>, o: nat, a: seq<byte>)
    requires o + |a| <= |p| && forall k :: o <= k < o + |a| ==> p[k] == a[k - o]
    ensures p[o..o + |a|] == a
  {
  }

  /** One step moves to the next option, or by one byte through the padding. */
  lemma {:induction false} WalkStep(p: seq<byte>, o: nat, os: seq<Option>, pad: nat, j: nat, i: nat)
    requires o + Size(os) + pad <= |p| && p[o..o + Size(os) + pad] == Area(os, pad)
    requires Walking(os, pad, j, i) && i < Size(os) + pad
    ensures p[o + i] > TCPOPT_NOP ==> o + i + 1 < |p|
    ensures j < |os| ==> p[o + i] == (if os[j].Nop? then TCPOPT_NOP else os[j].kind) && i + os[j].Length() <= Size(os)
    ensures j < |os| && os[j].Opt? ==>
      p[o + i + 1] == os[j].Length() && forall k :: o + i + 2 <= k < o + i + os[j].Length() ==>
        p[k] == os[j].data[k - o - i - 2]
    ensures j < |os| ==> OptLen(p, o + i) == os[j].Length()
    ensures j == |os| ==> p[o + i] == TCPOPT_EOL
    ensures Walking(os, pad, if j < |os| then j + 1 else j, i + OptLen(p, o + i))
  {
    hide Size, Encoded, Area, Option.Bytes;
    if j < |os| {
      OptionAt(p, o, os, pad, j);
      SizeSplit(os, j);
      assert os[..|os|] == os;
    } else {
      PaddingAt(p, o, os, pad, i);
    }
  }

  lemma {:induction false} PaddingAt(p: seq<byte>, o: nat, os: seq<Option>, pad: nat, i: nat)
    requires o + Size(os) + pad <= |p| && p[o..o + Size(os) + pad] == Area(os, pad) && Size(os) <= i < Size(os) + pad
    ensures p[o + i] == 0
  {
    hide Size, Encoded;
    assert p[o + i] == p[o..o + Size(os) + pad][i];
  }

  // ----- Reading -----

  lemma {:induction false} BeValueScaled(d: seq<byte>, k: nat)
    requires k < |d|
    ensures BeValue(d[..k + 1]) == 0x100 * BeValue(d[..k]) + d[k] as int
  {
    assert d[..k + 1][..k] == d[..k];
  }

  /** Big-endian value of the data bytes of an option, summed byte by byte from the top. */
  method ReadData(p: seq<byte>, at: nat, n: nat) returns (v: nat)
    requires at + n <= |p|
    ensures v == BeValue(p[at..at + n])
  {
    v := 0;
    var count, k := n, 0;
    ghost var d := p[at..at + n];
    while count > 0
      invariant 0 <= count <= n && k == n - count
      invariant v == BeValue(d[..k]) * Pow256(count)
    {
      count := count - 1;
      BeValueScaled(d, k);
      var b: int, w, w' := p[at + k], Pow256(count), Pow256(count + 1);
      assert w' == 0x100 * w;
      assert (0x100 * BeValue(d[..k]) + b) * w == BeValue(d[..k]) * w' + b * w;
      v := v + b * w;
      k := k + 1;
    }
    assert d[..n] == d;
  }

  /** Walks the area to the first option of a kind; the end of the area if there is none. */
  method Locate(p: seq<byte>, o: nat, n: nat, kind: OptKind, ghost os: seq<Option>, ghost pad: nat) returns (i: nat)
    requires o + n <= |p| && n == Size(os) + pad && p[o..o + n] == Area(os, pad)
    ensures var j := Find(os, kind);
      if j == |os| then i == n
      else i == Size(os[..j]) && i + os[j].Length() <= n && p[o + i + 1] == os[j].Length()
           && forall k :: o + i + 2 <= k < o + i + os[j].Length() ==> p[k] == os[j].data[k - o - i - 2]
  {
    hide Size, Encoded, Area;
    i := 0;
    ghost var j: nat := 0;
    WalkStart(os, pad);
    while i < n
      invariant Walking(os, pad, j, i)
      invariant j <= Find(os, kind)
    {
      WalkStep(p, o, os, pad, j, i);
      if p[o + i] == kind {
        assert j == Find(os, kind);
        return;
      }
      i := i + OptLen(p, o + i);
      j := if j < |os| then j + 1 else j;
    }
    WalkEnd(os, pad, j, i);
  }

  /**
   The number carried by the first option of a kind. The data of that option must fit the C
   expression that assembles it: up to three bytes.
   */
  method GetOption(p: seq<byte>, kind: OptKind, ghost s: Segment) returns (v: nat)
    requires Holds(p, s)
    requires Find(s.opts, kind) < |s.opts| ==> |s.opts[Find(s.opts, kind)].data| <= 3
    ensures v == Get(s.opts, kind)
  {
    hide Size, Encoded, Area, BeValue, Find, Holds;
    HoldsParts(p, s);
    v := GetInArea(p, TcpAt(p) + 20, Doff(p) * 4 - 20, kind, s.opts, s.pad);
  }

  method GetInArea(p: seq<byte>, o: nat, n: nat, kind: OptKind, ghost os: seq<Option>, ghost pad: nat) returns (v: nat)
    requires o + n <= |p| && n == Size(os) + pad && p[o..o + n] == Area(os, pad)
    ensures v == Get(os, kind)
  {
    hide Size, Encoded, Area, BeValue, Find;
    var i := Locate(p, o, n, kind, os, pad);
    if i == n {
      return 0;
    }
    var len: int := p[o + i + 1];
    if len == 2 {
      return 1;
    }
    SliceIs(p, o + i + 2, os[Find(os, kind)].data);
    v := ReadData(p, o + i + 2, len - 2);
  }

  lemma {:induction false} WalkStart(os: seq<Option>, pad: nat)
    ensures Walking(os, pad, 0, 0)
  {
    assert os[..0] == [];
  }

  /** Past the end of the area no option is left. */
  lemma {:induction false} WalkEnd(os: seq<Option>, pad: nat, j: nat, i: nat)
    requires Walking(os, pad, j, i) && i == Size(os) + pad
    ensures j == |os|
  {
    if j < |os| {
      SizeSplit(os, j);
    }
  }

  // ----- Stores -----

  /** a with the bytes b in place from position at on. */
  function Splice(a: seq<byte>, at: nat, b: seq<byte>): (r: seq<byte>)
    requires at + |b| <= |a|
    ensures |r| == |a|
  {
    a[..at] + b + a[at + |b|..]
  }

  method MemMove(a: array<byte>, dst: nat, src: nat, n: nat)
    requires dst + n <= a.Length && src + n <= a.Length
    modifies a
    ensures a[..] == Splice(old(a[..]), dst, old(a[src..src + n]))
  {
    forall i | 0 <= i < n {
      a[dst + i] := a[src + i];
    }
    assert a[dst..dst + n] == old(a[src..src + n]);
    assert a[..] == a[..dst] + a[dst..dst + n] + a[dst + n..];
  }

  method ZeroFill(a: array<byte>, at: nat, n: nat)
    requires at + n <= a.Length
    modifies a
    ensures a[..] == Splice(old(a[..]), at, Zeroes(n))
  {
    for i := 0 to n
      invariant forall k :: 0 <= k < a.Length && !(at <= k < at + i) ==> a[k] == old(a[k])
      invariant forall k :: at <= k < at + i ==> a[k] == 0
    {
      a[at + i] := 0;
    }
  }

  /** v shifted right by k bytes. */
  function ShiftBytes(v: nat, k: nat): nat { if k == 0 then v else ShiftBytes(v / 0x100, k - 1) }

  lemma {:induction false} BeBytesAt(v: nat, n: nat, k: nat)
    requires k < n
    ensures BeBytes(v, n)[k] == ShiftBytes(v, n - 1 - k) % 0x100
  {
    if k < n - 1 { BeBytesAt(v / 0x100, n - 1, k); }
  }

  /** Stores a number most significant byte first. */
  method WriteData(a: array<byte>, at: nat, v: nat, n: nat)
    requires at + n <= a.Length
    modifies a
    ensures a[..] == Splice(old(a[..]), at, BeBytes(v, n))
  {
    var count, k := n, 0;
    while count > 0
      invariant 0 <= count <= n && k == n - count
      invariant forall i :: 0 <= i < a.Length && !(at <= i < at + k) ==> a[i] == old(a[i])
      invariant forall i :: at <= i < at + k ==> a[i] == BeBytes(v, n)[i - at]
    {
      count := count - 1;
      BeBytesAt(v, n, k);
      a[at + k] := ShiftBytes(v, count) % 0x100;
      k := k + 1;
    }
  }

  // ----- Removing padding options -----

  lemma {:induction false} CloseGap(a: seq<byte>, b: seq<byte>, c: seq<byte>, z: nat, w: seq<byte>)
    requires w == a + b + (c + Zeroes(z)) && |b| == 1
    ensures w[..|a|] + w[|a| + 1..] + [0] == a + c + Zeroes(z + 1)
  {
    assert Zeroes(z + 1) == Zeroes(z) + [0];
  }

  /** Closing the gap left by a padding option adds a zero at the end. */
  lemma {:induction false} DropNop(os: seq<Option>, pad: nat, j: nat)
    requires j < |os| && os[j].Nop?
    ensures var a, i := Area(os, pad), Size(os[..j]);
      && i < |a| && Size(os[..j] + os[j + 1..]) == Size(os) - 1
      && a[..i] + a[i + 1..] + [0] == Area(os[..j] + os[j + 1..], pad + 1)
  {
    hide Encoded, Size;
    AreaSplit(os, pad, j);
    SizeSplit(os, j);
    EncodedConcat(os[..j], os[j + 1..]);
    SizeConcat(os[..j], os[j + 1..]);
    SizeConcat(os[..j + 1], os[j + 1..]);
    assert os == os[..j + 1] + os[j + 1..];
    CloseGap(Encoded(os[..j]), os[j].Bytes(), Encoded(os[j + 1..]), pad, Area(os, pad));
  }

  lemma {:induction false} RealConcat(a: seq<Option>, b: seq<Option>)
    ensures Real(a + b) == Real(a) + Real(b)
  {
    hide Size;
    if a == [] {
      assert a + b == b;
    } else {
      RealConcat(a[1..], b);
      assert (a + b)[1..] == a[1..] + b;
    }
  }

  lemma {:induction false} RealDrop(os: seq<Option>, j: nat)
    requires j < |os| && os[j].Nop?
    ensures Real(os[..j] + os[j + 1..]) == Real(os)
  {
    hide Size;
    RealConcat(os[..j], os[j + 1..]);
    RealConcat(os[..j], os[j..]);
    assert os == os[..j] + os[j..];
    assert os[j..][1..] == os[j + 1..];
    assert Real(os[j..]) == Real(os[j + 1..]);
    hide Real;
  }

  lemma {:induction false} RealAll(os: seq<Option>)
    requires forall k :: 0 <= k < |os| ==> os[k].Opt?
    ensures Real(os) == os
  {
    if os != [] { RealAll(os[1..]); }
  }

  /** Moves the rest of the area one byte forward over position i and puts a zero at its end. */
  method CloseByte(a: array<byte>, o: nat, n: nat, i: nat)
    requires i < n && o + n <= a.Length
    modifies a
    ensures a[o..o + n] == old(a[o..o + n])[..i] + old(a[o..o + n])[i + 1..] + [0]
    ensures forall k :: 0 <= k < a.Length && !(o <= k < o + n) ==> a[k] == old(a[k])
  {
    hide Splice;
    ghost var p, was := a[..], a[o..o + n];
    MemMove(a, o + i, o + i + 1, n - i - 1);
    SpliceAt(p, o + i, p[o + i + 1..o + i + 1 + (n - i - 1)]);
    a[o + n - 1] := 0;
    ClosedGap(p, a[..], o, n, i);
  }

  lemma {:induction false} ClosedGap(p: seq<byte>, p': seq<byte>, o: nat, n: nat, i: nat)
    requires i < n && o + n <= |p| == |p'|
    requires forall k :: o <= k < o + i ==> p'[k] == p[k]
    requires forall k :: o + i <= k < o + n - 1 ==> p'[k] == p[k + 1]
    requires p'[o + n - 1] == 0
    ensures p'[o..o + n] == p[o..o + n][..i] + p[o..o + n][i + 1..] + [0]
  {
    SliceIs(p', o, p[o..o + n][..i] + p[o..o + n][i + 1..] + [0]);
  }

  /** Removes every padding option from the area and says how many bytes are then free at its end. */
  method RemoveNops(a: array<byte>, o: nat, n: nat, ghost os: seq<Option>, ghost pad: nat) returns (space: nat)
    requires o + n <= a.Length && n == Size(os) + pad && a[o..o + n] == Area(os, pad)
    modifies a
    ensures space == n - Size(Real(os)) && a[o..o + n] == Area(Real(os), space)
    ensures forall k :: 0 <= k < a.Length && !(o <= k < o + n) ==> a[k] == old(a[k])
  {
    hide Size, Encoded, Area, Real;
    space := 0;
    var i: nat := 0;
    ghost var cur, z: nat, j: nat := os, pad, 0;
    WalkStart(os, pad);
    EmptySize();
    assert os[..0] == [];
    while i < n
      invariant n == Size(cur) + z && a[o..o + n] == Area(cur, z)
      invariant Walking(cur, z, j, i) && i == Size(cur[..j]) && Real(cur) == Real(os)
      invariant forall k :: 0 <= k < j ==> cur[k].Opt?
      invariant forall k :: 0 <= k < a.Length && !(o <= k < o + n) ==> a[k] == old(a[k])
      invariant space == 0
      decreases n - i
    {
      while a[o + i] == TCPOPT_NOP
        invariant n == Size(cur) + z && a[o..o + n] == Area(cur, z)
        invariant Walking(cur, z, j, i) && i == Size(cur[..j]) && Real(cur) == Real(os)
        invariant forall k :: 0 <= k < j ==> cur[k].Opt?
        invariant forall k :: 0 <= k < a.Length && !(o <= k < o + n) ==> a[k] == old(a[k])
        decreases |cur| - j
      {
        WalkStep(a[..], o, cur, z, j, i);
        DropNop(cur, z, j);
        RealDrop(cur, j);
        CloseByte(a, o, n, i);
        ghost var next := cur[..j] + cur[j + 1..];
        WalkKept(cur, z, j, i);
        assert next[..j] == cur[..j];
        cur, z := next, z + 1;
      }
      WalkStep(a[..], o, cur, z, j, i);
      if a[o + i] == TCPOPT_EOL {
        space := n - i;
        break;
      }
      SizeSplit(cur, j);
      i := i + OptLen(a[..], o + i);
      j := j + 1;
    }
    if i == n {
      WalkEnd(cur, z, j, i);
    }
    RealAll(cur);
    assert cur[..j] == cur;
  }

  lemma {:induction false} EmptySize()
    ensures Size([]) == 0
  {
  }

  lemma {:induction false} WalkKept(os: seq<Option>, pad: nat, j: nat, i: nat)
    requires Walking(os, pad, j, i) && j < |os| && os[j].Nop?
    ensures Walking(os[..j] + os[j + 1..], pad + 1, j, i)
  {
    hide Size;
    var next := os[..j] + os[j + 1..];
    assert next[..j] == os[..j];
    DropNop(os, pad, j);
    if j == |next| {
      assert next == os[..j];
    }
  }

  // ----- Growing the area and inserting -----

  /** The buffer starts with a header, an option area and a payload. */
  ghost predicate Parts(p: seq<byte>, h: seq<byte>, area: seq<byte>, d: seq<byte>)
  {
    && |h| + |area| + |d| <= |p|
    && p[..|h|] == h
    && p[|h|..|h| + |area|] == area
    && p[|h| + |area|..|h| + |area| + |d|] == d
  }

  lemma {:induction false} PartsAre(p: seq<byte>, h: seq<byte>, area: seq<byte>, d: seq<byte>)
    requires |h| + |area| + |d| <= |p|
    requires forall i :: 0 <= i < |h| ==> p[i] == h[i]
    requires forall i :: |h| <= i < |h| + |area| ==> p[i] == area[i - |h|]
    requires forall i :: |h| + |area| <= i < |h| + |area| + |d| ==> p[i] == d[i - |h| - |area|]
    ensures Parts(p, h, area, d)
  {
  }

  lemma {:induction false} PartsAt(p: seq<byte>, h: seq<byte>, area: seq<byte>, d: seq<byte>)
    requires Parts(p, h, area, d)
    ensures forall i :: 0 <= i < |h| ==> p[i] == h[i]
    ensures forall i :: |h| <= i < |h| + |area| ==> p[i] == area[i - |h|]
    ensures forall i :: |h| + |area| <= i < |h| + |area| + |d| ==> p[i] == d[i - |h| - |area|]
  {
    assert forall i :: 0 <= i < |h| ==> p[i] == p[..|h|][i];
    assert forall i :: |h| <= i < |h| + |area| ==> p[i] == p[|h|..|h| + |area|][i - |h|];
    assert forall i :: |h| + |area| <= i < |h| + |area| + |d| ==>
        p[i] == p[|h| + |area|..|h| + |area| + |d|][i - |h| - |area|];
  }

  /** Moves the payload back by g bytes and zeroes the gap, which thereby joins the option area. */
  method MovePayload(a: array<byte>, dataAt: nat, dataLen: nat, g: nat, ghost h: seq<byte>, ghost area: seq<byte>,
        ghost d: seq<byte>)
    requires Parts(a[..], h, area, d) && dataAt == |h| + |area| && dataLen == |d| && dataAt + dataLen + g <= a.Length
    modifies a
    ensures Parts(a[..], h, area + Zeroes(g), d)
  {
    hide Splice, Parts;
    ghost var p := a[..];
    PartsFit(p, h, area, d);
    PartsAt(p, h, area, d);
    MemMove(a, dataAt + g, dataAt, dataLen);
    SpliceAt(p, dataAt + g, p[dataAt..dataAt + dataLen]);
    ghost var p1 := a[..];
    ZeroFill(a, dataAt, g);
    SpliceAt(p1, dataAt, Zeroes(g));
    PartsAre(a[..], h, area + Zeroes(g), d);
  }

  lemma {:induction false} Inserted(p: seq<byte>, p': seq<byte>, h: seq<byte>, e: seq<byte>, q: nat, d: seq<byte>,
        b: seq<byte>)
    requires Parts(p, h, e + Zeroes(q), d) && |b| <= q && |p'| == |p|
    requires forall i :: |h| <= i < |h| + |b| ==> p'[i] == b[i - |h|]
    requires forall i :: |h| + |b| <= i < |h| + |b| + |e| ==> p'[i] == p[i - |b|]
    requires forall i :: 0 <= i < |p| && !(|h| <= i < |h| + |b| + |e|) ==> p'[i] == p[i]
    ensures Parts(p', h, b + e + Zeroes(q - |b|), d)
  {
    PartsAt(p, h, e + Zeroes(q), d);
    PartsAre(p', h, b + e + Zeroes(q - |b|), d);
  }

  /** Writes an option: kind, length, data. */
  method WriteOption(a: array<byte>, at: nat, kind: OptKind, len: nat, v: nat)
    requires 2 <= len <= 10 && at + len <= a.Length
    modifies a
    ensures a[..] == Splice(old(a[..]), at, Opt(kind, BeBytes(v, len - 2)).Bytes())
  {
    hide BeBytes;
    a[at], a[at + 1] := kind, len;
    WriteData(a, at + 2, v, len - 2);
  }

  lemma {:induction false} SpliceAt(a: seq<byte>, at: nat, b: seq<byte>)
    requires at + |b| <= |a|
    ensures forall i :: at <= i < at + |b| ==> Splice(a, at, b)[i] == b[i - at]
    ensures forall i :: 0 <= i < |a| && !(at <= i < at + |b|) ==> Splice(a, at, b)[i] == a[i]
  {
  }

  lemma {:induction false} SpliceIs(p: seq<byte>, q: seq<byte>, at: nat, b: seq<byte>)
    requires at + |b| <= |p| == |q|
    requires forall i :: at <= i < at + |b| ==> q[i] == b[i - at]
    requires forall i :: 0 <= i < |p| && !(at <= i < at + |b|) ==> q[i] == p[i]
    ensures q == Splice(p, at, b)
  {
    SpliceAt(p, at, b);
  }

  /** Shifts the options back and writes a new one in front of them. */
  method InsertFront(a: array<byte>, o: nat, used: nat, kind: OptKind, len: nat, v: nat, ghost h: seq<byte>,
        ghost r: seq<Option>, ghost q: nat, ghost d: seq<byte>)
    requires Parts(a[..], h, Area(r, q), d) && o == |h| && used == Size(r) && 2 <= len <= 10 && len <= q
    modifies a
    ensures Parts(a[..], h, Area([Opt(kind, BeBytes(v, len - 2))] + r, q - len), d)
  {
    hide Size, Encoded, BeBytes, Parts, Splice, Option.Bytes;
    ghost var p := a[..];
    PartsFit(p, h, Area(r, q), d);
    ghost var b := Opt(kind, BeBytes(v, len - 2)).Bytes();
    SizeCons(Opt(kind, BeBytes(v, len - 2)), r);
    MemMove(a, o + len, o, used);
    SpliceAt(p, o + len, p[o..o + used]);
    ghost var p1 := a[..];
    WriteOption(a, o, kind, len, v);
    SpliceAt(p1, o, b);
    Inserted(p, a[..], h, Encoded(r), q, d, b);
  }

  lemma {:induction false} PartsFit(p: seq<byte>, h: seq<byte>, area: seq<byte>, d: seq<byte>)
    requires Parts(p, h, area, d)
    ensures |h| + |area| + |d| <= |p|
  {
  }

  lemma {:induction false} HeadFields(p: seq<byte>, h: seq<byte>)
    requires HeadOk(h) && |h| <= |p| && p[..|h|] == h
    ensures Readable(p) && TcpAt(p) == TcpAt(h) && Doff(p) == Doff(h) && TotLen(p) == TotLen(h) && SeqNo(p) == SeqNo(h)
    ensures p[TcpAt(p) + 12] == h[TcpAt(h) + 12]
  {
    assert forall i :: 0 <= i < |h| ==> p[i] == p[..|h|][i] == h[i];
  }

  lemma {:induction false} ResizedSame(h: seq<byte>, area: nat, data: nat)
    requires HeadOk(h) && area == 4 * Doff(h) - 20 && TotLen(h) == |h| + area + data
    ensures Resized(h, area, data) == h
  {
    var t := TcpAt(h) + 12;
    var r := Resized(h, area, data);
    assert (area + 20) / 4 == Doff(h);
    assert r[2] == h[2] && r[3] == h[3] && r[t] == h[t];
  }

  /** Adds words to the data offset and the same number of bytes to the total length. */
  method SetLengths(a: array<byte>, addoff: nat, ghost h: seq<byte>, ghost area: seq<byte>, ghost d: seq<byte>)
    requires Parts(a[..], h, area, d) && HeadOk(h)
    requires 4 * (Doff(h) + addoff) - 20 == |area| <= 40
    requires TotLen(h) + 4 * addoff == |h| + |area| + |d| < 0x1_0000
    modifies a
    ensures Parts(a[..], Resized(h, |area|, |d|), area, d)
  {
    hide Resized, Doff, TotLen, Parts, SeqNo;
    ghost var p := a[..];
    PartsFit(p, h, area, d);
    HeadFieldsOf(p, h, area, d);
    var t := TcpAt(a[..]) + 12;
    var total := TotLen(a[..]) + 4 * addoff;
    var word := (Doff(a[..]) + addoff) * 16 + a[t] % 16;
    a[2], a[3], a[t] := total / 0x100, total % 0x100, word;
    ResizedIs(h, |area|, |d|);
    HeadRewritten(p, a[..], h, Resized(h, |area|, |d|), area, d, t);
  }

  lemma {:induction false} HeadRewritten(p: seq<byte>, p': seq<byte>, h: seq<byte>, h': seq<byte>, area: seq<byte>,
        d: seq<byte>, t: nat)
    requires Parts(p, h, area, d) && |p'| == |p| && |h'| == |h| > t > 3
    requires forall i :: 0 <= i < |p| && i != 2 && i != 3 && i != t ==> p'[i] == p[i]
    requires forall i :: 0 <= i < |h| && i != 2 && i != 3 && i != t ==> h'[i] == h[i]
    requires p'[2] == h'[2] && p'[3] == h'[3] && p'[t] == h'[t]
    ensures Parts(p', h', area, d)
  {
    PartsAt(p, h, area, d);
    PartsAre(p', h', area, d);
  }

  lemma {:induction false} ResizedIs(h: seq<byte>, area: nat, data: nat)
    requires HeadOk(h) && area % 4 == 0 && area <= 40 && |h| + area + data < 0x1_0000
    ensures var r, total, t := Resized(h, area, data), |h| + area + data, TcpAt(h) + 12;
      && |r| == |h| && r[2] == total / 0x100 && r[3] == total % 0x100 && r[t] == (area + 20) / 4 * 16 + h[t] % 16
      && forall i :: 0 <= i < |h| && i != 2 && i != 3 && i != t ==> r[i] == h[i]
  {
  }

  // ----- Setting an option -----

  /** Walks to the first option of the given kind and length. */
  method LocateExact(p: seq<byte>, o: nat, n: nat, kind: OptKind, len: nat, ghost os: seq<Option>, ghost pad: nat)
    returns (i: nat)
    requires o + n <= |p| && n == Size(os) + pad && p[o..o + n] == Area(os, pad)
    ensures var j := FindExact(os, kind, len);
      if j == |os| then i == n else i == Size(os[..j]) && i + len <= n
  {
    hide Size, Encoded, Area;
    i := 0;
    ghost var j: nat := 0;
    WalkStart(os, pad);
    while i < n
      invariant Walking(os, pad, j, i)
      invariant j <= FindExact(os, kind, len)
    {
      WalkStep(p, o, os, pad, j, i);
      if p[o + i] == kind && n + 20 - i >= len && p[o + i + 1] == len {
        assert j == FindExact(os, kind, len);
        return;
      }
      assert j < |os| ==> j != FindExact(os, kind, len);
      i := i + OptLen(p, o + i);
      j := if j < |os| then j + 1 else j;
    }
    WalkEnd(os, pad, j, i);
  }

  /** Replacing the data bytes of an option in the area. */
  lemma {:induction false} AreaUpdate(os: seq<Option>, pad: nat, j: nat, o: Option)
    requires j < |os| && os[j].Opt? && o.Opt? && o.kind == os[j].kind && |o.data| == |os[j].data|
    ensures var i := Size(os[..j]);
      && i + 2 + |o.data| <= |Area(os, pad)|
      && Area(os[j := o], pad) == Splice(Area(os, pad), i + 2, o.data)
  {
    hide Encoded, Size;
    var os' := os[j := o];
    AreaSplit(os, pad, j);
    AreaSplit(os', pad, j);
    assert os'[..j] == os[..j] && os'[j + 1..] == os[j + 1..];
    ReplaceData(Encoded(os[..j]), os[j].Bytes(), o.Bytes(), Encoded(os[j + 1..]) + Zeroes(pad), Area(os, pad),
      Area(os', pad));
  }

  lemma {:induction false} ReplaceData(a: seq<byte>, b: seq<byte>, b': seq<byte>, c: seq<byte>, w: seq<byte>,
        w': seq<byte>)
    requires w == a + b + c && w' == a + b' + c && |b| == |b'| >= 2 && b[..2] == b'[..2]
    ensures w' == Splice(w, |a| + 2, b'[2..])
  {
    assert b' == b[..2] + b'[2..];
  }

  lemma {:induction false} HoldsAsParts(p: seq<byte>, s: Segment)
    ensures Holds(p, s) <==> s.Valid() && Parts(p, s.head, Area(s.opts, s.pad), s.data)
  {
    hide Area, Size;
    if Holds(p, s) {
      HoldsParts(p, s);
    }
    if s.Valid() && Parts(p, s.head, Area(s.opts, s.pad), s.data) {
      HoldsFrom(p, s);
    }
  }

  /** Overwrites the data of option j, found at offset i of the area. */
  method Overwrite(a: array<byte>, o: nat, i: nat, kind: OptKind, len: nat, v: nat, ghost s: Segment)
    requires Holds(a[..], s) && 2 <= len <= 10 && |s.Bytes()| + 12 < 0x1_0000
    requires o == |s.head| && FindExact(s.opts, kind, len) < |s.opts| &&
      i == Size(s.opts[..FindExact(s.opts, kind, len)])
    modifies a
    ensures Holds(a[..], Set(s, kind, len, v))
  {
    hide Size, Encoded, BeBytes, Parts, Splice, Set, Holds, FindExact, Area;
    ghost var p, j, added := a[..], FindExact(s.opts, kind, len), Opt(kind, BeBytes(v, len - 2));
    HoldsAsParts(p, s);
    PartsFit(p, s.head, Area(s.opts, s.pad), s.data);
    AreaUpdate(s.opts, s.pad, j, added);
    WriteData(a, o + i + 2, v, len - 2);
    SpliceArea(p, s.head, Area(s.opts, s.pad), s.data, i + 2, BeBytes(v, len - 2));
    SetInPlace(s, kind, len, v);
    HoldsAsParts(a[..], Set(s, kind, len, v));
  }

  lemma {:induction false} SpliceArea(p: seq<byte>, h: seq<byte>, area: seq<byte>, d: seq<byte>, at: nat, b: seq<byte>)
    requires Parts(p, h, area, d) && at + |b| <= |area|
    ensures |h| + at + |b| <= |p| && Parts(Splice(p, |h| + at, b), h, Splice(area, at, b), d)
  {
    PartsAt(p, h, area, d);
    SpliceAt(p, |h| + at, b);
    SpliceAt(area, at, b);
    PartsAre(Splice(p, |h| + at, b), h, Splice(area, at, b), d);
  }

  lemma {:induction false} SetInPlace(s: Segment, kind: OptKind, len: nat, v: nat)
    requires s.Valid() && 2 <= len <= 10 && |s.Bytes()| + 12 < 0x1_0000 && FindExact(s.opts, kind, len) < |s.opts|
    ensures var j, added, s' := FindExact(s.opts, kind, len), Opt(kind, BeBytes(v, len - 2)), Set(s, kind, len, v);
      s'.Valid() && s' == s.(opts := s.opts[j := added])
  {
    hide Size, BeBytes, FindExact, Resized;
    SetValid(s, kind, len, v);
    SizeUpdate(s.opts, FindExact(s.opts, kind, len), Opt(kind, BeBytes(v, len - 2)));
  }

  lemma {:induction false} SetRefused(s: Segment, kind: OptKind, len: nat, v: nat)
    requires s.Valid() && 2 <= len <= 10 && |s.Bytes()| + 12 < 0x1_0000 && !HasRoom(s, kind, len)
    ensures var s' := Set(s, kind, len, v);
      s'.Valid() && s' == s.(opts := Real(s.opts), pad := FreeSpace(s))
  {
    hide Size, FindExact, Resized, Real, BeBytes;
    SetValid(s, kind, len, v);
  }

  lemma {:induction false} ResizedHead(s: Segment, kind: OptKind, len: nat)
    requires s.Valid() && 2 <= len <= 10 && |s.Bytes()| + 12 < 0x1_0000
    ensures s.AreaSize() + Growth(s, kind, len) <= 40 && Growth(s, kind, len) % 4 == 0 && Growth(s, kind, len) <= 12
    ensures NewHead(s, kind, len) == Resized(s.head, s.AreaSize() + Growth(s, kind, len), |s.data|)
  {
    hide Growth, Resized, Size;
    GrowthFits(s, kind, len);
    ResizedSame(s.head, s.AreaSize(), |s.data|);
  }

  lemma {:induction false} SetInserted(s: Segment, kind: OptKind, len: nat, v: nat)
    requires s.Valid() && 2 <= len <= 10 && |s.Bytes()| + 12 < 0x1_0000
    requires FindExact(s.opts, kind, len) == |s.opts| && HasRoom(s, kind, len)
    ensures var s' := Set(s, kind, len, v);
      && s'.opts == [Opt(kind, BeBytes(v, len - 2))] + Real(s.opts)
      && s'.head == NewHead(s, kind, len) && s'.data == s.data
      && Growth(s, kind, len) == 4 * WordsNeeded(FreeSpace(s), len)
      && s'.pad == FreeSpace(s) + Growth(s, kind, len) - len
  {
    hide Size, FindExact, NewHead, Real, BeBytes, WordsNeeded;
    SizeCons(Opt(kind, BeBytes(v, len - 2)), Real(s.opts));
  }

  /**
   Sets an option of up to eight data bytes. The result says whether there was room, and the
   buffer then holds exactly the packet the specification describes.
   */
  method SetOption(a: array<byte>, kind: OptKind, len: nat, v: nat, ghost s: Segment) returns (ok: bool)
    requires Holds(a[..], s) && 2 <= len <= 10
    requires |s.Bytes()| + Growth(s, kind, len) <= a.Length < 0x1_0000 - 12
    modifies a
    ensures ok == HasRoom(s, kind, len)
    ensures Holds(a[..], Set(s, kind, len, v))
  {
    hide Size, Encoded, Parts, Set, Holds, FindExact, Area, Real, Resized, WordsNeeded, Segment.Bytes;
    HoldsParts(a[..], s);
    var o, n := TcpAt(a[..]) + 20, Doff(a[..]) * 4 - 20;
    var i := LocateExact(a[..], o, n, kind, len, s.opts, s.pad);
    if i < n {
      Overwrite(a, o, i, kind, len, v, s);
      return true;
    }
    ok := InsertOption(a, o, n, kind, len, v, s);
  }

  /** Words to add so that len bytes fit. */
  method AddoffNeeded(space: nat, len: nat) returns (addoff: nat)
    ensures addoff == WordsNeeded(space, len)
  {
    addoff := 0;
    if space < len {
      var needed := len - space;
      addoff := needed / 4;
      if needed % 4 != 0 {
        addoff := addoff + 1;
      }
    }
  }

  /** Removes the padding options of a packet. */
  method StripNops(a: array<byte>, o: nat, n: nat, ghost s: Segment) returns (space: nat)
    requires Holds(a[..], s) && o == |s.head| && n == s.AreaSize()
    modifies a
    ensures s.Valid() && space == FreeSpace(s) && Parts(a[..], s.head, Area(Real(s.opts), space), s.data)
    ensures Doff(a[..]) == Doff(s.head)
  {
    hide Size, Encoded, Parts, Holds, Area, Real, Segment.Bytes, Doff, TotLen, SeqNo, HeadOk;
    HoldsParts(a[..], s);
    HoldsAsParts(a[..], s);
    ghost var p := a[..];
    space := RemoveNops(a, o, n, s.opts, s.pad);
    AreaRewritten(p, a[..], s.head, Area(s.opts, s.pad), Area(Real(s.opts), space), s.data);
    HeadFieldsOf(a[..], s.head, Area(Real(s.opts), space), s.data);
  }

  /** The case where no option of the kind and length is there to be overwritten. */
  method InsertOption(a: array<byte>, o: nat, n: nat, kind: OptKind, len: nat, v: nat, ghost s: Segment)
    returns (ok: bool)
    requires Holds(a[..], s) && 2 <= len <= 10
    requires |s.Bytes()| + Growth(s, kind, len) <= a.Length < 0x1_0000 - 12
    requires o == |s.head| && n == s.AreaSize() && FindExact(s.opts, kind, len) == |s.opts|
    modifies a
    ensures ok == HasRoom(s, kind, len)
    ensures Holds(a[..], Set(s, kind, len, v))
  {
    hide Size, Encoded, Parts, Set, Holds, FindExact, Area, Real, Resized, Segment.Bytes, Doff, TotLen, SeqNo, HeadOk,
      WordsNeeded, BeBytes;
    ghost var r := Real(s.opts);
    var space := StripNops(a, o, n, s);
    var addoff := AddoffNeeded(space, len);
    ok := Doff(a[..]) + addoff <= 15;
    if ok {
      Enlarge(a, o, n, space, addoff, kind, len, v, s.head, r, s.data);
      ResizedHead(s, kind, len);
      SetInserted(s, kind, len, v);
      SetValid(s, kind, len, v);
    } else {
      SetRefused(s, kind, len, v);
    }
    HoldsAsParts(a[..], Set(s, kind, len, v));
  }

  /** Grows the area by addoff words, inserts the option in front and updates both length fields. */
  method Enlarge(a: array<byte>, o: nat, n: nat, space: nat, addoff: nat, kind: OptKind, len: nat, v: nat,
        ghost h: seq<byte>, ghost r: seq<Option>, ghost d: seq<byte>)
    requires HeadOk(h) && Parts(a[..], h, Area(r, space), d) && o == |h| && n == Size(r) + space == 4 * Doff(h) - 20
    requires TotLen(h) == |h| + n + |d| && |h| + n + |d| + 4 * addoff <= a.Length < 0x1_0000 - 12
    requires 2 <= len <= 10 && len <= space + 4 * addoff && Doff(h) + addoff <= 15
    modifies a
    ensures Parts(a[..], Resized(h, n + 4 * addoff, |d|),
      Area([Opt(kind, BeBytes(v, len - 2))] + r, space + 4 * addoff - len), d)
  {
    hide Size, Encoded, Parts, Area, Resized, Doff, TotLen, BeBytes;
    HeadFieldsOf(a[..], h, Area(r, space), d);
    AreaWider(r, space, 4 * addoff);
    if addoff != 0 {
      MovePayload(a, o + n, TotLen(a[..]) - (o + n), 4 * addoff, h, Area(r, space), d);
    }
    InsertFront(a, o, n - space, kind, len, v, h, r, space + 4 * addoff, d);
    SizeCons(Opt(kind, BeBytes(v, len - 2)), r);
    SetLengths(a, addoff, h, Area([Opt(kind, BeBytes(v, len - 2))] + r, space + 4 * addoff - len), d);
  }

  lemma {:induction false} AreaWider(r: seq<Option>, pad: nat, g: nat)
    ensures Area(r, pad) + Zeroes(g) == Area(r, pad + g)
  {
  }

  lemma {:induction false} AreaRewritten(p: seq<byte>, p': seq<byte>, h: seq<byte>, area: seq<byte>, area': seq<byte>,
        d: seq<byte>)
    requires Parts(p, h, area, d) && |p'| == |p| && |area'| == |area|
    requires p'[|h|..|h| + |area|] == area'
    requires forall k :: 0 <= k < |p| && !(|h| <= k < |h| + |area|) ==> p'[k] == p[k]
    ensures Parts(p', h, area', d)
  {
    PartsAt(p, h, area, d);
    assert forall i :: |h| <= i < |h| + |area| ==> p'[i] == p'[|h|..|h| + |area|][i - |h|];
    PartsAre(p', h, area', d);
  }

  lemma {:induction false} HeadFieldsOf(p: seq<byte>, h: seq<byte>, area: seq<byte>, d: seq<byte>)
    requires Parts(p, h, area, d) && HeadOk(h)
    ensures Doff(p) == Doff(h) && TotLen(p) == TotLen(h) && TcpAt(p) == TcpAt(h) && p[TcpAt(p) + 12] == h[TcpAt(h) + 12]
  {
    HeadFields(p, h);
  }
}
