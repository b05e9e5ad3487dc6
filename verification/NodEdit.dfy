/** Tagging packets in place: option 33 is started, named and filled, whether or not there is room for it. */
module NodEdit {
  import opened Bytes
  import opened TcpPacket
  import opened TcpOptions
  import opened TcpOptionEdit
  import opened Nod

  // ----- Option areas that may end inside their last option -----

  /** The last option, behind no padding options, reaches past an area of n bytes. */
  ghost predicate Overhangs(os: seq<Option>, n: int)
  {
    os != [] && Plain(os) && Size(os[..|os| - 1]) < n < Size(os)
  }

  ghost predicate Bounded(os: seq<Option>, pad: nat, n: int)
  {
    n == Size(os) + pad || (pad == 0 && Overhangs(os, n))
  }

  /** A walk that removes padding options: behind it none are left, and an overhanging area is as it was. */
  ghost predicate Removing(p: seq<byte>, o: nat, n: nat, os: seq<Option>, pad: nat, cur: seq<Option>, z: nat, j: nat,
        i: nat, q: seq<byte>)
  {
    && o + Size(os) + pad <= |p| == |q| && Bounded(os, pad, n) && Size(cur) + z == Size(os) + pad
    && p[o..o + Size(os) + pad] == Area(cur, z) && Walking(cur, z, j, i) && Real(cur) == Real(os)
    && (forall k :: 0 <= k < j ==> cur[k].Opt?)
    && (forall k :: 0 <= k < |p| && !(o <= k < o + n) ==> p[k] == q[k])
    && (n < Size(os) + pad ==> cur == os && p == q)
  }

  /** Closes up over the padding options at one place. */
  method DropNops(a: array<byte>, o: nat, n: nat, i: nat, ghost os: seq<Option>, ghost pad: nat,
        ghost cur0: seq<Option>, ghost z0: nat, ghost j: nat, ghost q: seq<byte>)
    returns (ghost cur: seq<Option>, ghost z: nat)
    requires i < n && Removing(a[..], o, n, os, pad, cur0, z0, j, i, q)
    modifies a
    ensures Removing(a[..], o, n, os, pad, cur, z, j, i, q) && a[o + i] != TCPOPT_NOP
  {
    hide Size, Encoded, Area, Real;
    cur, z := cur0, z0;
    while a[o + i] == TCPOPT_NOP
      invariant Removing(a[..], o, n, os, pad, cur, z, j, i, q)
      decreases |cur| - j
    {
      ghost var p := a[..];
      NopHere(p, o, n, os, pad, cur, z, j, i, q);
      CloseByte(a, o, n, i);
      Dropped(p, a[..], o, n, os, pad, cur, z, j, i, q);
      cur, z := cur[..j] + cur[j + 1..], z + 1;
    }
  }

  lemma {:induction false} NopHere(p: seq<byte>, o: nat, n: nat, os: seq<Option>, pad: nat, cur: seq<Option>, z: nat,
        j: nat, i: nat, q: seq<byte>)
    requires i < n && Removing(p, o, n, os, pad, cur, z, j, i, q) && o + i < |p| && p[o + i] == TCPOPT_NOP
    ensures j < |cur| && cur[j].Nop? && n == Size(os) + pad && i == Size(cur[..j])
  {
    hide Size, Encoded, Area, Real;
    WalkStep(p, o, cur, z, j, i);
  }

  lemma {:induction false} Dropped(p: seq<byte>, p': seq<byte>, o: nat, n: nat, os: seq<Option>, pad: nat,
        cur: seq<Option>, z: nat, j: nat, i: nat, q: seq<byte>)
    requires i < n && Removing(p, o, n, os, pad, cur, z, j, i, q) && |p'| == |p|
    requires j < |cur| && cur[j].Nop? && n == Size(os) + pad && i == Size(cur[..j])
    requires p'[o..o + n] == p[o..o + n][..i] + p[o..o + n][i + 1..] + [0]
    requires forall k :: 0 <= k < |p| && !(o <= k < o + n) ==> p'[k] == p[k]
    ensures Removing(p', o, n, os, pad, cur[..j] + cur[j + 1..], z + 1, j, i, q)
  {
    hide Size, Encoded, Area, Real;
    DropNop(cur, z, j);
    RealDrop(cur, j);
    WalkKept(cur, z, j, i);
  }

  /** Removes every padding option, walking through the padding to the end of the area. */
  method RemoveAllNops(a: array<byte>, o: nat, n: nat, ghost os: seq<Option>, ghost pad: nat)
    requires o + Size(os) + pad <= a.Length && a[o..o + Size(os) + pad] == Area(os, pad) && Bounded(os, pad, n)
    modifies a
    ensures n < Size(os) ==> a[..] == old(a[..])
    ensures n >= Size(os) ==> Size(Real(os)) <= n && a[o..o + n] == Area(Real(os), n - Size(Real(os)))
    ensures forall k :: 0 <= k < a.Length && !(o <= k < o + n) ==> a[k] == old(a[k])
  {
    hide Size, Encoded, Area, Real;
    var i: nat := 0;
    ghost var cur, z: nat, j: nat, q := os, pad, 0, a[..];
    WalkStart(os, pad);
    while i < n
      invariant Removing(a[..], o, n, os, pad, cur, z, j, i, q)
      decreases n - i
    {
      cur, z := DropNops(a, o, n, i, os, pad, cur, z, j, q);
      WalkStep(a[..], o, cur, z, j, i);
      i := i + OptLen(a[..], o + i);
      j := if j < |cur| then j + 1 else j;
    }
    if n == Size(os) + pad {
      WalkEnd(cur, z, j, i);
      RealAll(cur);
    }
  }

  /** Walks to the end-of-list byte; the end of the area if there is none. */
  method LocateEol(p: seq<byte>, o: nat, n: nat, ghost os: seq<Option>, ghost pad: nat) returns (i: nat)
    requires o + Size(os) + pad <= |p| && p[o..o + Size(os) + pad] == Area(os, pad) && Bounded(os, pad, n)
    ensures i == if pad > 0 then Size(os) else n
  {
    hide Size, Encoded, Area;
    i := 0;
    ghost var j: nat := 0;
    WalkStart(os, pad);
    WholeSize(os);
    while i < n
      invariant Walking(os, pad, j, i) && i == Size(os[..j])
    {
      WalkStep(p, o, os, pad, j, i);
      if p[o + i] == TCPOPT_EOL {
        assert j == |os|;
        return;
      }
      SizeSplit(os, j);
      i := i + OptLen(p, o + i);
      j := j + 1;
    }
    if n == Size(os) + pad {
      WalkEnd(os, pad, j, i);
    }
    i := n;
  }

  lemma {:induction false} WholeSize(os: seq<Option>)
    ensures os[..|os|] == os && Size(os[..0]) == 0
  {
    assert os[..0] == [];
  }

  /** Bytes of the option area that a header announces. */
  function AreaLen(h: seq<byte>): int { 4 * Doff(h) - 20 }

  /** A header with its length fields, options that may reach past the area, and a payload behind the area. */
  ghost predicate Laid(p: seq<byte>, h: seq<byte>, os: seq<Option>, pad: nat, d: seq<byte>)
  {
    && HeadOk(h) && TotLen(h) == |h| + AreaLen(h) + |d| && Bounded(os, pad, AreaLen(h))
    && |h| + Size(os) + pad <= |p| && p[|h|..|h| + Size(os) + pad] == Area(os, pad)
    && Parts(p, h, AreaBytes(h, os, pad), d)
  }

  ghost function AreaBytes(h: seq<byte>, os: seq<Option>, pad: nat): (s: seq<byte>)
    requires HeadOk(h) && Bounded(os, pad, AreaLen(h))
    ensures |s| == AreaLen(h)
  {
    Area(os, pad)[..AreaLen(h)]
  }

  /** A well-formed packet is one without overhang. */
  lemma {:induction false} LaidSegment(p: seq<byte>, s: Segment)
    ensures Holds(p, s) <==> s.AreaSize() == AreaLen(s.head) && Laid(p, s.head, s.opts, s.pad, s.data)
  {
    hide Size, Area, Segment.Bytes, Holds, Doff, TotLen, SeqNo;
    HoldsAsParts(p, s);
    if s.Valid() {
      assert AreaBytes(s.head, s.opts, s.pad) == Area(s.opts, s.pad);
    }
    if s.AreaSize() == AreaLen(s.head) && Laid(p, s.head, s.opts, s.pad, s.data) {
      assert AreaBytes(s.head, s.opts, s.pad) == Area(s.opts, s.pad);
    }
  }

  /** What is left of the options once padding options are gone: an overhanging area keeps all it has. */
  function Kept(h: seq<byte>, os: seq<Option>): seq<Option> { if AreaLen(h) < Size(os) then os else Real(os) }

  /** Bytes then free behind the options. */
  function Free(h: seq<byte>, os: seq<Option>): nat
  {
    if AreaLen(h) < Size(os) then 0 else AreaLen(h) - Size(Real(os))
  }

  /** Removes the padding options and counts the bytes then free. */
  method TakeFreeSpace(a: array<byte>, ghost h: seq<byte>, ghost os: seq<Option>, ghost pad: nat, ghost d: seq<byte>)
    returns (space: nat)
    requires Laid(a[..], h, os, pad, d)
    modifies a
    ensures space == Free(h, os) && Laid(a[..], h, Kept(h, os), space, d)
    ensures AreaLen(h) < Size(os) ==> a[..] == old(a[..])
  {
    hide Size, Encoded, Parts, Area, Real, Doff, TotLen, SeqNo, HeadOk, Holds;
    LaidHead(a[..], h, os, pad, d);
    ghost var p, r := a[..], Real(os);
    var o, n := TcpAt(a[..]) + 20, Doff(a[..]) * 4 - 20;
    RemoveAllNops(a, o, n, os, pad);
    if n >= Size(os) {
      StrippedLaid(p, a[..], h, os, pad, d);
    }
    var i := LocateEol(a[..], o, n, Kept(h, os), Free(h, os));
    space := n - i;
  }

  lemma {:induction false} LaidHead(p: seq<byte>, h: seq<byte>, os: seq<Option>, pad: nat, d: seq<byte>)
    requires Laid(p, h, os, pad, d)
    ensures Readable(p) && TcpAt(p) + 20 == |h| && Doff(p) == Doff(h) && TotLen(p) == TotLen(h) &&
      |h| + AreaLen(h) + |d| <= |p|
    ensures 5 <= Doff(h) <= 15 && 0 <= AreaLen(h) <= Size(os) + pad
  {
    hide Size, Area, Doff, TotLen, SeqNo;
    HeadFields(p, h);
  }

  lemma {:induction false} StrippedLaid(p: seq<byte>, q: seq<byte>, h: seq<byte>, os: seq<Option>, pad: nat,
        d: seq<byte>)
    requires Laid(p, h, os, pad, d) && AreaLen(h) == Size(os) + pad && |q| == |p|
    requires Size(Real(os)) <= AreaLen(h) && q[|h|..|h| + AreaLen(h)] == Area(Real(os), AreaLen(h) - Size(Real(os)))
    requires forall k :: 0 <= k < |p| && !(|h| <= k < |h| + AreaLen(h)) ==> q[k] == p[k]
    ensures Laid(q, h, Real(os), AreaLen(h) - Size(Real(os)), d)
  {
    hide Size, Area, Real, Doff, TotLen, SeqNo, HeadOk, Parts;
    var n, area := AreaLen(h), Area(Real(os), AreaLen(h) - Size(Real(os)));
    AreaRewritten(p, q, h, AreaBytes(h, os, pad), area, d);
    assert AreaBytes(h, Real(os), n - Size(Real(os))) == area;
  }

  /** Grows the option area by whole words, unless there is nothing to add or no room. */
  method Widen(a: array<byte>, addoff: nat, ghost h: seq<byte>, ghost area: seq<byte>, ghost d: seq<byte>)
    returns (ok: bool)
    requires Parts(a[..], h, area, d) && HeadOk(h) && |area| == AreaLen(h) && TotLen(h) == |h| + |area| + |d|
    requires |h| + 40 + |d| <= a.Length < 0x1_0000 - 12
    modifies a
    ensures ok == (addoff > 0 && Doff(h) + addoff <= 15)
    ensures ok ==> Parts(a[..], Resized(h, |area| + 4 * addoff, |d|), area + Zeroes(4 * addoff), d)
    ensures !ok ==> a[..] == old(a[..])
  {
    hide Parts, Area, SeqNo, TotLen, Doff, Resized;
    PartsFit(a[..], h, area, d);
    HeadFieldsOf(a[..], h, area, d);
    ok := addoff != 0 && Doff(a[..]) + addoff <= 15;
    if ok {
      var at := TcpAt(a[..]) + 4 * Doff(a[..]);
      MovePayload(a, at, TotLen(a[..]) - at, 4 * addoff, h, area, d);
      SetLengths(a, addoff, h, area + Zeroes(4 * addoff), d);
    }
  }

  /** The words an area must grow by to take len more bytes, where that is needed and possible; otherwise 0. */
  function Growing(h: seq<byte>, os: seq<Option>, len: nat): (w: nat)
    ensures w > 0 ==> Doff(h) + w <= 15
  {
    var w := WordsNeeded(Free(h, os), len);
    if Doff(h) + w <= 15 then w else 0
  }

  /** Padding options removed and the area grown by w words, in front of an unchanged payload. */
  ghost predicate Widened(p: seq<byte>, h: seq<byte>, os: seq<Option>, w: nat, d: seq<byte>)
  {
    var n := AreaLen(h);
    && HeadOk(h) && n + 4 * w <= 40 && |h| + n + 4 * w + |d| < 0x1_0000 && Bounded(Kept(h, os), Free(h, os), n)
    && Parts(p, Resized(h, n + 4 * w, |d|), AreaBytes(h, Kept(h, os), Free(h, os)) + Zeroes(4 * w), d)
  }

  /** Makes room for len more bytes: fails when no growth is needed as well as when it is not possible. */
  method AddBytes(a: array<byte>, len: nat, ghost h: seq<byte>, ghost os: seq<Option>, ghost pad: nat,
        ghost d: seq<byte>)
    returns (ok: bool)
    requires Laid(a[..], h, os, pad, d) && |h| + 40 + |d| <= a.Length < 0x1_0000 - 12
    modifies a
    ensures ok == (Growing(h, os, len) > 0)
    ensures !ok ==> Laid(a[..], h, Kept(h, os), Free(h, os), d) && (AreaLen(h) < Size(os) ==> a[..] == old(a[..]))
    ensures ok ==> Widened(a[..], h, os, Growing(h, os, len), d)
  {
    hide Size, Encoded, Parts, Area, Real, SeqNo, HeadOk, WordsNeeded, Doff, Resized, Holds;
    LaidHead(a[..], h, os, pad, d);
    var space := TakeFreeSpace(a, h, os, pad, d);
    var addoff := AddoffNeeded(space, len);
    ok := Widen(a, addoff, h, AreaBytes(h, Kept(h, os), space), d);
  }

  /** On a well-formed packet that is the specified growth. */
  lemma {:induction false} FittedHolds(p: seq<byte>, s: Segment, len: nat)
    requires s.Valid() && Small(s)
    ensures Growing(s.head, s.opts, len) == Needed(s, len)
    ensures Needed(s, len) > 0 && Widened(p, s.head, s.opts, Needed(s, len), s.data) ==> Holds(p, Fitted(s, len))
    ensures Needed(s, len) == 0 && Laid(p, s.head, Kept(s.head, s.opts), Free(s.head, s.opts), s.data) ==>
      Holds(p, Fitted(s, len))
  {
    hide Size, Real, Area, Parts, Resized, Segment.Bytes, Holds, SeqNo, WordsNeeded;
    var r, f, w := Real(s.opts), FreeSpace(s), Needed(s, len);
    StrippedValid(s);
    LaidSegment(p, Stripped(s));
    if w > 0 && Widened(p, s.head, s.opts, w, s.data) {
      assert AreaBytes(s.head, r, f) == Area(r, f);
      AreaWider(r, f, 4 * w);
      HoldsAsParts(p, Fitted(s, len));
    }
  }

  /** The same for a well-formed packet. */
  method AddBytesTo(a: array<byte>, len: nat, ghost s: Segment) returns (ok: bool)
    requires Holds(a[..], s) && Small(s) && |s.head| + 40 + |s.data| <= a.Length < 0x1_0000 - 12
    modifies a
    ensures ok == (Needed(s, len) > 0) && Holds(a[..], Fitted(s, len))
  {
    hide Size, Encoded, Parts, Holds, Area, Real, Segment.Bytes, SeqNo, HeadOk, Doff, TotLen, Needed, Fitted, Laid,
      Widened;
    LaidSegment(a[..], s);
    HoldsAsParts(a[..], s);
    ok := AddBytes(a, len, s.head, s.opts, s.pad, s.data);
    FittedHolds(a[..], s, len);
  }

  /** Writing an option over the last one, or at the end of the options, where it only eats padding. */
  lemma {:induction false} LastWritten(p: seq<byte>, s: Segment, r: seq<Option>, last: seq<Option>, o: Option)
    requires Holds(p, s) && s.opts == r + last && |last| <= 1 && (last != [] ==> last[0].Length() <= o.Length())
    requires Size(r) + o.Length() <= s.AreaSize()
    ensures |s.head| + Size(r) + o.Length() <= |p|
    ensures Holds(Splice(p, |s.head| + Size(r), o.Bytes()), LastSet(s, r, o))
  {
    hide Size, Encoded, Parts, Holds, Splice, Option.Bytes, Option.Length;
    HoldsAsParts(p, s);
    PartsFit(p, s.head, Area(s.opts, s.pad), s.data);
    var t := LastSet(s, r, o);
    LastArea(r, last, s.pad, o, t.pad);
    SpliceArea(p, s.head, Area(s.opts, s.pad), s.data, Size(r), o.Bytes());
    HoldsAsParts(Splice(p, |s.head| + Size(r), o.Bytes()), t);
  }

  lemma {:induction false} LastArea(r: seq<Option>, last: seq<Option>, pad: nat, o: Option, pad': nat)
    requires |last| <= 1 && (last != [] ==> last[0].Length() <= o.Length())
    requires Size(r) + o.Length() + pad' == Size(r + last) + pad
    ensures Splice(Area(r + last, pad), Size(r), o.Bytes()) == Area(r + [o], pad')
  {
    hide Size, Encoded, Option.Bytes;
    EncodedConcat(r, last);
    EncodedConcat(r, [o]);
    SizeConcat(r, last);
    EncodedSingle(o);
    if last != [] {
      EncodedSingle(last[0]);
      assert last == [last[0]];
    } else {
      EmptySize();
    }
    SpliceTail(Encoded(r), Encoded(last), pad, o.Bytes(), pad');
  }

  lemma {:induction false} EncodedSingle(o: Option)
    ensures Encoded([o]) == o.Bytes() && Size([o]) == o.Length()
  {
    hide Option.Bytes, Option.Length;
    assert [o][1..] == [];
  }

  lemma {:induction false} SpliceTail(e: seq<byte>, l: seq<byte>, pad: nat, b: seq<byte>, pad': nat)
    requires |l| <= |b| && |b| + pad' == |l| + pad
    ensures Splice(e + l + Zeroes(pad), |e|, b) == e + b + Zeroes(pad')
  {
  }

  // ----- Creating the option -----

  /** Puts an empty option 33 at the end-of-list byte, if there is one; its length may land behind the area. */
  method StartNod(a: array<byte>, ghost s: Segment) returns (nod: nat, found: bool, ghost b: seq<byte>)
    requires Holds(a[..], s) && Small(s) && |s.head| + 48 + |s.data| <= a.Length < 0x1_0000 - 12
    modifies a
    ensures found == (Fitted(s, 2).pad > 0) && Holds(b, Fitted(s, 2)) && |b| == a.Length
    ensures nod == |s.head| + Size(Real(s.opts)) && nod + 8 <= a.Length
    ensures a[..] == if found then Splice(b, nod, [33, 2]) else b
  {
    hide Size, Encoded, Parts, Holds, Area, Real, Segment.Bytes, SeqNo, HeadOk, Doff, TotLen, Needed, Fitted;
    HoldsAsParts(a[..], s);
    var _ := AddBytesTo(a, 2, s);
    ghost var t, r := Fitted(s, 2), Real(s.opts);
    b := a[..];
    HoldsParts(b, t);
    var o, n := TcpAt(a[..]) + 20, Doff(a[..]) * 4 - 20;
    var i := LocateEol(a[..], o, n, r, t.pad);
    nod := o + i;
    found := i < n;
    if found {
      a[nod], a[nod + 1] := NOD, 2;
      SpliceIs(b, a[..], nod, [33, 2]);
    }
  }

  /**
   Opens a gap at loc by moving the rest of the options back, and marks its two ends; nothing without an end-of-list
   byte.
   */
  method ShiftSpace(a: array<byte>, o: nat, n: nat, loc: nat, bytes: nat, ghost os: seq<Option>, ghost pad: nat)
    requires o + Size(os) + pad <= a.Length && a[o..o + Size(os) + pad] == Area(os, pad) && Bounded(os, pad, n)
    requires loc <= Size(os) && 0 < bytes && o + Size(os) + bytes <= a.Length
    modifies a
    ensures pad == 0 ==> a[..] == old(a[..])
    ensures pad > 0 ==> forall k :: o + loc + bytes <= k < o + Size(os) + bytes ==> a[k] == old(a[k - bytes])
    ensures pad > 0 ==> forall k :: o + loc <= k < o + loc + bytes ==> a[k] == Mark(k - o - loc, bytes)
    ensures forall k :: 0 <= k < a.Length && !(o + loc <= k < o + Size(os) + bytes) ==> a[k] == old(a[k])
  {
    hide Size, Encoded, Area;
    var eol := LocateEol(a[..], o, n, os, pad);
    if eol < n {
      OpenGap(a, o + loc, eol - loc, bytes);
    }
  }

  /** A fresh gap: 65, zeroes, 90. */
  function Mark(i: nat, n: nat): byte { if i + 1 == n then 90 else if i == 0 then 65 else 0 }

  method OpenGap(a: array<byte>, at: nat, m: nat, bytes: nat)
    requires bytes > 0 && at + m + bytes <= a.Length
    modifies a
    ensures forall k :: at + bytes <= k < at + m + bytes ==> a[k] == old(a[k - bytes])
    ensures forall k :: at <= k < at + bytes ==> a[k] == Mark(k - at, bytes)
    ensures forall k :: 0 <= k < a.Length && !(at <= k < at + m + bytes) ==> a[k] == old(a[k])
  {
    hide Splice;
    ghost var p, moved := a[..], a[at..at + m];
    MemMove(a, at + bytes, at, m);
    SpliceAt(p, at + bytes, moved);
    ghost var q := a[..];
    assert forall k :: at + bytes <= k < at + m + bytes ==> q[k] == moved[k - at - bytes] == p[k - bytes];
    ZeroFill(a, at, bytes);
    SpliceAt(q, at, Zeroes(bytes));
    ghost var z := a[..];
    assert forall k :: 0 <= k < |z| ==> z[k] == if at <= k < at + bytes then 0 else q[k];
    a[at] := 65;
    a[at + bytes - 1] := 90;
  }

  /** The payload after the bytes b were written over the end of the area, of which only the first few were free. */
  ghost function Spilled(d: seq<byte>, b: seq<byte>, pad: nat): seq<byte>
  {
    if pad >= |b| then d else Overwritten(d, b[pad..])
  }

  /** Writing an option at the end of the options, where it may reach past the area. */
  lemma {:induction false} OverWritten(b: seq<byte>, t: Segment, o: Option)
    requires Holds(b, t) && Plain(t.opts) && t.pad > 0 && o.Opt? && |t.head| + Size(t.opts) + o.Length() <= |b|
    ensures Laid(Splice(b, |t.head| + Size(t.opts), o.Bytes()), t.head, t.opts + [o],
                 if t.pad >= o.Length() then t.pad - o.Length() else 0, Spilled(t.data, o.Bytes(), t.pad))
  {
    hide Size, Encoded, Parts, Holds, Splice, Option.Bytes, Segment.Bytes, HeadOk, Doff, TotLen, SeqNo;
    var at, q := |t.head| + Size(t.opts), Splice(b, |t.head| + Size(t.opts), o.Bytes());
    HoldsAsParts(b, t);
    assert t.opts + [] == t.opts;
    if t.pad >= o.Length() {
      LastWritten(b, t, t.opts, [], o);
      LaidSegment(q, LastSet(t, t.opts, o));
    } else {
      Overhang(b, t, o);
    }
  }

  lemma {:induction false} Overhang(b: seq<byte>, t: Segment, o: Option)
    requires Holds(b, t) && Plain(t.opts) && 0 < t.pad < o.Length() && o.Opt? &&
      |t.head| + Size(t.opts) + o.Length() <= |b|
    ensures Laid(Splice(b, |t.head| + Size(t.opts), o.Bytes()), t.head, t.opts + [o], 0,
      Overwritten(t.data, o.Bytes()[t.pad..]))
    ensures AreaBytes(t.head, t.opts + [o], 0) == Encoded(t.opts) + o.Bytes()[..t.pad]
  {
    hide Size, Encoded, Parts, Holds, Splice, Option.Bytes, Segment.Bytes, HeadOk, Doff, TotLen, SeqNo, Option.Length,
      Overwritten;
    var e, w, os := Encoded(t.opts), o.Bytes(), t.opts + [o];
    HoldsAsParts(b, t);
    EncodedConcat(t.opts, [o]);
    SizeConcat(t.opts, [o]);
    EncodedSingle(o);
    assert os[..|os| - 1] == t.opts;
    assert Area(os, 0) == e + w;
    assert (e + w)[..|e| + t.pad] == e + w[..t.pad];
    WrittenOver(b, t.head, e, t.pad, t.data, w);
  }

  lemma {:induction false} WrittenOver(b: seq<byte>, h: seq<byte>, e: seq<byte>, pad: nat, d: seq<byte>, w: seq<byte>)
    requires Parts(b, h, e + Zeroes(pad), d) && pad < |w| && |h| + |e| + |w| <= |b|
    ensures var q := Splice(b, |h| + |e|, w);
      q[|h|..|h| + |e| + |w|] == e + w && Parts(q, h, e + w[..pad], Overwritten(d, w[pad..]))
  {
    hide Parts, Splice;
    var q := Splice(b, |h| + |e|, w);
    SpliceAt(b, |h| + |e|, w);
    PartsAt(b, h, e + Zeroes(pad), d);
    PartsFit(b, h, e + Zeroes(pad), d);
    SliceIs(q, |h|, e + w);
    PartsAre(q, h, e + w[..pad], Overwritten(d, w[pad..]));
  }

  const EMPTY: Option := Opt(NOD, [])

  lemma {:induction false} EmptyBytes()
    ensures EMPTY.Bytes() == [33, 2] && EMPTY.Length() == 2
  {
  }

  /** The end of the options with the empty tag in it is the same without. */
  lemma {:induction false} Erased(p: seq<byte>, t: Segment, r: seq<Option>) returns (c: seq<byte>)
    requires Holds(p, t) && t.opts == r + [EMPTY]
    ensures Segment(t.head, r, t.pad + 2, t.data).Valid() && Holds(c, Segment(t.head, r, t.pad + 2, t.data)) &&
      |c| == |p|
    ensures |t.head| + Size(r) + 2 <= |p| && p == Splice(c, |t.head| + Size(r), [33, 2])
  {
    hide Size, Encoded, Parts, Holds, Splice, Segment.Bytes, HeadOk, Doff, TotLen, SeqNo, Option.Bytes, Option.Length;
    var at, e, u := |t.head| + Size(r), Encoded(r), Segment(t.head, r, t.pad + 2, t.data);
    HoldsAsParts(p, t);
    EmptyBytes();
    EncodedConcat(r, [EMPTY]);
    SizeConcat(r, [EMPTY]);
    EncodedSingle(EMPTY);
    PartsAt(p, t.head, Area(t.opts, t.pad), t.data);
    PartsFit(p, t.head, Area(t.opts, t.pad), t.data);
    c := Splice(p, at, [0, 0]);
    SpliceAt(p, at, [0, 0]);
    PartsAre(c, t.head, Area(r, t.pad + 2), t.data);
    HoldsAsParts(c, u);
    assert p[at] == 33 && p[at + 1] == 2;
    SpliceIs(c, p, at, [33, 2]);
  }

  /** Room for the header of the tag, as far as it can be made. */
  lemma {:induction false} BaseOf(s: Segment)
    requires s.Valid() && Small(s) && Fitted(s, 2).pad >= 2
    ensures var t := LastSet(Fitted(s, 2), Real(s.opts), EMPTY);
      && t.Valid() && Small(t) && Real(t.opts) == t.opts
      && Base(s) == Segment(Fitted(t, 6).head, Real(s.opts), Fitted(t, 6).pad + 2, s.data)
  {
    hide Size, Real, Fitted, Resized, WordsNeeded, Doff, TotLen, HeadOk, SeqNo;
    var t := LastSet(Fitted(s, 2), Real(s.opts), EMPTY);
    FreeAfter(Fitted(s, 2), Real(s.opts), EMPTY);
    FittedIs(t, 6);
  }

  lemma {:induction false} FittedIs(s: Segment, len: nat)
    requires s.Valid() && Small(s)
    ensures Fitted(s, len) == if Needed(s, len) == 0 then Stripped(s) else Grown(Stripped(s), Needed(s, len))
    ensures Stripped(s).Valid() && Small(Stripped(s)) && Doff(s.head) + Needed(s, len) <= 15
  {
    hide Size, Real;
    StrippedValid(s);
  }

  /** Makes room for a header in the empty option, as far as the header of the packet can grow. */
  method NameRoom(a: array<byte>, nod: nat, ghost s: Segment, ghost b: seq<byte>) returns (ghost c: seq<byte>)
    requires s.Valid() && Small(s) && |s.head| + 48 + |s.data| <= a.Length < 0x1_0000 - 12
    requires nod == |s.head| + Size(Real(s.opts)) && nod + 8 <= a.Length && Fitted(s, 2).pad > 0
    requires Holds(b, Fitted(s, 2)) && |b| == a.Length && a[..] == Splice(b, nod, [33, 2])
    modifies a
    ensures Holds(c, Base(s)) && |c| == a.Length && a[..] == Splice(c, nod, [33, 2])
  {
    hide Size, Encoded, Parts, Holds, Splice, Segment.Bytes, SeqNo, Real, Fitted, Base, Laid, Widened, Area, Resized;
    ghost var t, r := Fitted(s, 2), Real(s.opts);
    ghost var pad, d := if t.pad >= 2 then t.pad - 2 else 0, Spilled(s.data, [33, 2], t.pad);
    EmptyBytes();
    OverWritten(b, t, EMPTY);
    var _ := AddBytes(a, 6, t.head, r + [EMPTY], pad, d);
    if t.pad >= 2 {
      BaseOf(s);
      ghost var u := LastSet(t, r, EMPTY);
      FittedHolds(a[..], u, 6);
      c := Erased(a[..], Fitted(u, 6), r);
    } else {
      OneByteLeft(s);
      c := b;
    }
  }

  /** With a single free byte the header cannot grow any more. */
  lemma {:induction false} OneByteLeft(s: Segment)
    requires s.Valid() && Small(s) && Fitted(s, 2).pad == 1
    ensures var t := Fitted(s, 2);
      && Base(s) == t && AreaLen(t.head) < Size(Real(s.opts) + [EMPTY]) &&
        Growing(t.head, Real(s.opts) + [EMPTY], 6) == 0
  {
    hide Size, Real, Fitted, Resized;
    SizeConcat(Real(s.opts), [EMPTY]);
    SizeSingle(EMPTY);
  }

  /** Writes a header without data into the option, over whatever stands there. */
  method NameNod(a: array<byte>, nod: nat, ghost s: Segment, ghost b: seq<byte>) returns (ghost c: seq<byte>)
    requires s.Valid() && Small(s) && |s.head| + 48 + |s.data| <= a.Length < 0x1_0000 - 12
    requires nod == |s.head| + Size(Real(s.opts)) && nod + 8 <= a.Length && Fitted(s, 2).pad > 0
    requires Holds(b, Fitted(s, 2)) && |b| == a.Length && a[..] == Splice(b, nod, [33, 2])
    modifies a
    ensures Holds(c, Base(s)) && |c| == a.Length && a[..] == Splice(c, nod, BARE)
  {
    hide Size, Encoded, Parts, Holds, Splice, Segment.Bytes, SeqNo, Real, Fitted, Base, Area, Doff, TotLen, HeadOk;
    c := NameRoom(a, nod, s, b);
    BaseFits(s);
    SpliceAt(c, nod, [33, 2]);
    ShiftBehind(a, nod, Base(s), c);
    a[nod + 1] := 8;
    a[nod + 2], a[nod + 3] := 6, 4 + 8 * 6;
    a[nod + 4], a[nod + 5], a[nod + 6], a[nod + 7] := ONOP[0], ONOP[1], ONOP[2], ONOP[3];
    SpliceIs(c, a[..], nod, BARE);
  }

  /** Opens a gap for the header behind the empty option, past the area if need be. */
  method ShiftBehind(a: array<byte>, nod: nat, ghost t: Segment, ghost c: seq<byte>)
    requires Holds(c, t) && Plain(t.opts) && t.pad > 0 && |c| == a.Length
    requires nod == |t.head| + Size(t.opts) && nod + 8 <= a.Length && a[..] == Splice(c, nod, [33, 2])
    modifies a
    ensures forall k :: 0 <= k < a.Length && !(nod + 2 <= k < nod + 8) ==> a[k] == old(a[k])
  {
    hide Size, Encoded, Parts, Holds, Splice, Segment.Bytes, SeqNo, Area, Doff, TotLen, HeadOk, Spilled;
    EmptyBytes();
    OverWritten(c, t, EMPTY);
    ghost var os, pad := t.opts + [EMPTY], if t.pad >= 2 then t.pad - 2 else 0;
    LaidHead(a[..], t.head, os, pad, Spilled(t.data, [33, 2], t.pad));
    SizeConcat(t.opts, [EMPTY]);
    SizeSingle(EMPTY);
    SpliceAt(c, nod, [33, 2]);
    var o, n := TcpAt(a[..]) + 20, Doff(a[..]) * 4 - 20;
    ShiftSpace(a, o, n, nod - o + a[nod + 1], 6, os, pad);
  }

  // ----- Filling in the id -----

  /** The bytes of the last option. */
  lemma {:induction false} LastAt(p: seq<byte>, o: nat, os: seq<Option>, pad: nat, r: seq<Option>, l: Option)
    requires o + Size(os) + pad <= |p| && p[o..o + Size(os) + pad] == Area(os, pad) && os == r + [l] && l.Opt?
    ensures var i := o + Size(r);
      && i + l.Length() == o + Size(os) && p[i] == l.kind && p[i + 1] == l.Length()
      && forall k :: i + 2 <= k < i + l.Length() ==> p[k] == l.data[k - i - 2]
  {
    hide Size, Encoded, Area;
    OptionAt(p, o, os, pad, |r|);
    assert os[..|r|] == r;
    SizeConcat(r, [l]);
    SizeSingle(l);
  }

  function BareOption(): Option { Opt(NOD, Header([])) }

  lemma {:induction false} FullBytes(id: Id)
    ensures Opt(NOD, Header(id)).Bytes() == [33, 12, 10, 84] + ONOP + id
    ensures BareOption().Length() == 8 && Opt(NOD, Header(id)).Length() == 12
  {
  }

  /** A bare tag as the last option, with four bytes free behind it. */
  lemma {:induction false} TagAt(p: seq<byte>, t: Segment, r: seq<Option>)
    requires Holds(p, t) && t.opts == r + [BareOption()] && t.pad >= 4
    ensures var nod := |t.head| + Size(r);
      && nod + 12 <= |p| && nod + 8 == |t.head| + Size(t.opts) && Size(r) + 12 <= t.AreaSize()
      && forall k :: nod <= k < nod + 8 ==> p[k] == BARE[k - nod]
  {
    hide Size, Encoded, Parts, Holds, Area, Segment.Bytes, SeqNo, HeadOk, Doff, TotLen, Header;
    HoldsParts(p, t);
    FullBytes([0, 0, 0, 0]);
    BareBytes();
    LastAt(p, |t.head|, t.opts, t.pad, r, BareOption());
  }

  /** Adds the id to the header of the last option, where there is room for it. */
  method FillNod(a: array<byte>, nod: nat, id: Id, ghost t: Segment, ghost r: seq<Option>)
    requires Holds(a[..], t) && t.opts == r + [BareOption()] && t.pad >= 4 && nod == |t.head| + Size(r)
    modifies a
    ensures Size(r) + 12 <= t.AreaSize() && Holds(a[..], LastSet(t, r, Opt(NOD, Header(id))))
  {
    hide Size, Encoded, Parts, Holds, Area, Segment.Bytes, SeqNo, HeadOk, Doff, TotLen, Splice, Header, Option.Bytes,
      LastSet;
    ghost var p := a[..];
    FullBytes(id);
    TagAt(p, t, r);
    LastWritten(p, t, r, [BareOption()], Opt(NOD, Header(id)));
    Lengthen(a, nod, t, r);
    WriteId(a, nod, id, p);
  }

  /** Lengths in the tag's header, then the id. */
  method WriteId(a: array<byte>, nod: nat, id: Id, ghost p: seq<byte>)
    requires nod + 12 <= a.Length == |p| && a[nod + 1] == 12
    requires forall k :: nod <= k < nod + 8 ==> p[k] == BARE[k - nod]
    requires forall k :: 0 <= k < a.Length && k != nod + 1 && !(nod + 8 <= k < nod + 12) ==> a[k] == p[k]
    modifies a
    ensures a[..] == Splice(p, nod, [33, 12, 10, 84] + ONOP + id)
  {
    hide Splice;
    a[nod + 2] := a[nod + 2] as int + ID_LENGTH;
    a[nod + 3] := a[nod + 3] % 8 + 8 * (a[nod + 3] / 8 + ID_LENGTH);
    a[nod + 8], a[nod + 9], a[nod + 10], a[nod + 11] := id[0], id[1], id[2], id[3];
    SpliceIs(p, a[..], nod, [33, 12, 10, 84] + ONOP + id);
  }

  /** Opens a gap behind the tag, which is the last option, and adds it to the option's length. */
  method Lengthen(a: array<byte>, nod: nat, ghost t: Segment, ghost r: seq<Option>)
    requires Holds(a[..], t) && t.opts == r + [BareOption()] && t.pad >= 4 && nod == |t.head| + Size(r)
    modifies a
    ensures nod + 12 <= a.Length && a[nod + 1] == 12
    ensures forall k :: 0 <= k < a.Length && k != nod + 1 && !(nod + 8 <= k < nod + 12) ==> a[k] == old(a[k])
  {
    hide Size, Encoded, Parts, Holds, Area, Segment.Bytes, SeqNo, HeadOk, Doff, TotLen, Header;
    HoldsParts(a[..], t);
    TagAt(a[..], t, r);
    var o, n := TcpAt(a[..]) + 20, Doff(a[..]) * 4 - 20;
    ShiftSpace(a, o, n, nod - o + a[nod + 1], ID_LENGTH, t.opts, t.pad);
    a[nod + 1] := a[nod + 1] as int + ID_LENGTH;
  }

  /** A well-formed packet with a bare tag at its end, after the id was added where the area had to grow for it. */
  function Completed(t: Segment, r: seq<Option>, id: Id): Segment
    requires t.Valid() && Small(t) && t.opts == r + [BareOption()] && Plain(r)
  {
    hide Size, Real, Fitted, Header, LastSet;
    CompletedFits(t, r);
    if Needed(t, ID_LENGTH) > 0 then LastSet(Fitted(t, ID_LENGTH), r, Opt(NOD, Header(id))) else t
  }

  lemma {:induction false} CompletedFits(t: Segment, r: seq<Option>)
    requires t.Valid() && Small(t) && t.opts == r + [BareOption()] && Plain(r)
    ensures Real(t.opts) == t.opts && FreeSpace(t) == t.pad && Size(t.opts) == Size(r) + 8
    ensures Needed(t, ID_LENGTH) == 0 ==> Fitted(t, ID_LENGTH) == t
    ensures Needed(t, ID_LENGTH) > 0 ==>
      Fitted(t, ID_LENGTH).pad >= 4 && Size(r) + 12 <= Fitted(t, ID_LENGTH).AreaSize()
  {
    hide Size, Header;
    PlainReal(t.opts);
    SizeConcat(r, [BareOption()]);
    SizeSingle(BareOption());
    FittedIs(t, ID_LENGTH);
  }

  /** The area ends inside a tag behind the options r, and can grow by one word at most, which is not enough. */
  ghost predicate Short(h: seq<byte>, r: seq<Option>)
  {
    AreaLen(h) < Size(r) + 8 && (Doff(h) == 15 || (Doff(h) == 14 && 2 <= AreaLen(h) - Size(r) <= 3))
  }

  /** Growing an area that ends inside the tag leaves it ending inside the tag. */
  lemma {:induction false} StillShort(p: seq<byte>, h: seq<byte>, r: seq<Option>, d: seq<byte>)
    returns (os: seq<Option>)
    requires Plain(r) && Short(h, r) && Widened(p, h, r + [BareOption()], 1, d) && |h| + Size(r) + 8 <= |p| &&
      Doff(h) == 14
    requires Bounded(r + [BareOption()], 0, AreaLen(h))
    ensures var h' := Resized(h, AreaLen(h) + 4, |d|);
      Laid(p, h', os, 0, d) && AreaLen(h') < Size(os)
  {
    hide Size, Real, Parts, Area, Resized, Header, Encoded, SeqNo, TotLen, Option.Bytes, HeadOk, Doff;
    var b, h', n, k := BareOption(), Resized(h, AreaLen(h) + 4, |d|), AreaLen(h), |h| + Size(r);
    SizeConcat(r, [b]);
    SizeSingle(b);
    ShortArea(h, r);
    var area := AreaBytes(h, r + [b], 0) + Zeroes(4);
    TagInArea(p, h', Encoded(r), n - Size(r), d);
    os := r + [Opt(NOD, p[k + 2..k + 8])];
    RegionIs(p, h', r, Encoded(r), k);
    LaidShort(p, h', r, os, area, d);
  }

  lemma {:induction false} TagInArea(p: seq<byte>, h: seq<byte>, e: seq<byte>, m: nat, d: seq<byte>)
    requires 2 <= m <= 8 && Parts(p, h, e + BARE[..m] + Zeroes(4), d)
    ensures |h| + |e| + 2 <= |p| && p[|h| + |e|] == NOD && p[|h| + |e| + 1] == 8
    ensures forall i :: |h| <= i < |h| + |e| ==> p[i] == e[i - |h|]
  {
    hide Parts;
    PartsFit(p, h, e + BARE[..m] + Zeroes(4), d);
    PartsAt(p, h, e + BARE[..m] + Zeroes(4), d);
  }

  lemma {:induction false} LaidShort(p: seq<byte>, h: seq<byte>, r: seq<Option>, os: seq<Option>, area: seq<byte>,
        d: seq<byte>)
    requires HeadOk(h) && TotLen(h) == |h| + AreaLen(h) + |d| && |area| == AreaLen(h) && Parts(p, h, area, d)
    requires |os| == |r| + 1 && os[..|r|] == r && Plain(os) && Size(r) < AreaLen(h) < Size(os)
    requires |h| + Size(os) <= |p| && p[|h|..|h| + Size(os)] == Area(os, 0)
    ensures Laid(p, h, os, 0, d)
  {
    hide Size, Area, Doff, TotLen, HeadOk;
    RegionPart(p, |h|, Area(os, 0), AreaLen(h));
  }

  lemma {:induction false} RegionPart(p: seq<byte>, at: nat, a: seq<byte>, n: nat)
    requires at + |a| <= |p| && n <= |a| && p[at..at + |a|] == a
    ensures a[..n] == p[at..at + n]
  {
  }

  lemma {:induction false} ShortArea(h: seq<byte>, r: seq<Option>)
    requires Short(h, r) && HeadOk(h) && Bounded(r + [BareOption()], 0, AreaLen(h)) && Size(r) < AreaLen(h)
    ensures var s := AreaBytes(h, r + [BareOption()], 0);
      |s| == AreaLen(h) && s == Encoded(r) + BARE[..AreaLen(h) - Size(r)]
  {
    hide Size, Encoded, Header;
    EncodedConcat(r, [BareOption()]);
    EncodedSingle(BareOption());
    BareBytes();
    var e, n := Encoded(r), AreaLen(h);
    assert Area(r + [BareOption()], 0) == e + BARE;
    assert (e + BARE)[..n] == e + BARE[..n - |e|];
  }

  lemma {:induction false} RegionIs(p: seq<byte>, h: seq<byte>, r: seq<Option>, e: seq<byte>, k: nat)
    requires e == Encoded(r) && k == |h| + |e| && k + 8 <= |p| && p[k] == NOD && p[k + 1] == 8
    requires forall i :: |h| <= i < k ==> p[i] == e[i - |h|]
    ensures var os := r + [Opt(NOD, p[k + 2..k + 8])];
      Size(os) == Size(r) + 8 && p[|h|..|h| + Size(os)] == Area(os, 0)
  {
    hide Size, Encoded;
    var o := Opt(NOD, p[k + 2..k + 8]);
    EncodedConcat(r, [o]);
    EncodedSingle(o);
    SizeConcat(r, [o]);
    assert o.Bytes() == p[k..k + 8];
    assert Area(r + [o], 0) == e + p[k..k + 8];
    SliceIs(p, |h|, e + p[k..k + 8]);
  }

  /** The last step of tagging, on a bare tag that is the last option and may reach past the area. */
  method FinishNod(a: array<byte>, nod: nat, id: Id, ghost h: seq<byte>, ghost r: seq<Option>, ghost pad: nat,
        ghost d: seq<byte>)
    requires Laid(a[..], h, r + [BareOption()], pad, d) && Plain(r) && nod == |h| + Size(r)
    requires |h| + 48 + |d| <= a.Length < 0x1_0000 - 12 && nod + 8 <= a.Length
    requires AreaLen(h) < Size(r) + 8 ==> Short(h, r)
    modifies a
    ensures AreaLen(h) < Size(r) + 8 ==> BrokenOff(a[..], h, r, pad, d)
    ensures AreaLen(h) >= Size(r) + 8 ==> var t := Segment(h, r + [BareOption()], pad, d);
      t.Valid() && Small(t) && Holds(a[..], Completed(t, r, id))
  {
    hide Size, Encoded, Parts, Holds, Area, Segment.Bytes, SeqNo, TotLen, Real, Fitted, Header, Laid, Widened, Resized,
      WordsNeeded;
    ghost var t, short := Segment(h, r + [BareOption()], pad, d), AreaLen(h) < Size(r) + 8;
    BareSize(a[..], h, r, pad, d);
    var ok := AddBytes(a, ID_LENGTH, h, t.opts, pad, d);
    if ok {
      ghost var h', os, pad' := h, t.opts, pad;
      if short {
        os := StillShort(a[..], h, r, d);
        h', pad' := Resized(h, AreaLen(h) + 4, |d|), 0;
        BrokenNow(a[..], h, r, d);
      } else {
        FittedHolds(a[..], t, ID_LENGTH);
        LaidSegment(a[..], Fitted(t, ID_LENGTH));
        h', pad' := Fitted(t, ID_LENGTH).head, Fitted(t, ID_LENGTH).pad;
        CompletedFits(t, r);
      }
      var space := TakeFreeSpace(a, h', os, pad', d);
      if space >= ID_LENGTH {
        LaidSegment(a[..], Fitted(t, ID_LENGTH));
        FillNod(a, nod, id, Fitted(t, ID_LENGTH), r);
      }
    } else if !short {
      FittedHolds(a[..], t, ID_LENGTH);
      CompletedFits(t, r);
    }
  }

  lemma {:induction false} BareSize(p: seq<byte>, h: seq<byte>, r: seq<Option>, pad: nat, d: seq<byte>)
    requires Laid(p, h, r + [BareOption()], pad, d) && Plain(r) && |h| + 48 + |d| < 0x1_0000 - 12
    ensures Size(r + [BareOption()]) == Size(r) + 8 && Real(r + [BareOption()]) == r + [BareOption()] && HeadOk(h)
    ensures AreaLen(h) < Size(r) + 8 ==>
      pad == 0 && Growing(h, r + [BareOption()], ID_LENGTH) == (if Doff(h) == 15 then 0 else 1)
    ensures AreaLen(h) < Size(r) + 8 && Doff(h) == 15 ==> BrokenOff(p, h, r, pad, d)
    ensures AreaLen(h) >= Size(r) + 8 ==>
      var t := Segment(h, r + [BareOption()], pad, d);
      t.Valid() && Small(t) && Holds(p, t) && Growing(h, t.opts, ID_LENGTH) == Needed(t, ID_LENGTH)
  {
    hide Size, Encoded, Parts, Area, Segment.Bytes, SeqNo, TotLen, Real, Fitted, Header, Resized;
    var os, t := r + [BareOption()], Segment(h, r + [BareOption()], pad, d);
    SizeConcat(r, [BareOption()]);
    SizeSingle(BareOption());
    PlainReal(os);
    LaidHead(p, h, os, pad, d);
    LaidSegment(p, t);
    if AreaLen(h) >= Size(os) {
      FittedHolds(p, t, ID_LENGTH);
    }
  }

  lemma {:induction false} BrokenNow(p: seq<byte>, h: seq<byte>, r: seq<Option>, d: seq<byte>)
    requires Short(h, r) && Widened(p, h, r + [BareOption()], 1, d) && Doff(h) == 14 && |h| + 40 + |d| < 0x1_0000
    requires AreaLen(h) < Size(r + [BareOption()])
    ensures BrokenOff(p, h, r, 0, d)
  {
    hide Size, Encoded, Parts, Area, Real, Header, Resized;
  }

  /** The packet whose area ends inside the tag, grown once more if that was possible. */
  ghost predicate BrokenOff(p: seq<byte>, h: seq<byte>, r: seq<Option>, pad: nat, d: seq<byte>)
  {
    && HeadOk(h) && Bounded(r + [BareOption()], pad, AreaLen(h)) && |h| + 40 + |d| < 0x1_0000
    && if Doff(h) == 15 then Parts(p, h, AreaBytes(h, r + [BareOption()], pad), d)
       else Parts(p, Resized(h, AreaLen(h) + 4, |d|), AreaBytes(h, r + [BareOption()], pad) + Zeroes(4), d)
  }

  // ----- The whole -----

  /** Whatever tagging does to a packet without a tag. */
  ghost predicate HasOutcome(p: seq<byte>, x: Outcome)
  {
    match x
    case Whole(t) => Holds(p, t)
    case Broken(h, area, d) => Parts(p, h, area, d)
    case Crash => true
  }

  lemma {:induction false} OutcomeIs(p: seq<byte>, s: Segment, id: Id)
    requires s.Valid() && Small(s) && Base(s).pad > 0
    ensures var t, r := Base(s), Real(s.opts);
      && Plain(r) && (AreaLen(t.head) < Size(r) + 8 <==> t.pad < 8) && (t.pad < 8 ==> Short(t.head, r))
      && (t.pad < 8 && BrokenOff(p, t.head, r, 0, Overwritten(s.data, BARE[t.pad..])) ==>
        HasOutcome(p, Outcomes(s, id)))
      && (t.pad >= 8 ==>
            var u := Segment(t.head, r + [BareOption()], t.pad - 8, s.data);
            u.Valid() && Small(u) && (Holds(p, Completed(u, r, id)) ==> HasOutcome(p, Outcomes(s, id))))
  {
    hide Size, Real, Base, Parts, Holds, Resized, Header, Encoded, Segment.Bytes, SeqNo, LastSet, Fitted, TotLen;
    var t, r := Base(s), Real(s.opts);
    BaseFits(s);
    FullBytes(id);
    if t.pad < 8 && BrokenOff(p, t.head, r, 0, Overwritten(s.data, BARE[t.pad..])) {
      ShortArea(t.head, r);
    }
    if t.pad >= 8 {
      NamedIs(s);
    }
  }

  lemma {:induction false} NamedIs(s: Segment)
    requires s.Valid() && Small(s) && CanTag(s) && Base(s).pad >= 8
    ensures Named(s) == Segment(Base(s).head, Real(s.opts) + [BareOption()], Base(s).pad - 8, s.data) && Small(Named(s))
  {
    hide Size, Real, Base, Header;
    BaseFits(s);
    FullBytes([0, 0, 0, 0]);
  }

  /** Creates the tag: start it, name it, fill in the id. */
  method TagAnew(a: array<byte>, id: Id, ghost s: Segment) returns (crashed: bool)
    requires Holds(a[..], s) && Small(s) && |s.head| + 48 + |s.data| <= a.Length < 0x1_0000 - 12
    modifies a
    ensures crashed == Outcomes(s, id).Crash? && HasOutcome(a[..], Outcomes(s, id))
  {
    hide Size, Encoded, Parts, Holds, Area, Segment.Bytes, SeqNo, HeadOk, Doff, TotLen, Real, Fitted, Header, Base,
      Splice, Laid, BrokenOff, HasOutcome, Short, Completed;
    HoldsAsParts(a[..], s);
    ghost var t, r := Base(s), Real(s.opts);
    BaseFits(s);
    FirstRoom(s);
    var nod, found, b := StartNod(a, s);
    if !found {
      CrashIs(a[..], s, id);
      return true;
    }
    ghost var c := NameNod(a, nod, s, b);
    OutcomeIs(a[..], s, id);
    FullBytes(id);
    BareBytes();
    OverWritten(c, t, BareOption());
    FinishNod(a, nod, id, t.head, r, if t.pad >= 8 then t.pad - 8 else 0, Spilled(s.data, BARE, t.pad));
    OutcomeIs(a[..], s, id);
    crashed := false;
  }

  lemma {:induction false} FirstRoom(s: Segment)
    requires s.Valid() && Small(s)
    ensures Fitted(s, 2).pad > 0 <==> Base(s).pad > 0
  {
    hide Size, Real, Fitted, Grown;
  }

  lemma {:induction false} CrashIs(p: seq<byte>, s: Segment, id: Id)
    requires s.Valid() && Small(s) && Base(s).pad == 0
    ensures Outcomes(s, id).Crash? && HasOutcome(p, Outcomes(s, id))
  {
    hide Size, Real, Base;
  }

  /**
   Tags a packet with an id. Without a tag, one is created, inside the option area or not. A bare tag at the
   end gets the id where the growth rule lets it. A tag with an id stays.
   */
  method SetNodHeaderData(a: array<byte>, id: Id, ghost s: Segment) returns (crashed: bool)
    requires Holds(a[..], s) && Small(s) && |s.head| + 48 + |s.data| <= a.Length < 0x1_0000 - 12
    requires Find(s.opts, NOD) == |s.opts| || BareLast(s) || IdPresent(s)
    modifies a
    ensures crashed <==> Find(s.opts, NOD) == |s.opts| && Outcomes(s, id).Crash?
    ensures Find(s.opts, NOD) == |s.opts| ==> HasOutcome(a[..], Outcomes(s, id))
    ensures Markable(s) ==> Holds(a[..], Marked(s, id))
  {
    hide Size, Encoded, Parts, Holds, Area, Segment.Bytes, SeqNo, HeadOk, Doff, TotLen, Real, Header, Find, Laid,
      Outcomes, CanTag, Tagged, Refilled;
    HoldsParts(a[..], s);
    HoldsAsParts(a[..], s);
    LaidSegment(a[..], s);
    var o, n := TcpAt(a[..]) + 20, Doff(a[..]) * 4 - 20;
    var i := Locate(a[..], o, n, NOD, s.opts, s.pad);
    var nod := o + i;
    if i == n {
      NotAtEnd(s, n);
      crashed := TagAnew(a, id, s);
      WholeIff(s, id);
    } else {
      crashed := false;
      TagShape(a[..], s, id, nod);
      if a[nod + 3] / 8 == a[nod + 3] % 8 + 2 {
        FinishNod(a, nod, id, s.head, s.opts[..|s.opts| - 1], s.pad, s.data);
      }
    }
  }

  /** Reads the header data of a tag with a single header. */
  method GetNodHeaderData(p: seq<byte>, ghost s: Segment) returns (r: Read)
    requires Holds(p, s) && ReadTag(s.opts) != OtherHeader
    ensures r == ReadTag(s.opts)
  {
    hide Size, Encoded, Area, Holds, Find;
    HoldsParts(p, s);
    var o, n := TcpAt(p) + 20, Doff(p) * 4 - 20;
    var i := Locate(p, o, n, NOD, s.opts, s.pad);
    if i == n {
      return NoTag;
    }
    var len: int := p[o + i + 1];
    if len <= 2 {
      return NoTag;
    }
    ghost var d := s.opts[Find(s.opts, NOD)].data;
    var nodh := o + i + 2;
    var idlen, hdrlen := p[nodh + 1] % 8, p[nodh + 1] / 8;
    if hdrlen > idlen + 2 {
      r := Found(p[nodh + idlen + 2..nodh + hdrlen]);
      assert r.data == d[6..d[1] / 8];
    } else {
      r := NoTag;
    }
  }

  /** Tagging and reading back over the code of both boxes: the id comes through exactly under the stated condition. */
  method TagRoundTrip(a: array<byte>, id: Id, ghost s: Segment) returns (r: Read)
    requires Holds(a[..], s) && Small(s) && |s.head| + 48 + |s.data| <= a.Length < 0x1_0000 - 12
    requires CanTag(s) && Find(s.opts, NOD) == |s.opts|
    modifies a
    ensures r == if FreeSpace(s) < 12 && Doff(s.head) + WordsNeeded(FreeSpace(s), 8) + 1 <= 15 then Found(id) else NoTag
    ensures Holds(a[..], Tagged(s, id))
  {
    hide Size, Holds, Real, Segment.Bytes, Tagged, ReadTag, Find, SeqNo, TotLen, Doff, Outcomes, HasOutcome;
    HoldsAsParts(a[..], s);
    var _ := SetNodHeaderData(a, id, s);
    TagThenRead(s, id);
    r := GetNodHeaderData(a[..], Tagged(s, id));
  }

  /** An option found lies before the end of the area. */
  lemma {:induction false} NotAtEnd(s: Segment, n: int)
    requires s.Valid() && n == s.AreaSize()
    ensures Find(s.opts, NOD) < |s.opts| ==> Size(s.opts[..Find(s.opts, NOD)]) < n
  {
    hide Size, Find;
    var j := Find(s.opts, NOD);
    if j < |s.opts| { SizeSplit(s.opts, j); }
  }

  lemma {:induction false} WholeIff(s: Segment, id: Id)
    requires s.Valid() && Small(s)
    ensures CanTag(s) ==> Outcomes(s, id) == Whole(Tagged(s, id))
  {
    hide Size, Real, Base, Tagged, CanTag;
    BaseFits(s);
  }

  /** The length field of the header tells a bare tag from one with an id. */
  lemma {:induction false} TagShape(p: seq<byte>, s: Segment, id: Id, nod: nat)
    requires Holds(p, s) && Small(s) && (BareLast(s) || IdPresent(s)) && Find(s.opts, NOD) < |s.opts|
    requires nod == |s.head| + Size(s.opts[..Find(s.opts, NOD)])
    ensures nod + 8 <= |p| && (p[nod + 3] / 8 == p[nod + 3] % 8 + 2 <==> BareLast(s))
    ensures BareLast(s) ==>
      var r := s.opts[..|s.opts| - 1];
      s.opts == r + [BareOption()] && Plain(r) && nod == |s.head| + Size(r) && Size(s.opts) == Size(r) + 8 &&
        Refilled(s, id) == Completed(s, r, id)
  {
    hide Size, Find, Real, Fitted, LastSet, Area, Encoded, Segment.Bytes, Holds, Header, BareLast, IdPresent, Completed,
      Refilled, HeadOk, Doff, TotLen, SeqNo;
    HoldsParts(p, s);
    HoldsAsParts(p, s);
    var j := Find(s.opts, NOD);
    OptionAt(p, |s.head|, s.opts, s.pad, j);
    HeaderField(s);
    if BareLast(s) { BareShape(s, id); }
  }

  /** The second byte of a header, as the option holds it. */
  lemma {:induction false} HeaderField(s: Segment)
    requires Find(s.opts, NOD) < |s.opts| && (BareLast(s) || IdPresent(s))
    ensures var d := s.opts[Find(s.opts, NOD)].data;
      |d| >= 6 && d[1] == (if BareLast(s) then 52 else 84)
  {
    hide Find;
    BareBytes();
  }

  lemma {:induction false} BareShape(s: Segment, id: Id)
    requires s.Valid() && Small(s) && BareLast(s)
    ensures var r := s.opts[..|s.opts| - 1];
      && s.opts == r + [BareOption()] && Plain(r) && Find(s.opts, NOD) == |r| && Size(s.opts) == Size(r) + 8
      && Refilled(s, id) == Completed(s, r, id)
  {
    hide Size, Find, Real, Fitted, LastSet, Header;
    var r := s.opts[..|s.opts| - 1];
    assert s.opts == r + [s.opts[|s.opts| - 1]];
    CompletedFits(s, r);
    RefillFits(s);
  }
}
