/** Compressing and restoring the payload of a TCP packet in place, and the trip between two boxes. */
module Compression {
  import opened Bytes
  import opened TcpPacket
  import opened TcpOptions
  import opened TcpOptionEdit
  import QuickLz
  import T = QlzTokens
  import C = QlzCompress

  const BUFSIZE: nat := 2048
  const COMPRESSED: OptKind := 31
  const SEQ_SHIFT: int := 8000

  lemma {:induction false} ShiftBack(a: uint32)
    ensures Add32(Add32(a, SEQ_SHIFT), -SEQ_SHIFT) == a
  {
  }

  // ----- What happens to the segment -----

  /** The segment with another payload. */
  function WithData(s: Segment, d: seq<byte>): (r: Segment)
    requires s.Valid() && |s.head| + s.AreaSize() + |d| < 0x1_0000
    ensures r.Valid() && r.data == d && r.opts == s.opts && r.pad == s.pad && SeqNo(r.head) == SeqNo(s.head)
    ensures Doff(r.head) == Doff(s.head) && |r.head| == |s.head|
  {
    s.(head := Resized(s.head, s.AreaSize(), |d|), data := d)
  }

  function WithSequence(s: Segment, v: uint32): (r: Segment)
    requires s.Valid()
    ensures r.Valid() && r.data == s.data && r.opts == s.opts && r.pad == s.pad && SeqNo(r.head) == v
  {
    s.(head := WithSeq(s.head, v))
  }

  /** Payload replaced, flag option set, sequence number shifted. */
  function Recoded(s: Segment, d: seq<byte>, flag: nat, shift: int): (r: Segment)
    requires s.Valid() && |s.head| + s.AreaSize() + |d| + 12 < 0x1_0000
  {
    SetValid(WithData(s, d), COMPRESSED, 3, flag);
    WithSequence(Set(WithData(s, d), COMPRESSED, 3, flag), Add32(SeqNo(s.head), shift))
  }

  /** What the two boxes do to each other's packets cancels out, apart from the flag option left behind. */
  lemma {:induction false} RecodedFields(s: Segment, d: seq<byte>, flag: nat, shift: int)
    requires s.Valid() && |s.head| + s.AreaSize() + |d| + 12 < 0x1_0000
    ensures var r := Recoded(s, d, flag, shift);
      && r.Valid() && r.data == d && SeqNo(r.head) == Add32(SeqNo(s.head), shift)
      && r.opts == SetInList(s.opts, COMPRESSED, 3, flag, HasRoom(s, COMPRESSED, 3))
      && Others(r.opts, COMPRESSED) == Others(s.opts, COMPRESSED)
  {
    hide SetInList, Set, Others;
    SetValid(WithData(s, d), COMPRESSED, 3, flag);
    SetThenGetInList(s.opts, COMPRESSED, 3, flag, HasRoom(s, COMPRESSED, 3));
  }

  // ----- The code -----

  /** Copies n bytes into the packet, where the payload begins. */
  method CopyPayload(a: array<byte>, at: nat, from: array<byte>, n: nat, ghost h: seq<byte>, ghost area: seq<byte>,
        ghost was: seq<byte>)
    requires a != from && Parts(a[..], h, area, was) && at == |h| + |area| && n <= from.Length && at + n <= a.Length
    modifies a
    ensures Parts(a[..], h, area, from[..n])
  {
    ghost var p, d := a[..], from[..n];
    for i := 0 to n
      invariant forall k :: 0 <= k < a.Length && !(at <= k < at + i) ==> a[k] == p[k]
      invariant forall k :: at <= k < at + i ==> a[k] == from[k - at]
    {
      a[at + i] := from[i];
    }
    PayloadWritten(p, a[..], h, area, was, d);
  }

  /** Sets the total length after the payload has changed its size by diff. */
  method AdjustTotLen(a: array<byte>, diff: int, ghost h: seq<byte>, ghost area: seq<byte>, ghost d: seq<byte>)
    requires Parts(a[..], h, area, d) && HeadOk(h) && |area| == 4 * Doff(h) - 20
    requires TotLen(h) + diff == |h| + |area| + |d| < 0x1_0000
    modifies a
    ensures Parts(a[..], Resized(h, |area|, |d|), area, d)
  {
    hide Resized, Doff, TotLen, Parts, SeqNo;
    ghost var p := a[..];
    PartsFit(p, h, area, d);
    HeadFieldsOf(p, h, area, d);
    var total := (TotLen(a[..]) + diff) % 0x1_0000;
    a[2], a[3] := total / 0x100, total % 0x100;
    ResizedIs(h, |area|, |d|);
    HeadSame(h);
    HeadRewritten(p, a[..], h, Resized(h, |area|, |d|), area, d, TcpAt(h) + 12);
  }

  /** Replaces the payload of the packet by the first n bytes of another buffer. */
  method PutPayload(a: array<byte>, from: array<byte>, n: nat, ghost s: Segment)
    requires a != from && Holds(a[..], s) && n <= from.Length && |s.head| + s.AreaSize() + n <= a.Length < 0x1_0000
    modifies a
    ensures Holds(a[..], WithData(s, from[..n]))
  {
    hide Size, Area, Holds, Parts, Resized, Doff, TotLen, SeqNo, Segment.Bytes;
    HoldsParts(a[..], s);
    HoldsAsParts(a[..], s);
    var at, total := TcpAt(a[..]) + 4 * Doff(a[..]), TotLen(a[..]);
    CopyPayload(a, at, from, n, s.head, Area(s.opts, s.pad), s.data);
    AdjustTotLen(a, n - (total - at), s.head, Area(s.opts, s.pad), from[..n]);
    HoldsAsParts(a[..], WithData(s, from[..n]));
  }

  lemma {:induction false} PayloadWritten(p: seq<byte>, q: seq<byte>, h: seq<byte>, area: seq<byte>, was: seq<byte>,
        d: seq<byte>)
    requires Parts(p, h, area, was) && |q| == |p| && |h| + |area| + |d| <= |p|
    requires forall k :: 0 <= k < |h| + |area| ==> q[k] == p[k]
    requires forall k :: |h| + |area| <= k < |h| + |area| + |d| ==> q[k] == d[k - |h| - |area|]
    ensures Parts(q, h, area, d)
  {
    PartsAt(p, h, area, was);
    PartsAre(q, h, area, d);
  }

  lemma {:induction false} HeadSame(h: seq<byte>)
    requires HeadOk(h)
    ensures (4 * Doff(h)) / 4 * 16 + h[TcpAt(h) + 12] % 16 == h[TcpAt(h) + 12]
  {
  }

  /** Stores a sequence number. */
  method PutSequence(a: array<byte>, v: uint32, ghost s: Segment)
    requires Holds(a[..], s)
    modifies a
    ensures Holds(a[..], WithSequence(s, v))
  {
    hide Size, Area, Holds, Parts, Doff, TotLen, SeqNo, Segment.Bytes, Splice, HeadOk, Be32Bytes;
    ghost var p, h := a[..], s.head;
    HoldsParts(p, s);
    HoldsAsParts(p, s);
    var t, b := TcpAt(a[..]) + 4, Be32Bytes(v);
    a[t], a[t + 1], a[t + 2], a[t + 3] := b[0], b[1], b[2], b[3];
    assert a[..] == Splice(p, t, b) by { SpliceIs(p, a[..], t, b); }
    HeadSpliced(p, h, Area(s.opts, s.pad), s.data, t, b);
    WithSeqIs(h, v);
    HoldsAsParts(a[..], WithSequence(s, v));
  }

  lemma {:induction false} HeadSpliced(p: seq<byte>, h: seq<byte>, area: seq<byte>, d: seq<byte>, t: nat, b: seq<byte>)
    requires Parts(p, h, area, d) && t + |b| <= |h|
    ensures t + |b| <= |p| && Parts(Splice(p, t, b), Splice(h, t, b), area, d)
  {
    PartsAt(p, h, area, d);
    SpliceAt(p, t, b);
    SpliceAt(h, t, b);
    PartsAre(Splice(p, t, b), Splice(h, t, b), area, d);
  }

  lemma {:induction false} WithSeqIs(h: seq<byte>, v: uint32)
    requires HeadOk(h)
    ensures TcpAt(h) + 8 <= |h| && WithSeq(h, v) == Splice(h, TcpAt(h) + 4, Be32Bytes(v))
  {
  }

  /** Payload, flag option and sequence number, in the order both functions change them. */
  method Recode(a: array<byte>, from: array<byte>, n: nat, flag: nat, shift: int, ghost s: Segment)
    requires a != from && Holds(a[..], s) && n <= from.Length && a.Length < 0x1_0000 - 12
    requires |s.head| + s.AreaSize() + n + Growth(s, COMPRESSED, 3) <= a.Length
    modifies a
    ensures Holds(a[..], Recoded(s, from[..n], flag, shift))
  {
    hide Size, Holds, Set, Segment.Bytes, WithData, HasRoom, SeqNo, WithSequence, Growth;
    ghost var d := from[..n];
    HoldsAsParts(a[..], s);
    ghost var s1 := WithData(s, d);
    GrowthSame(s, d);
    PutPayload(a, from, n, s);
    var _ := SetOption(a, COMPRESSED, 3, flag, s1);
    ghost var s2 := Set(s1, COMPRESSED, 3, flag);
    SetValid(s1, COMPRESSED, 3, flag);
    HoldsParts(a[..], s2);
    PutSequence(a, Add32(SeqNo(a[..]), shift), s2);
  }

  /** Room and growth depend on the options and the header length only. */
  lemma {:induction false} GrowthSame(s: Segment, d: seq<byte>)
    requires s.Valid() && |s.head| + s.AreaSize() + |d| < 0x1_0000
    ensures Growth(WithData(s, d), COMPRESSED, 3) == Growth(s, COMPRESSED, 3)
    ensures HasRoom(WithData(s, d), COMPRESSED, 3) == HasRoom(s, COMPRESSED, 3)
  {
  }

  /**
   Compresses the payload of a packet. A packet without payload, or whose payload does not
   shrink, stays as it is; any other carries the packed payload, the flag and a shifted
   sequence number afterwards.
   */
  method TcpCompress(a: array<byte>, lz: array<byte>, hash: array<C.HashEntry>, ghost s: Segment)
    returns (ghost packed: seq<byte>)
    requires a != lz && Holds(a[..], s) && |s.Bytes()| + 4 <= a.Length == BUFSIZE && lz.Length == BUFSIZE + 400
    requires hash.Length == T.HASH_VALUES
    modifies a, lz, hash
    ensures if s.data == [] || |packed| >= |s.data| then a[..] == old(a[..])
            else QuickLz.Packed(packed, s.data) && Holds(a[..], Recoded(s, packed, 1, SEQ_SHIFT))
    ensures s.data != [] ==> QuickLz.Packed(packed, s.data)
  {
    hide Size, Holds, Recoded, QuickLz.Packed, Growth, Doff, TotLen, SeqNo, HeadOk;
    HoldsAsParts(a[..], s);
    HoldsParts(a[..], s);
    FlagGrowth(s);
    var at := TcpAt(a[..]) + 4 * Doff(a[..]);
    var oldsize := TotLen(a[..]) - at;
    packed := [];
    if oldsize > 0 {
      var r := QuickLz.Compress(a[at..at + oldsize], lz, hash);
      packed := lz[..r];
      var newsize := r % 0x1_0000;
      if newsize < oldsize {
        assert a[..] == old(a[..]);
        Recode(a, lz, newsize, 1, SEQ_SHIFT, s);
      }
    }
  }

  lemma {:induction false} FlagGrowth(s: Segment)
    requires s.Valid()
    ensures Growth(s, COMPRESSED, 3) <= 4
  {
    hide Real, FindExact, Size;
  }

  /** Restores the payload of a packet that TcpCompress changed; 0 and no change where there is no payload. */
  method TcpDecompress(a: array<byte>, lz: array<byte>, offset: array<int>, ghost s: Segment, ghost x: seq<byte>)
    returns (done: bool)
    requires a != lz && Holds(a[..], s) && a.Length == BUFSIZE && lz.Length == BUFSIZE + 400 &&
      offset.Length == T.HASH_VALUES
    requires s.data != [] ==>
      QuickLz.Packed(s.data, x) && |s.head| + s.AreaSize() + |x| + Growth(s, COMPRESSED, 3) <= a.Length
    modifies a, lz, offset
    ensures done == (s.data != [])
    ensures done ==> Holds(a[..], Recoded(s, x, 0, -SEQ_SHIFT))
    ensures !done ==> a[..] == old(a[..])
  {
    hide Size, Holds, Recoded, QuickLz.Packed, Growth, Doff, TotLen, SeqNo, HeadOk;
    HoldsAsParts(a[..], s);
    HoldsParts(a[..], s);
    var at := TcpAt(a[..]) + 4 * Doff(a[..]);
    var oldsize := TotLen(a[..]) - at;
    done := oldsize > 0;
    if done {
      var newsize := QuickLz.Decompress(a[at..at + oldsize], lz, offset, x);
      assert a[..] == old(a[..]);
      Recode(a, lz, newsize, 0, -SEQ_SHIFT, s);
    }
  }

  // ----- From one box to the other -----

  predicate Untagged(s: Segment) { Find(s.opts, COMPRESSED) == |s.opts| }

  lemma {:induction false} AbsentExact(os: seq<Option>, kind: OptKind, len: nat)
    requires Find(os, kind) == |os|
    ensures FindExact(os, kind, len) == |os|
  {
    hide Find, FindExact;
  }

  /** The sender's flag is on exactly when the option fitted. */
  lemma {:induction false} FlagAfterCompress(s: Segment, packed: seq<byte>)
    requires s.Valid() && Untagged(s) && |s.head| + s.AreaSize() + |packed| + 12 < 0x1_0000
    ensures var s1 := Recoded(s, packed, 1, SEQ_SHIFT);
      && s1.opts == (if HasRoom(s, COMPRESSED, 3) then [Opt(COMPRESSED, [1])] + Real(s.opts) else Real(s.opts))
      && Get(s1.opts, COMPRESSED) == (if HasRoom(s, COMPRESSED, 3) then 1 else 0)
      && (HasRoom(s, COMPRESSED, 3) ==> FindExact(s1.opts, COMPRESSED, 3) == 0 == Find(s1.opts, COMPRESSED))
      && (!HasRoom(s, COMPRESSED, 3) ==> Untagged(s1))
  {
    hide Recoded, HasRoom, Size, Find, Real, FindExact;
    RecodedFields(s, packed, 1, SEQ_SHIFT);
    AbsentExact(s.opts, COMPRESSED, 3);
    AbsentInReal(s.opts, COMPRESSED);
    OneByte();
    FirstOption(Opt(COMPRESSED, [1]), Real(s.opts));
  }

  lemma {:induction false} OneByte()
    ensures BeBytes(1, 1) == [1] && BeValue([1]) == 1
  {
    assert BeBytes(0, 0) == [];
    assert [1][..0] == [];
  }

  lemma {:induction false} FirstOption(o: Option, os: seq<Option>)
    requires o.Opt?
    ensures Find([o] + os, o.kind) == 0 && FindExact([o] + os, o.kind, o.Length()) == 0
  {
  }

  /**
   Restoration, and exactly when: a payload that shrank comes back, with its sequence number and
   all other options, if and only if there was room for the flag option. Without room the
   receiver sees no flag and passes on the packed payload with the shifted sequence number.
   */
  lemma {:induction false} RestoredIffRoom(s: Segment, packed: seq<byte>)
    requires s.Valid() && Untagged(s) && |packed| < |s.data| && |s.Bytes()| + 16 < 0x1_0000
    ensures var s1 := Recoded(s, packed, 1, SEQ_SHIFT);
      && (Get(s1.opts, COMPRESSED) != 0 <==> HasRoom(s, COMPRESSED, 3))
      && |s1.head| + s1.AreaSize() + |s.data| + 12 < 0x1_0000
      && var s2 := if Get(s1.opts, COMPRESSED) != 0 then Recoded(s1, s.data, 0, -SEQ_SHIFT) else s1;
      && Others(s2.opts, COMPRESSED) == Others(s.opts, COMPRESSED)
      && (s2.data == s.data <==> HasRoom(s, COMPRESSED, 3))
      && (SeqNo(s2.head) == SeqNo(s.head) <==> HasRoom(s, COMPRESSED, 3))
  {
    hide Recoded, HasRoom, Size, Find, Real, FindExact, Others, Get, Segment.Bytes, SeqNo, SetInList;
    FlagAfterCompress(s, packed);
    RecodedFields(s, packed, 1, SEQ_SHIFT);
    RecodedSize(s, packed, 1, SEQ_SHIFT);
    var s1 := Recoded(s, packed, 1, SEQ_SHIFT);
    RecodedFields(s1, s.data, 0, -SEQ_SHIFT);
    ShiftBack(SeqNo(s.head));
    ShiftMoves(SeqNo(s.head));
  }

  lemma {:induction false} ShiftMoves(a: uint32)
    ensures Add32(a, SEQ_SHIFT) != a
  {
  }

  lemma {:induction false} RecodedSize(s: Segment, d: seq<byte>, flag: nat, shift: int)
    requires s.Valid() && |s.head| + s.AreaSize() + |d| + 12 < 0x1_0000
    ensures var r := Recoded(s, d, flag, shift);
      |r.head| == |s.head| && r.AreaSize() == s.AreaSize() + Growth(s, COMPRESSED, 3) <= s.AreaSize() + 4
  {
    hide Size, Growth, HasRoom, SetInList, Resized, WithSeq, NewHead;
    GrowthSame(s, d);
    FlagGrowth(s);
    SetValid(WithData(s, d), COMPRESSED, 3, flag);
  }

  /**
   The trip of a packet through both boxes: the sender compresses, the receiver decompresses
   what it finds flagged. Payload, sequence number and all other options arrive as they were
   sent exactly when the payload did not shrink or the flag had room.
   */
  method Transit(a: array<byte>, lz: array<byte>, hash: array<C.HashEntry>, offset: array<int>, ghost s: Segment)
    returns (ghost packed: seq<byte>, ghost r: Segment)
    requires a != lz && Holds(a[..], s) && Untagged(s) && |s.Bytes()| + 4 <= a.Length == BUFSIZE &&
      lz.Length == BUFSIZE + 400
    requires hash.Length == T.HASH_VALUES && offset.Length == T.HASH_VALUES
    modifies a, lz, hash, offset
    ensures Holds(a[..], r) && Others(r.opts, COMPRESSED) == Others(s.opts, COMPRESSED)
    ensures s.data != [] ==> QuickLz.Packed(packed, s.data)
    ensures var kept := |packed| >= |s.data| || HasRoom(s, COMPRESSED, 3);
      (r.data == s.data <==> kept) && (SeqNo(r.head) == SeqNo(s.head) <==> kept)
  {
    hide Recoded, HasRoom, Size, Find, Real, FindExact, Others, Get, SeqNo, SetInList, Holds, QuickLz.Packed, Growth;
    HoldsAsParts(a[..], s);
    HoldsParts(a[..], s);
    packed := TcpCompress(a, lz, hash, s);
    r := s;
    if s.data != [] && |packed| < |s.data| {
      r := Recoded(s, packed, 1, SEQ_SHIFT);
      RestoredIffRoom(s, packed);
      FlagAfterCompress(s, packed);
      RecodedFields(s, packed, 1, SEQ_SHIFT);
      RecodedSize(s, packed, 1, SEQ_SHIFT);
      NoMoreGrowth(r);
      QuickLz.PackedLength(packed, s.data);
    }
    UntaggedGet(s);
    var flag := GetOption(a[..], COMPRESSED, r);
    if flag != 0 {
      var _ := TcpDecompress(a, lz, offset, r, s.data);
      r := Recoded(r, s.data, 0, -SEQ_SHIFT);
    }
  }

  lemma {:induction false} NoMoreGrowth(s: Segment)
    ensures FindExact(s.opts, COMPRESSED, 3) < |s.opts| ==> Growth(s, COMPRESSED, 3) == 0
  {
  }

  lemma {:induction false} UntaggedGet(s: Segment)
    ensures Untagged(s) ==> Get(s.opts, COMPRESSED) == 0
  {
  }
}
