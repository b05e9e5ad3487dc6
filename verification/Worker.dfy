/** What a worker does to an ordinary packet of a session, byte for byte, and two boxes doing it one after the other. */
module Worker {
  import opened Bytes
  import opened TcpPacket
  import opened TcpOptions
  import E = TcpOptionEdit
  import opened Compression
  import opened Nod
  import NodEdit
  import opened SequenceTracking
  import opened Relay
  import opened Lockstep
  import A = Acceleration
  import Csum
  import SD = SessionData
  import ST = SessionTable
  import T = QlzTokens
  import C = QlzCompress
  import QuickLz

  // ----- Checksums -----

  /** Both checksums of the packet in the buffer are right. */
  ghost predicate SumsClose(p: seq<byte>)
  {
    Csum.Sound(p) && Csum.Fold(Csum.TcpSum(p)) == 0xffff && Csum.Fold(Csum.IpSum(p)) == 0xffff
  }

  lemma {:induction false} HoldsSound(p: seq<byte>, s: Segment)
    requires Holds(p, s)
    ensures Csum.Sound(p) && TcpAt(p) == TcpAt(s.head) && p[9] == IPPROTO_TCP && |p| >= |s.head|
  {
    hide Size, Holds, Segment.Bytes;
    E.HoldsParts(p, s);
    E.HoldsAsParts(p, s);
    assert p[0] == p[..|s.head|][0] == s.head[0];
  }

  /** Bytes changed in the head only leave the other parts where they are. */
  lemma {:induction false} HeadReplaced(p: seq<byte>, q: seq<byte>, h: seq<byte>, area: seq<byte>, d: seq<byte>,
        at: nat)
    requires E.Parts(p, h, area, d) && |q| == |p| && 12 <= at && at + 18 <= |h|
    requires forall i :: 0 <= i < |p| && i !in {10, 11, at + 16, at + 17} ==> q[i] == p[i]
    ensures |h| <= |q| && E.Parts(q, q[..|h|], area, d)
    ensures forall i :: 0 <= i < |h| && !(i == 10 || i == 11 || i == at + 16 || i == at + 17) ==> q[..|h|][i] == h[i]
  {
    hide E.Parts;
    E.PartsFit(p, h, area, d);
    E.PartsAt(p, h, area, d);
    E.PartsAre(q, q[..|h|], area, d);
  }

  /** Only checksum bytes changed, so the buffer holds the same packet with other checksums. */
  lemma {:induction false} SummedHolds(p: seq<byte>, q: seq<byte>, s: Segment) returns (r: Segment)
    requires Holds(p, s) && |q| == |p| && TcpAt(q) == TcpAt(p) == TcpAt(s.head)
    requires forall i :: 0 <= i < |p| && i !in {10, 11, TcpAt(q) + 16, TcpAt(q) + 17} ==> q[i] == p[i]
    ensures Resummed(s, r) && Holds(q, r)
  {
    hide Size, Holds, Segment.Bytes, E.Parts, Doff, TotLen, SeqNo, Area;
    E.HoldsAsParts(p, s);
    E.HoldsParts(p, s);
    HeadReplaced(p, q, s.head, Area(s.opts, s.pad), s.data, TcpAt(s.head));
    r := s.(head := q[..|s.head|]);
    HeadSummed(s, r);
    E.HoldsAsParts(q, r);
  }

  /** Recomputes both checksums of a packet. */
  method FixSums(a: array<byte>, ghost s: Segment) returns (ghost r: Segment)
    requires Holds(a[..], s)
    modifies a
    ensures Resummed(s, r) && Holds(a[..], r) && SumsClose(a[..])
  {
    hide Size, Holds, Segment.Bytes, Csum.Fold, Csum.WordSum, Csum.TcpSum, Csum.IpSum, Resummed;
    ghost var p := a[..];
    HoldsSound(p, s);
    Csum.Checksum(a);
    r := SummedHolds(p, a[..], s);
  }

  // ----- One box -----

  /** A packet that fits the buffers, with a payload of n bytes in place of its own if need be. */
  ghost predicate Fits(w: Segment, n: nat)
  {
    Workable(w, n) && |w.head| + 60 + |w.data| <= BUFSIZE && |w.head| + 60 + n <= BUFSIZE
  }

  /** Enters an id for the sender of the packet. */
  method SaveAcceleratorId(p: seq<byte>, session: ST.Session, id: Id, ghost w: Segment, ghost plain: seq<byte>)
    requires Holds(p, w)
    modifies session`data
    ensures session.data == A.WithAccelerator(old(session.data), View(w, plain), id)
  {
    hide Size, Holds, Segment.Bytes, TagOf, Get, SeqNo;
    E.HoldsParts(p, w);
    E.HoldsAsParts(p, w);
    SequenceTracking.Fields(p, w.head);
    var larger, d := LargerIP(p), session.data;
    if larger != 0 {
      if Saddr(p) == larger {
        session.data := d.(larger := d.larger.(accelerator := id));
      } else {
        session.data := d.(smaller := d.smaller.(accelerator := id));
      }
    }
  }

  /** Recording the tagged packet is recording the packet. */
  lemma {:induction false} MarkedRecord(d: SD.Data, w: Segment, id: Id, plain: seq<byte>)
    requires w.Valid() && Small(w) && Markable(w)
    ensures Record(d, Marked(w, id)) == A.WithSegment(d, View(w, plain), SeqNo(w.head), |w.data|)
  {
    hide Size, Find, Real, Marked, Markable, View, Rest, SeqNo, A.WithSegment, SameSender;
    var t := Marked(w, id);
    MarkedRest(w, id);
    SenderSame(w, t, plain, plain);
    RecordView(d, t, plain);
    SenderOnly(d, View(w, plain), View(t, plain), id, SeqNo(w.head), |w.data|);
  }

  lemma {:induction false} RestoredRecord(d: SD.Data, w: Segment, plain: seq<byte>)
    requires w.Valid() && |w.head| + w.AreaSize() + |plain| + 12 < 0x1_0000
    ensures Record(d, Recoded(w, plain, 0, -SEQ_SHIFT)) ==
      A.WithSegment(d, View(w, plain), Add32(SeqNo(w.head), -SEQ_SHIFT), |plain|)
  {
    hide Size, Find, Real, Recoded, View, Rest, SeqNo, A.WithSegment, SameSender, Others, HasRoom, SetInList, Growth;
    var r := Recoded(w, plain, 0, -SEQ_SHIFT);
    RecodedFields(w, plain, 0, -SEQ_SHIFT);
    RecodedSize(w, plain, 0, -SEQ_SHIFT);
    RecodedRest(w, plain, 0, -SEQ_SHIFT);
    SenderSame(w, r, plain, plain);
    RecordView(d, r, plain);
    SenderOnly(d, View(w, plain), View(r, plain), [0, 0, 0, 0], SeqNo(r.head), |plain|);
  }

  /** Records a packet of the session. */
  method RecordPacket(a: array<byte>, session: ST.Session, ghost s: Segment)
    requires Holds(a[..], s)
    modifies session`data
    ensures session.data == Record(old(session.data), s)
  {
    hide Size, Holds, Segment.Bytes;
    E.HoldsParts(a[..], s);
    E.HoldsAsParts(a[..], s);
    SequenceTracking.Fields(a[..], s.head);
    var _ := UpdateSeq(LargerIP(a[..]), a[..], session, s);
  }

  /** The test for compression, on the addresses in the buffer and the accelerators in the session. */
  method CompressNow(p: seq<byte>, d: SD.Data, local: Id, ghost w: Segment, ghost t: Segment, ghost plain: seq<byte>)
    returns (yes: bool)
    requires Holds(p, t) && w.Valid() && |t.head| == |w.head| && Rest(t.head) == Rest(w.head)
    ensures yes == A.MayCompress(d, View(w, plain), local)
  {
    hide Size, Holds, Segment.Bytes, TagOf, Get, SeqNo, Rest, A.MayCompress, Le32;
    E.HoldsParts(p, t);
    E.HoldsAsParts(p, t);
    SequenceTracking.Fields(p, t.head);
    RestFields(w.head, t.head);
    A.CompressTest(d, View(w, plain), local);
    var larger := if Saddr(p) > Daddr(p) then Saddr(p) else Daddr(p);
    var smaller := if Saddr(p) > Daddr(p) then Daddr(p) else Saddr(p);
    var ofLarger, ofSmaller := d.larger.accelerator, d.smaller.accelerator;
    yes := ((Saddr(p) == larger && ofLarger == local && ofSmaller != A.NO_ID && ofSmaller != local)
            || (Saddr(p) == smaller && ofSmaller == local && ofLarger != A.NO_ID && ofLarger != local))
           && d.state == SD.TCP_ESTABLISHED;
  }

  lemma {:induction false} CompressesView(w: Segment, d: SD.Data, local: Id, plain: seq<byte>)
    ensures Compresses(w, d, local) <==>
      A.MayCompress(A.WithAccelerator(d, View(w, plain), local), View(w, plain), local)
    ensures !Recognized(w, {})
  {
    hide Saddr, Daddr, Source, Dest, Flags, TagOf, Get, SeqNo;
  }

  /** The box enters itself, tags the packet, records it, and compresses it if the session is accelerated. */
  method Optimize(a: array<byte>, lz: array<byte>, hash: array<C.HashEntry>, session: ST.Session, local: Id,
        ghost w: Segment, ghost plain: seq<byte>)
    returns (ghost packed: seq<byte>, ghost r: Segment)
    requires a != lz && Holds(a[..], w) && Fits(w, |plain|) && a.Length == BUFSIZE && lz.Length == BUFSIZE + 400 &&
      hash.Length == T.HASH_VALUES
    modifies a, lz, hash, session`data
    ensures session.data == A.Carried(old(session.data), View(w, plain), local, {})
    ensures Holds(a[..], r) && r == Forwarded(w, old(session.data), local, {}, plain, packed)
    ensures |packed| < |w.data| ==> QuickLz.Packed(packed, w.data)
  {
    hide Size, Real, Find, Holds, Segment.Bytes, Recoded, Marked, View, QuickLz.Packed, A.WithAccelerator,
      A.WithSegment, A.MayCompress, Get, SeqNo, Record, Rest, Compresses, CanTag, BareLast, IdPresent;
    ghost var d0, t := session.data, Marked(w, local);
    AreaLimit(t);
    MarkedRest(w, local);
    CompressesView(w, d0, local, plain);
    SaveAcceleratorId(a[..], session, local, w, plain);
    var _ := NodEdit.SetNodHeaderData(a, local, w);
    var test := CompressNow(a[..], session.data, local, w, t, plain);
    MarkedRecord(session.data, w, local, plain);
    RecordPacket(a, session, t);
    CarriedUntagged(d0, w, local, plain);
    packed, r := w.data, t;
    if test {
      packed := TcpCompress(a, lz, hash, t);
      if |packed| < |t.data| {
        r := Recoded(t, packed, 1, SEQ_SHIFT);
      }
    }
  }

  lemma {:induction false} CarriedUntagged(d: SD.Data, w: Segment, local: Id, plain: seq<byte>)
    ensures var p := View(w, plain);
      A.Carried(d, p, local, {}) == A.WithSegment(A.WithAccelerator(d, p, local), p, SeqNo(w.head), |w.data|)
  {
    hide Saddr, Daddr, Source, Dest, Flags, TagOf, Get, SeqNo, A.WithSegment, A.WithAccelerator;
  }

  /** The test for restoring, on the addresses in the buffer and the accelerators in the session. */
  method RestoreNow(p: seq<byte>, d: SD.Data, local: Id, ghost w: Segment, ghost plain: seq<byte>) returns (yes: bool)
    requires Holds(p, w)
    ensures yes == A.MayRestore(d, View(w, plain), local)
  {
    hide Size, Holds, Segment.Bytes, TagOf, Get, SeqNo, Le32;
    E.HoldsParts(p, w);
    E.HoldsAsParts(p, w);
    SequenceTracking.Fields(p, w.head);
    var larger := if Saddr(p) > Daddr(p) then Saddr(p) else Daddr(p);
    var smaller := if Saddr(p) > Daddr(p) then Daddr(p) else Saddr(p);
    yes := (Saddr(p) == larger && d.smaller.accelerator == local) ||
      (Saddr(p) == smaller && d.larger.accelerator == local);
  }

  /** Setting the flag never takes the option area past 40 bytes. */
  lemma {:induction false} GrowthLimit(s: Segment)
    requires s.Valid()
    ensures s.AreaSize() + Growth(s, COMPRESSED, 3) <= 40
  {
    hide Size, FindExact, FreeSpace;
  }

  lemma {:induction false} CarriedTagged(d: SD.Data, w: Segment, local: Id, up: set<Id>, plain: seq<byte>)
    requires Recognized(w, up)
    ensures var p := View(w, plain); var d1 := A.WithAccelerator(d, p, p.tag.id);
      && p.tag == TagOf(w.opts)
      && (Restores(w, d, local) <==> A.MayRestore(d1, p, local))
      && A.Carried(d, p, local, up) ==
        if Get(w.opts, COMPRESSED) == 0 then A.WithSegment(d1, p, SeqNo(w.head), |w.data|)
        else if Restores(w, d, local) && w.data != [] then
          A.WithSegment(d1, p, Add32(SeqNo(w.head), -SEQ_SHIFT), |plain|)
        else d1
  {
    hide Saddr, Daddr, Source, Dest, Flags, TagOf, Get, SeqNo, A.WithSegment, A.WithAccelerator, A.MayRestore, Restores;
    PlainUnseen(w, d, local, up, plain);
  }

  /**
   The box enters the id in the tag, and restores a flagged packet if it accelerates the endpoint it goes to. It records
   the packet as restored, or as it came if it is not flagged. A flagged packet without payload is dropped.
   */
  method Deoptimize(a: array<byte>, lz: array<byte>, offset: array<int>, session: ST.Session, remote: Id, local: Id,
        ghost w: Segment, ghost up: set<Id>, ghost plain: seq<byte>)
    returns (dropped: bool, ghost r: Segment)
    requires a != lz && Holds(a[..], w) && Fits(w, |plain|) && a.Length == BUFSIZE && lz.Length == BUFSIZE + 400 &&
      offset.Length == T.HASH_VALUES
    requires Recognized(w, up) && TagOf(w.opts) == A.Tagged(remote)
    requires Get(w.opts, COMPRESSED) != 0 && Restores(w, session.data, local) && w.data != [] ==>
      QuickLz.Packed(w.data, plain)
    modifies a, lz, offset, session`data
    ensures session.data == A.Carried(old(session.data), View(w, plain), local, up)
    ensures dropped <==> Get(w.opts, COMPRESSED) != 0 && Restores(w, old(session.data), local) && w.data == []
    ensures Holds(a[..], r) && r == Forwarded(w, old(session.data), local, up, plain, [])
  {
    hide Size, Real, Find, Holds, Segment.Bytes, Recoded, Marked, View, QuickLz.Packed, A.WithAccelerator,
      A.WithSegment, A.MayRestore, Get, SeqNo, Record, Rest, Compresses, Restores, Markable, A.Carried, Growth, TagOf,
      Recognized;
    ghost var d0 := session.data;
    AreaLimit(w);
    GrowthLimit(w);
    CarriedTagged(d0, w, local, up, plain);
    SaveAcceleratorId(a[..], session, remote, w, plain);
    var flag := E.GetOption(a[..], COMPRESSED, w);
    dropped, r := false, w;
    if flag != 0 {
      var restores := RestoreNow(a[..], session.data, local, w, plain);
      if restores {
        var done := TcpDecompress(a, lz, offset, w, plain);
        dropped := !done;
        if done {
          r := Recoded(w, plain, 0, -SEQ_SHIFT);
          RestoredRecord(session.data, w, plain);
          RecordPacket(a, session, r);
        }
      }
    } else {
      RecordView(session.data, w, plain);
      RecordPacket(a, session, w);
    }
  }

  /** A tag that tagging leaves alone or fills in holds nothing else. */
  lemma {:induction false} ReadableTag(w: Segment)
    requires Markable(w)
    ensures ReadTag(w.opts) != OtherHeader && (ReadTag(w.opts).Found? ==> |ReadTag(w.opts).data| == 4)
  {
    hide Find, CanTag;
    if Find(w.opts, NOD) < |w.opts| {
      if IdPresent(w) {
        HeaderData(w.opts[Find(w.opts, NOD)].data[6..]);
      }
    }
  }

  lemma {:induction false} TagRead(w: Segment)
    requires ReadTag(w.opts) != OtherHeader && (ReadTag(w.opts).Found? ==> |ReadTag(w.opts).data| == 4)
    ensures TagOf(w.opts) == if ReadTag(w.opts).Found? then A.Tagged(ReadTag(w.opts).data) else A.NoTag
  {
    hide ReadTag;
  }

  /** Which branch a packet takes depends on its tag only. */
  lemma {:induction false} RecognizedTag(w: Segment, up: set<Id>)
    ensures Recognized(w, up) <==> TagOf(w.opts).Tagged? && TagOf(w.opts).id in up
  {
    hide Saddr, Daddr, Source, Dest, Flags, TagOf, Get, SeqNo;
  }

  /** In a packet not recognized, the neighbours that are up make no difference; in one that is, the codec does not. */
  lemma {:induction false} OtherBranch(w: Segment, d: SD.Data, local: Id, up: set<Id>, plain: seq<byte>,
        packed: seq<byte>)
    requires Workable(w, |plain|)
    ensures !Recognized(w, up) ==>
      && Forwarded(w, d, local, up, plain, packed) == Forwarded(w, d, local, {}, plain, packed)
      && A.Carried(d, View(w, plain), local, up) == A.Carried(d, View(w, plain), local, {})
    ensures Recognized(w, up) ==> Forwarded(w, d, local, up, plain, packed) == Forwarded(w, d, local, up, plain, [])
  {
    hide Size, Real, Find, Recoded, Marked, Get, Saddr, Daddr, Source, Dest, Flags, TagOf, SeqNo, Markable, Restores,
      Compresses, A.WithSegment, A.WithAccelerator, A.MayRestore;
    PlainUnseen(w, d, local, up, plain);
  }

  lemma {:induction false} ResummedSelf(s: Segment)
    ensures Resummed(s, s)
  {
  }

  /** Dropped: flagged, to be restored here, and without payload. */
  predicate DropsPacket(w: Segment, d: SD.Data, local: Id, up: set<Id>)
  {
    Recognized(w, up) && Get(w.opts, COMPRESSED) != 0 && Restores(w, d, local) && w.data == []
  }

  /**
   The worker's code for an ordinary packet of a session: the choice between the two branches, the branch, and the
   checksums of what is sent on.
   */
  method Carry(a: array<byte>, lz: array<byte>, hash: array<C.HashEntry>, offset: array<int>, session: ST.Session,
        local: Id, up: set<Id>, ghost w: Segment, ghost plain: seq<byte>)
    returns (dropped: bool, ghost packed: seq<byte>, ghost r: Segment)
    requires a != lz && Holds(a[..], w) && Fits(w, |plain|) && a.Length == BUFSIZE && lz.Length == BUFSIZE + 400
    requires hash.Length == T.HASH_VALUES && offset.Length == T.HASH_VALUES
    requires Recognized(w, up) && Get(w.opts, COMPRESSED) != 0 && Restores(w, session.data, local) && w.data != [] ==>
      QuickLz.Packed(w.data, plain)
    modifies a, lz, hash, offset, session`data
    ensures session.data == A.Carried(old(session.data), View(w, plain), local, up)
    ensures dropped == DropsPacket(w, old(session.data), local, up)
    ensures Resummed(Forwarded(w, old(session.data), local, up, plain, packed), r)
    ensures |packed| < |w.data| ==> QuickLz.Packed(packed, w.data)
    ensures !dropped ==> Holds(a[..], r) && SumsClose(a[..])
  {
    hide Size, Real, Find, Holds, Segment.Bytes, View, QuickLz.Packed, Get, Markable, A.Carried, TagOf, ReadTag,
      Recognized, Forwarded, Restores, Resummed, SumsClose;
    ReadableTag(w);
    var tag := NodEdit.GetNodHeaderData(a[..], w);
    RecognizedTag(w, up);
    TagRead(w);
    ghost var f;
    if tag.NoTag? || tag.data !in up {
      dropped := false;
      packed, f := Optimize(a, lz, hash, session, local, w, plain);
      OtherBranch(w, old(session.data), local, up, plain, packed);
    } else {
      dropped, f := Deoptimize(a, lz, offset, session, tag.data, local, w, up, plain);
      packed := w.data;
      OtherBranch(w, old(session.data), local, up, plain, packed);
    }
    r := f;
    if !dropped {
      r := FixSums(a, f);
    } else {
      ResummedSelf(f);
    }
  }

  // ----- Both boxes -----

  /** The first box sees no tag, whichever neighbours it has up. */
  lemma {:induction false} HostUnrecognized(x: Trip, a: SD.Data, idA: Id, up: set<Id>)
    requires x.Ok()
    ensures Workable(x.m, 0) && !Recognized(x.m, up)
    ensures Forwarded(x.m, a, idA, up, [], x.packed) == Sent(x, a, idA)
    ensures A.Carried(a, View(x.m, []), idA, up) == FirstRecords(x, a, idA)
  {
    hide Size, Real, Find, Get, View, TagOf, Markable, Trip.Ok, Forwarded, A.Carried;
    HostWorkable(x);
    RecognizedTag(x.m, up);
    OtherBranch(x.m, a, idA, up, [], x.packed);
  }

  /** What DeliveredIff says of the packet up to its checksums holds of the packet with them. */
  lemma {:induction false} DeliveredSummed(x: Trip, a: SD.Data, b: SD.Data, idA: Id, idB: Id, w: Segment, r: Segment)
    requires OnWire(x, a, idA, w) && Workable(w, |x.m.data|) && Resummed(PassedOn(x, w, b, idB), r)
    ensures Small(x.m) && HostOptions(r.opts) == HostOptions(x.m.opts) && Rest(r.head) == Rest(x.m.head)
    ensures r.data == x.m.data <==> Kept(x, a, b, idA, idB, w)
    ensures SeqNo(r.head) == SeqNo(x.m.head) <==> Kept(x, a, b, idA, idB, w)
  {
    hide Size, Real, Find, Get, View, Workable, PassedOn, Trip.Ok, OnWire, Kept, HostOptions, Rest, SeqNo, FreeSpace,
      Doff;
    DeliveredIff(x, a, b, idA, idB, w);
    ResummedSame(PassedOn(x, w, b, idB), r, []);
  }

  /** The packet on the wire is one the second box handles. */
  lemma {:induction false} SecondFits(x: Trip, a: SD.Data, b: SD.Data, idA: Id, idB: Id, w: Segment)
    requires OnWire(x, a, idA, w) && |x.m.head| + 60 + |x.m.data| <= BUFSIZE
    ensures Fits(w, |x.m.data|) && !DropsPacket(w, b, idB, x.up)
    ensures Get(w.opts, COMPRESSED) != 0 ==> QuickLz.Packed(w.data, x.m.data)
  {
    hide Size, Real, Find, Tagged, Recoded, Header, Get, HasRoom, FreeSpace, QuickLz.Packed, Compresses, Segment.Bytes,
      View, TagOf, Rest, HostOptions, SeqNo, Workable, Restores, Recognized, Resummed, Sent, CanTag, SameSender;
    SeenBySecond(x, a, idA, w);
  }

  /**
   A packet of a host through the code of both boxes. It is never dropped. What arrives has both checksums right, and
   the host's own options and headers; payload and sequence number are as sent exactly under Kept. The sessions of the
   boxes stay in step exactly under the condition of InStepIff.
   */
  method BothBoxes(a: array<byte>, lz: array<byte>, hash: array<C.HashEntry>, offset: array<int>, first: ST.Session,
        second: ST.Session, idA: Id, idB: Id, upA: set<Id>, upB: set<Id>, ghost m: Segment)
    returns (ghost x: Trip, ghost w: Segment, ghost r: Segment)
    requires a != lz && a.Length == BUFSIZE && lz.Length == BUFSIZE + 400 && hash.Length == T.HASH_VALUES &&
      offset.Length == T.HASH_VALUES
    requires Holds(a[..], m) && |m.head| + 60 + |m.data| <= BUFSIZE && Find(m.opts, NOD) == |m.opts| && Untagged(m) &&
      CanTag(m)
    requires first != second && InStep(first.data, second.data)
    modifies a, lz, hash, offset, first`data, second`data
    ensures x.m == m && x.up == upB && Small(m) && m.Valid() && OnWire(x, old(first.data), idA, w)
    ensures Holds(a[..], r) && SumsClose(a[..])
    ensures HostOptions(r.opts) == HostOptions(m.opts) && Rest(r.head) == Rest(m.head)
    ensures r.data == m.data <==> Kept(x, old(first.data), old(second.data), idA, idB, w)
    ensures SeqNo(r.head) == SeqNo(m.head) <==> Kept(x, old(first.data), old(second.data), idA, idB, w)
    ensures InStep(first.data, second.data) <==>
      || !x.Shrinks(old(first.data), idA)
      || (if x.Arrives(idA) && HasRoom(Tagged(m, idA), COMPRESSED, 3) then
            Restores(w, old(second.data), idB) || Repeats(old(first.data), m)
          else View(m, []).LargerIP() == 0)
  {
    hide Size, Real, Find, Holds, Segment.Bytes, View, Get, QuickLz.Packed, Tagged, HasRoom, Restores, Compresses,
      Repeats, Resummed, Kept, SeqNo, Rest, HostOptions, A.Carried, Forwarded, Sent, SumsClose, InStep, Markable,
      CanTag, Recognized, TagOf, Taggable;
    ghost var d1, d2 := first.data, second.data;
    StartsOk(a[..], m, upB);
    HostUnrecognized(Trip(m, m.data, [], upB), d1, idA, upA);
    var dropped;
    ghost var packed, again;
    dropped, packed, w := Carry(a, lz, hash, offset, first, idA, upA, m, []);
    x := Trip(m, packed, [], upB);
    HostUnrecognized(x, d1, idA, upA);
    SecondFits(x, d1, d2, idA, idB, w);
    dropped, again, r := Carry(a, lz, hash, offset, second, idB, upB, w, m.data);
    x := x.(again := again);
    HostUnrecognized(x, d1, idA, upA);
    DeliveredSummed(x, d1, d2, idA, idB, w, r);
    InStepIff(x, d1, d2, idA, idB, w);
  }

  lemma {:induction false} StartsOk(p: seq<byte>, m: Segment, up: set<Id>)
    requires Holds(p, m) && |m.head| + 60 + |m.data| <= BUFSIZE && Find(m.opts, NOD) == |m.opts| && Untagged(m) &&
      CanTag(m)
    ensures Trip(m, m.data, [], up).Ok()
  {
    hide Size, Find, Real, CanTag, Segment.Bytes;
  }
}
