/** Two boxes on the path of a connection: what arrives, and the sequence numbers they record for it. */
module Lockstep {
  import opened Bytes
  import opened TcpPacket
  import opened TcpOptions
  import opened Compression
  import opened Nod
  import opened SequenceTracking
  import opened Relay
  import A = Acceleration
  import SD = SessionData
  import ST = SessionTable
  import QuickLz

  // ----- One packet through both boxes -----

  /**
   A packet of a host on its way: what the codec makes of its payload at the first box, what it would make of the
   payload that reaches the second one, and which neighbours the second box has up.
   */
  datatype Trip = Trip(m: Segment, packed: seq<byte>, again: seq<byte>, up: set<Id>)
  {
    /** The host has set neither of the boxes' options, and the header can take a bare tag. */
    ghost predicate Ok()
    {
      && m.Valid() && |m.head| + 60 + |m.data| < 0x1_0000
      && Find(m.opts, NOD) == |m.opts| && Untagged(m) && CanTag(m)
      && (|packed| < |m.data| ==> QuickLz.Packed(packed, m.data))
    }

    /** The first box compresses the packet. */
    predicate Shrinks(a: SD.Data, idA: Id) { Compresses(m, a, idA) && |packed| < |m.data| }

    /** The id of the first box reaches the second one, which knows it and has it up. */
    predicate Arrives(idA: Id) { Taggable(m) && idA in up }
  }

  lemma {:induction false} HostWorkable(x: Trip)
    requires x.Ok()
    ensures Workable(x.m, 0) && Small(x.m) && !Recognized(x.m, {}) && Marked(x.m, [0, 0, 0, 0]).Valid()
    ensures TagOf(x.m.opts) == A.NoTag
  {
    hide Size, Real, Find, Tagged, CanTag, QuickLz.Packed;
  }

  /** What the first box sends, up to its checksums. */
  function Sent(x: Trip, a: SD.Data, idA: Id): Segment
    requires x.Ok()
  {
    hide Size, Real, Find, Recoded, Marked, View, Get, Markable, Trip.Ok;
    HostWorkable(x);
    Forwarded(x.m, a, idA, {}, [], x.packed)
  }

  /** In particular: the tagged packet, recoded if it is compressed. */
  lemma {:induction false} SentIs(x: Trip, a: SD.Data, idA: Id)
    requires x.Ok()
    ensures Small(x.m) && Tagged(x.m, idA).AreaSize() <= 40
    ensures Sent(x, a, idA) ==
      if x.Shrinks(a, idA) then Recoded(Tagged(x.m, idA), x.packed, 1, SEQ_SHIFT) else Tagged(x.m, idA)
  {
    hide Size, Real, Find, Recoded, Tagged, View, Get, QuickLz.Packed, CanTag;
    HostWorkable(x);
    AreaLimit(Tagged(x.m, idA));
  }

  /** The wire: the packet with the checksums of the first box. */
  ghost predicate OnWire(x: Trip, a: SD.Data, idA: Id, w: Segment)
  {
    x.Ok() && Resummed(Sent(x, a, idA), w)
  }

  /** The tag at the end of the options, with the id or without. */
  lemma {:induction false} TaggedShape(m: Segment, id: Id)
    requires m.Valid() && Small(m) && CanTag(m) && Find(m.opts, NOD) == |m.opts|
    ensures var t, d := Tagged(m, id), if Taggable(m) then id else [];
      t.opts == Real(m.opts) + [Opt(NOD, Header(d))] && Plain(Real(m.opts)) && Find(Real(m.opts), NOD) == |Real(m.opts)|
  {
    hide Size, Real, Find, Fitted, Named, Header, FreeSpace;
    NamedSize(m);
    ThirdFits(m);
    AbsentInReal(m.opts, NOD);
  }

  /** Options that end in a tag, whatever stands before it. */
  lemma {:induction false} EndsInTag(s: Segment, r: seq<Option>, d: seq<byte>)
    requires Plain(r) && Find(r, NOD) == |r| && (d == [] || |d| == 4) && s.opts == r + [Opt(NOD, Header(d))]
    ensures Plain(s.opts) && Find(s.opts, NOD) == |r| && Markable(s)
    ensures TagOf(s.opts) == if d == [] then A.NoTag else A.Tagged(d)
  {
    hide Find, ReadTag, CanTag;
    ReadHeader(r, d);
    FindAppended(r, Opt(NOD, Header(d)));
    if d != [] { HeaderData(d); }
  }

  lemma {:induction false} HeaderData(d: seq<byte>)
    requires |d| == 4
    ensures |Header(d)| == 10 && Header(d) == Header(Header(d)[6..])
  {
    assert Header(d)[6..] == d;
  }

  lemma {:induction false} FlagInFront(r: seq<Option>)
    requires Plain(r) && Find(r, NOD) == |r|
    ensures Plain([Opt(COMPRESSED, [1])] + r) && Find([Opt(COMPRESSED, [1])] + r, NOD) == |r| + 1
  {
    assert ([Opt(COMPRESSED, [1])] + r)[1..] == r;
  }

  /**
   The options of the packet on the wire: a tag at the end, and a flag in front exactly when a compressed packet had
   room for it.
   */
  lemma {:induction false} WireOptions(x: Trip, a: SD.Data, idA: Id) returns (r: seq<Option>)
    requires x.Ok()
    ensures var w, d := Sent(x, a, idA), if Taggable(x.m) then idA else [];
      && Plain(r) && Find(r, NOD) == |r| && w.opts == r + [Opt(NOD, Header(d))]
      && (Get(w.opts, COMPRESSED) != 0 <==> x.Shrinks(a, idA) && HasRoom(Tagged(x.m, idA), COMPRESSED, 3))
      && (Find(w.opts, COMPRESSED) < |w.opts| ==> |w.opts[Find(w.opts, COMPRESSED)].data| <= 3)
  {
    hide Size, Real, Find, Tagged, Recoded, Header, Get, HasRoom, FreeSpace, QuickLz.Packed, Compresses, Segment.Bytes,
      Sent, CanTag;
    SentIs(x, a, idA);
    TaggedShape(x.m, idA);
    TaggedUnflagged(x.m, idA);
    var t, d := Tagged(x.m, idA), if Taggable(x.m) then idA else [];
    r := Real(x.m.opts);
    UntaggedGet(t);
    if x.Shrinks(a, idA) {
      FlagAfterCompress(t, x.packed);
      PlainReal(t.opts);
      if HasRoom(t, COMPRESSED, 3) {
        FlagInFront(r);
        assert [Opt(COMPRESSED, [1])] + t.opts == ([Opt(COMPRESSED, [1])] + r) + [Opt(NOD, Header(d))];
        r := [Opt(COMPRESSED, [1])] + r;
      }
    }
  }

  /**
   What the second box sees: a tag with the id or without, a flag or none, and a payload that is packed and shifted or
   as sent.
   */
  lemma {:induction false} SeenBySecond(x: Trip, a: SD.Data, idA: Id, w: Segment)
    requires OnWire(x, a, idA, w)
    ensures Workable(w, |x.m.data|) && SameSender(View(x.m, []), View(w, x.m.data))
    ensures TagOf(w.opts) == if Taggable(x.m) then A.Tagged(idA) else A.NoTag
    ensures Get(w.opts, COMPRESSED) != 0 <==> x.Shrinks(a, idA) && HasRoom(Tagged(x.m, idA), COMPRESSED, 3)
    ensures HostOptions(w.opts) == HostOptions(x.m.opts) && Rest(w.head) == Rest(x.m.head) && |w.head| == |x.m.head|
    ensures if x.Shrinks(a, idA) then
              w.data == x.packed && w.data != [] && SeqNo(w.head) == Add32(SeqNo(x.m.head), SEQ_SHIFT)
            else w.data == x.m.data && SeqNo(w.head) == SeqNo(x.m.head)
  {
    hide Size, Real, Find, Tagged, Recoded, Header, Get, HasRoom, FreeSpace, QuickLz.Packed, Compresses, Segment.Bytes,
      View, Marked, Forwarded, Rest, HostOptions, SeqNo, Markable, Doff, TotLen, HeadOk, CanTag;
    var v := Sent(x, a, idA);
    HostWorkable(x);
    ForwardedKeeps(x.m, a, idA, {}, [], x.packed);
    ResummedSame(v, w, x.m.data);
    var r := WireOptions(x, a, idA);
    EndsInTag(w, r, if Taggable(x.m) then idA else []);
    SenderSame(x.m, w, [], x.m.data);
    if x.Shrinks(a, idA) { QuickLz.PackedLength(x.packed, x.m.data); }
  }

  // ----- What arrives -----

  /** The packet as the second box passes it on, up to its checksums. */
  function PassedOn(x: Trip, w: Segment, b: SD.Data, idB: Id): Segment
    requires Workable(w, |x.m.data|)
  {
    Forwarded(w, b, idB, x.up, x.m.data, x.again)
  }

  /** The second box restores the packet if it was compressed, and does not compress it itself otherwise. */
  predicate Kept(x: Trip, a: SD.Data, b: SD.Data, idA: Id, idB: Id, w: Segment)
    requires x.m.Valid() && Small(x.m) && CanTag(x.m)
  {
    if x.Arrives(idA) then
      !x.Shrinks(a, idA) || (HasRoom(Tagged(x.m, idA), COMPRESSED, 3) && Restores(w, b, idB))
    else
      !x.Shrinks(a, idA) && !(Compresses(w, b, idB) && |x.again| < |w.data|)
  }

  /**
   What the receiving host gets: its own options and every header field that the boxes need not compute are always as
   sent. Payload and sequence number are as sent if and only if: the second box recognizes the tag, and the packet was
   not compressed or its flag had room and the second box restores it; or it does not recognize the tag, and neither
   box compressed the packet.
   */
  lemma {:induction false} DeliveredIff(x: Trip, a: SD.Data, b: SD.Data, idA: Id, idB: Id, w: Segment)
    requires OnWire(x, a, idA, w)
    ensures Workable(w, |x.m.data|) && Small(x.m)
    ensures var r := PassedOn(x, w, b, idB);
      && r.Valid() && HostOptions(r.opts) == HostOptions(x.m.opts) && Rest(r.head) == Rest(x.m.head)
      && (r.data == x.m.data <==> Kept(x, a, b, idA, idB, w))
      && (SeqNo(r.head) == SeqNo(x.m.head) <==> Kept(x, a, b, idA, idB, w))
  {
    hide Size, Real, Find, Tagged, Recoded, Header, Get, HasRoom, FreeSpace, QuickLz.Packed, Compresses, Segment.Bytes,
      View, Marked, Forwarded, Rest, HostOptions, SeqNo, Markable, Doff, TotLen, HeadOk, Restores, Sent, Workable,
      CanTag;
    SeenBySecond(x, a, idA, w);
    ForwardedKeeps(w, b, idB, x.up, x.m.data, x.again);
    RecognizedIff(x, w, idA);
    TwoShifts(SeqNo(x.m.head));
  }

  lemma {:induction false} RecognizedIff(x: Trip, w: Segment, idA: Id)
    requires TagOf(w.opts) == if Taggable(x.m) then A.Tagged(idA) else A.NoTag
    ensures Recognized(w, x.up) <==> x.Arrives(idA)
  {
    hide Saddr, Daddr, Source, Dest, Flags, TagOf, Get, SeqNo, Taggable;
  }

  lemma {:induction false} TwoShifts(v: uint32)
    ensures Add32(Add32(v, SEQ_SHIFT), -SEQ_SHIFT) == v != Add32(v, SEQ_SHIFT) &&
      Add32(Add32(v, SEQ_SHIFT), SEQ_SHIFT) != v
  {
  }

  // ----- Staying in step -----

  /** Both boxes hold the same numbers for both endpoints. */
  predicate InStep(a: SD.Data, b: SD.Data)
  {
    && a.larger.sequence == b.larger.sequence && a.larger.next == b.larger.next
    && a.smaller.sequence == b.smaller.sequence && a.smaller.next == b.smaller.next
  }

  lemma {:induction false} SegmentInStep(a: SD.Data, b: SD.Data, p: A.Packet, seqno: uint32, n: nat)
    requires InStep(a, b)
    ensures InStep(A.WithSegment(a, p, seqno, n), A.WithSegment(b, p, seqno, n))
  {
  }

  lemma {:induction false} IdsInStep(a: SD.Data, b: SD.Data, p: A.Packet, i: Id, j: Id)
    ensures InStep(A.WithAccelerator(a, p, i), A.WithAccelerator(b, p, j)) <==> InStep(a, b)
    ensures InStep(a, A.WithAccelerator(b, p, j)) <==> InStep(a, b)
  {
  }

  /** A packet that moves nothing: not recorded at all, a keepalive, or one that repeats the last. */
  predicate Repeats(d: SD.Data, m: Segment)
  {
    var p := View(m, []);
    var e := SD.Side(d, p.FromLarger());
    || p.LargerIP() == 0 || SD.Keepalive(e, SeqNo(m.head))
    || (e.sequence == SeqNo(m.head) && e.next == Add32(SeqNo(m.head), if p.syn then 1 else |m.data|))
  }

  lemma {:induction false} RepeatsExactly(a: SD.Data, b: SD.Data, m: Segment, id: Id)
    requires InStep(a, b)
    ensures var p := View(m, []);
      InStep(A.WithSegment(A.WithAccelerator(a, p, id), p, SeqNo(m.head), |m.data|), b) <==> Repeats(a, m)
  {
    hide Saddr, Daddr, Source, Dest, Flags, TagOf, Get, SeqNo;
  }

  /** Recorded with a shifted sequence number, the endpoint never ends up where the other box has it. */
  lemma {:induction false} ShiftedDiverges(a: SD.Data, b: SD.Data, p: A.Packet, seqno: uint32, n: nat, k: nat)
    requires InStep(a, b)
    ensures InStep(A.WithSegment(a, p, seqno, n), A.WithSegment(b, p, Add32(seqno, SEQ_SHIFT), k)) <==>
      p.LargerIP() == 0
  {
  }

  /** What a box records depends on who sent the packet, not on the rest of the view. */
  lemma {:induction false} SenderOnly(d: SD.Data, p: A.Packet, q: A.Packet, i: Id, seqno: uint32, n: nat)
    requires SameSender(p, q)
    ensures A.WithSegment(d, q, seqno, n) == A.WithSegment(d, p, seqno, n) &&
      A.WithAccelerator(d, q, i) == A.WithAccelerator(d, p, i)
    ensures p.LargerIP() == q.LargerIP() && p.FromLarger() == q.FromLarger()
  {
  }

  /** Whether a packet is recognized and restored does not depend on what restoring it would give. */
  lemma {:induction false} PlainUnseen(w: Segment, d: SD.Data, local: Id, up: set<Id>, plain: seq<byte>)
    ensures var p := View(w, plain);
      && (Recognized(w, up) <==> p.Verified(up))
      && (Restores(w, d, local) <==> p.tag.Tagged? && A.MayRestore(A.WithAccelerator(d, p, p.tag.id), p, local))
  {
    hide Saddr, Daddr, Source, Dest, Flags, TagOf, Get, SeqNo;
  }

  /** The first box's session afterwards. */
  function FirstRecords(x: Trip, a: SD.Data, idA: Id): SD.Data { A.Carried(a, View(x.m, []), idA, {}) }

  /** The second box's. */
  function SecondRecords(x: Trip, w: Segment, b: SD.Data, idB: Id): SD.Data
  {
    A.Carried(b, View(w, x.m.data), idB, x.up)
  }

  /**
   One packet leaves two boxes in step if and only if it was not compressed; or it was, the second box recognizes the
   tag and the flag had room, and the second box restores it or it repeats what is recorded; or neither box records it.
   */
  lemma {:induction false} InStepIff(x: Trip, a: SD.Data, b: SD.Data, idA: Id, idB: Id, w: Segment)
    requires OnWire(x, a, idA, w) && InStep(a, b)
    ensures Small(x.m)
    ensures InStep(FirstRecords(x, a, idA), SecondRecords(x, w, b, idB)) <==>
      || !x.Shrinks(a, idA)
      || (if x.Arrives(idA) && HasRoom(Tagged(x.m, idA), COMPRESSED, 3) then Restores(w, b, idB) || Repeats(a, x.m)
          else View(x.m, []).LargerIP() == 0)
  {
    hide Size, Real, Find, Tagged, Recoded, Header, Get, HasRoom, FreeSpace, QuickLz.Packed, Compresses, Segment.Bytes,
      Marked, Forwarded, Rest, HostOptions, SeqNo, Markable, Sent, Workable, InStep, A.WithAccelerator, A.WithSegment,
      Repeats, Saddr, Daddr, Source, Dest, Flags, TagOf, A.MayRestore, CanTag, Taggable, SameSender;
    SeenBySecond(x, a, idA, w);
    HostWorkable(x);
    RecognizedIff(x, w, idA);
    TwoShifts(SeqNo(x.m.head));
    var p, q, v := View(x.m, []), View(w, x.m.data), SeqNo(x.m.head);
    var mine, theirs := idA, if x.Arrives(idA) then idA else idB;
    var a1, b1 := A.WithAccelerator(a, p, mine), A.WithAccelerator(b, p, theirs);
    IdsInStep(a, b, p, mine, theirs);
    SenderOnly(b, p, q, theirs, v, 0);
    SenderOnly(b1, p, q, theirs, v, |x.m.data|);
    SenderOnly(b1, p, q, theirs, SeqNo(w.head), |w.data|);
    SegmentInStep(a1, b1, p, v, |x.m.data|);
    ShiftedDiverges(a1, b1, p, v, |x.m.data|, |w.data|);
    IdsInStep(A.WithSegment(a1, p, v, |x.m.data|), b, p, mine, theirs);
    RepeatsExactly(a, b, x.m, idA);
    PlainUnseen(w, b, idB, x.up, x.m.data);
  }

  // ----- Who accelerates whom -----

  /** A packet changes the accelerator of its sender only, to the id in a verified tag or to the box's own. */
  lemma {:induction false} CarriedIds(d: SD.Data, p: A.Packet, local: Id, up: set<Id>, side: bool)
    ensures SD.Side(A.Carried(d, p, local, up), side).accelerator ==
      if p.LargerIP() != 0 && side == p.FromLarger() then if p.Verified(up) then p.tag.id else local
      else SD.Side(d, side).accelerator
  {
  }

  /**
   Box A stands near one endpoint and box B near the other. Each knows of its own endpoint only that it accelerates it
   itself, and of the far one only what the tags told it: A has B's id for the far endpoint only if B has entered
   itself there, and the other way round. Between equal addresses only one side of the records is ever used.
   */
  predicate Informed(p: Pair, idA: Id, idB: Id, k: ST.Key, near: bool)
  {
    if k.largerIP == k.smallerIP then
      && p.a.smaller.accelerator == A.NO_ID && p.b.smaller.accelerator == A.NO_ID
      && (k.largerIP == 0 ==> p.a.larger.accelerator == A.NO_ID && p.b.larger.accelerator == A.NO_ID)
    else
      && SD.Side(p.a, near).accelerator in {A.NO_ID, idA} && SD.Side(p.b, !near).accelerator in {A.NO_ID, idB}
      && SD.Side(p.a, !near).accelerator in {A.NO_ID, idA, idB} && SD.Side(p.b, near).accelerator in {A.NO_ID, idA, idB}
      && (SD.Side(p.a, !near).accelerator == idB ==> SD.Side(p.b, !near).accelerator == idB)
      && (SD.Side(p.b, near).accelerator == idA ==> SD.Side(p.a, near).accelerator == idA)
  }

  datatype Pair = Pair(a: SD.Data, b: SD.Data)

  /** A packet of the session, and whether it meets box A first: those of the endpoint near A do. */
  datatype Passage = Passage(fromA: bool, x: Trip)
  {
    ghost predicate Ok(k: ST.Key, near: bool)
    {
      x.Ok() && View(x.m, []).Key() == k &&
        (k.largerIP != k.smallerIP ==> (fromA <==> View(x.m, []).FromLarger() == near))
    }
  }

  /** Both boxes handle the packet, each in its turn. */
  function Pass(p: Pair, e: Passage, idA: Id, idB: Id): Pair
    requires e.x.Ok()
  {
    if e.fromA then Pair(FirstRecords(e.x, p.a, idA), SecondRecords(e.x, Sent(e.x, p.a, idA), p.b, idB))
    else Pair(SecondRecords(e.x, Sent(e.x, p.b, idB), p.a, idA), FirstRecords(e.x, p.b, idB))
  }

  /** Seen from the other end. */
  function Turned(p: Pair): Pair { Pair(p.b, p.a) }

  lemma {:induction false} InformedTurned(p: Pair, idA: Id, idB: Id, k: ST.Key, near: bool)
    ensures Informed(Turned(p), idB, idA, k, !near) <==> Informed(p, idA, idB, k, near)
  {
  }

  lemma {:induction false} KeySides(p: A.Packet)
    ensures p.Key().largerIP == p.LargerIP() && p.Key().smallerIP == p.SmallerIP()
    ensures p.FromLarger() || p.saddr == p.SmallerIP()
    ensures p.LargerIP() != p.SmallerIP() ==> (p.FromLarger() <==> p.saddr != p.SmallerIP())
  {
  }

  /** The tag on the wire, seen through the view. */
  lemma {:induction false} WireTag(x: Trip, a: SD.Data, idA: Id)
    requires x.Ok()
    ensures var p, q := View(x.m, []), View(Sent(x, a, idA), x.m.data);
      SameSender(p, q) && (q.Verified(x.up) ==> q.tag == A.Tagged(idA)) && p.tag == A.NoTag &&
        (q.Verified(x.up) <==> x.Arrives(idA))
  {
    hide Size, Real, Find, Tagged, Recoded, Header, Get, HasRoom, FreeSpace, QuickLz.Packed, Compresses, Segment.Bytes,
      Marked, Forwarded, Rest, HostOptions, SeqNo, Markable, Sent, Workable, Saddr, Daddr, Source, Dest, Flags, TagOf,
      CanTag, Taggable;
    HostWorkable(x);
    SeenBySecond(x, a, idA, Sent(x, a, idA));
    PlainUnseen(Sent(x, a, idA), a, idA, x.up, x.m.data);
    RecognizedIff(x, Sent(x, a, idA), idA);
  }

  /** What the boxes know of each other stays true over a packet that meets box A first. */
  lemma {:induction false} InformedFromA(p: Pair, e: Passage, idA: Id, idB: Id, k: ST.Key, near: bool)
    requires e.Ok(k, near) && e.fromA && Informed(p, idA, idB, k, near)
    ensures Informed(Pass(p, e, idA, idB), idA, idB, k, near)
  {
    hide View, Sent, SameSender, A.Carried, Trip.Ok;
    var v, w := View(e.x.m, []), View(Sent(e.x, p.a, idA), e.x.m.data);
    WireTag(e.x, p.a, idA);
    KeySides(v);
    SenderOnly(p.a, v, w, idA, 0, 0);
    forall side: bool
      ensures SD.Side(A.Carried(p.a, v, idA, {}), side).accelerator ==
                if v.LargerIP() != 0 && side == v.FromLarger() then idA else SD.Side(p.a, side).accelerator
      ensures SD.Side(A.Carried(p.b, w, idB, e.x.up), side).accelerator ==
                if v.LargerIP() != 0 && side == v.FromLarger() then if w.Verified(e.x.up) then idA else idB
                else SD.Side(p.b, side).accelerator
    {
      CarriedIds(p.a, v, idA, {}, side);
      CarriedIds(p.b, w, idB, e.x.up, side);
    }
    assert SD.Side(p.a, true) == p.a.larger && SD.Side(p.b, true) == p.b.larger;
    assert SD.Side(p.a, false) == p.a.smaller && SD.Side(p.b, false) == p.b.smaller;
  }

  lemma {:induction false} InformedStep(p: Pair, e: Passage, idA: Id, idB: Id, k: ST.Key, near: bool)
    requires e.Ok(k, near) && Informed(p, idA, idB, k, near)
    ensures Informed(Pass(p, e, idA, idB), idA, idB, k, near)
  {
    hide View, Sent, Trip.Ok, Informed, FirstRecords, SecondRecords;
    if e.fromA {
      InformedFromA(p, e, idA, idB, k, near);
    } else {
      var t := Passage(true, e.x);
      InformedTurned(p, idA, idB, k, near);
      InformedFromA(Turned(p), t, idB, idA, k, !near);
      InformedTurned(Pass(p, e, idA, idB), idA, idB, k, near);
    }
  }

  /** Two new sessions know nothing of each other. */
  lemma {:induction false} InformedStart(idA: Id, idB: Id, k: ST.Key, near: bool)
    ensures Informed(Pair(SD.Zeroed(), SD.Zeroed()), idA, idB, k, near)
  {
  }

  lemma {:induction false} OpenedIds(d: SD.Data, p: A.Packet, local: Id, up: set<Id>, state: nat, side: bool)
    ensures SD.Side(A.Opened(d, p, local, up, state), side).accelerator ==
      if p.LargerIP() != 0 && side == p.FromLarger() && (p.Verified(up) || p.mss > 60) then
        if p.Verified(up) then p.tag.id else local
      else SD.Side(d, side).accelerator
  {
  }

  lemma {:induction false} OpenedInStep(a: SD.Data, b: SD.Data, v: A.Packet, w: A.Packet, idA: Id, idB: Id,
        upA: set<Id>, upB: set<Id>, state: nat)
    requires SameSender(v, w)
    ensures v.seqno == w.seqno && v.payload == w.payload && InStep(a, b) ==>
      InStep(A.Opened(a, v, idA, upA, state), A.Opened(b, w, idB, upB, state))
  {
  }

  /**
   The handshake keeps what the boxes know of each other true, and keeps them in step: box A sees a packet of its host
   that has no tag, and box B the same packet, with A's id in a tag only if A has entered itself, and a maximum segment
   size that A has at most lowered.
   */
  lemma {:induction false} InformedOpened(p: Pair, v: A.Packet, w: A.Packet, upA: set<Id>, upB: set<Id>, state: nat,
        idA: Id, idB: Id, k: ST.Key, near: bool)
    requires Informed(p, idA, idB, k, near) && v.Key() == k && (k.largerIP != k.smallerIP ==> v.FromLarger() == near)
    requires SameSender(v, w) && v.tag == A.NoTag && w.mss <= v.mss
    requires w.Verified(upB) ==> w.tag == A.Tagged(idA) && v.mss > 60
    ensures v.seqno == w.seqno && v.payload == w.payload && InStep(p.a, p.b) ==>
      InStep(A.Opened(p.a, v, idA, upA, state), A.Opened(p.b, w, idB, upB, state))
    ensures Informed(Pair(A.Opened(p.a, v, idA, upA, state), A.Opened(p.b, w, idB, upB, state)), idA, idB, k, near)
  {
    hide A.Opened, SameSender;
    KeySides(v);
    SenderOnly(p.a, v, w, idA, 0, 0);
    OpenedInStep(p.a, p.b, v, w, idA, idB, upA, upB, state);
    var a1, b1 := A.Opened(p.a, v, idA, upA, state), A.Opened(p.b, w, idB, upB, state);
    OpenedIds(p.a, v, idA, upA, state, true);
    OpenedIds(p.a, v, idA, upA, state, false);
    OpenedIds(p.b, w, idB, upB, state, true);
    OpenedIds(p.b, w, idB, upB, state, false);
    assert SD.Side(p.a, true) == p.a.larger && SD.Side(p.b, true) == p.b.larger;
    assert SD.Side(a1, false) == a1.smaller && SD.Side(b1, false) == b1.smaller;
  }

  /**
   What the first box compresses and the second one recognizes, the second one restores; and it never compresses a
   second time.
   */
  lemma {:induction false} FirstThenSecond(p: Pair, e: Passage, idA: Id, idB: Id, k: ST.Key, near: bool, w: Segment)
    requires e.Ok(k, near) && e.fromA && Informed(p, idA, idB, k, near) && OnWire(e.x, p.a, idA, w)
    ensures e.x.Shrinks(p.a, idA) && e.x.Arrives(idA) ==> Restores(w, p.b, idB)
    ensures e.x.Shrinks(p.a, idA) ==> View(e.x.m, []).LargerIP() != 0
    ensures !e.x.Arrives(idA) ==> !Compresses(w, p.b, idB)
  {
    hide View, Sent, SameSender, Trip.Ok, A.WithAccelerator, Taggable;
    var v, q := View(e.x.m, []), View(w, []);
    WireView(e.x, p.a, idA, w);
    KeySides(v);
    KeySides(q);
    SenderOnly(p.a, v, q, idA, 0, 0);
    SenderOnly(p.b, v, q, idB, 0, 0);
    forall d: SD.Data, i: Id, side: bool
      ensures SD.Side(A.WithAccelerator(d, v, i), side).accelerator ==
                if v.LargerIP() != 0 && side == v.FromLarger() then i else SD.Side(d, side).accelerator
      ensures SD.Side(A.WithAccelerator(d, q, i), side).accelerator ==
                if v.LargerIP() != 0 && side == v.FromLarger() then i else SD.Side(d, side).accelerator
    {
      OneId(d, v, i, side);
      OneId(d, q, i, side);
    }
    A.CompressTest(A.WithAccelerator(p.a, v, idA), v, idA);
    A.CompressTest(A.WithAccelerator(p.b, q, idB), q, idB);
    var a1, b1 := A.WithAccelerator(p.a, v, idA), A.WithAccelerator(p.b, q, idA);
    assert SD.Side(b1, true) == b1.larger && SD.Side(b1, false) == b1.smaller;
    if e.x.Shrinks(p.a, idA) {
      assert k.largerIP != k.smallerIP && SD.Side(a1, !near).accelerator == idB;
    }
  }

  lemma {:induction false} OneId(d: SD.Data, p: A.Packet, i: Id, side: bool)
    ensures SD.Side(A.WithAccelerator(d, p, i), side).accelerator ==
              if p.LargerIP() != 0 && side == p.FromLarger() then i else SD.Side(d, side).accelerator
  {
  }

  lemma {:induction false} WireView(x: Trip, a: SD.Data, idA: Id, w: Segment)
    requires OnWire(x, a, idA, w)
    ensures SameSender(View(x.m, []), View(w, []))
    ensures View(w, []).tag == if Taggable(x.m) then A.Tagged(idA) else A.NoTag
    ensures View(w, x.m.data) == View(Sent(x, a, idA), x.m.data)
  {
    hide Size, Real, Find, Tagged, Recoded, Header, Get, HasRoom, FreeSpace, QuickLz.Packed, Compresses, Segment.Bytes,
      Marked, Forwarded, Rest, HostOptions, SeqNo, Markable, Sent, Workable, Saddr, Daddr, Source, Dest, Flags, TagOf,
      CanTag, Taggable;
    SeenBySecond(x, a, idA, w);
    HostWorkable(x);
    ForwardedIsValid(x, a, idA);
    ResummedSame(Sent(x, a, idA), w, x.m.data);
  }

  lemma {:induction false} ForwardedIsValid(x: Trip, a: SD.Data, idA: Id)
    requires x.Ok()
    ensures Sent(x, a, idA).Valid()
  {
    hide Size, Real, Find, Recoded, Marked, View, Get, Markable, Trip.Ok, Forwarded, Rest, HostOptions, SeqNo;
    HostWorkable(x);
    ForwardedKeeps(x.m, a, idA, {}, [], x.packed);
  }

  // ----- Whole runs, in both directions -----

  /** A session: packets of both endpoints in any order. */
  ghost predicate Session(es: seq<Passage>, k: ST.Key, near: bool)
  {
    forall i :: 0 <= i < |es| ==> es[i].Ok(k, near)
  }

  function Run(p: Pair, es: seq<Passage>, idA: Id, idB: Id): Pair
    requires forall i :: 0 <= i < |es| ==> es[i].x.Ok()
  {
    if es == [] then p else Pass(Run(p, es[..|es| - 1], idA, idB), es[|es| - 1], idA, idB)
  }

  /** Whatever the first box compresses gets its id through, is recognized, and has room for the flag behind its tag. */
  predicate Fine(p: Pair, e: Passage, idA: Id, idB: Id)
    requires e.x.Ok()
  {
    hide Size, Real, Find, Tagged, HasRoom, CanTag, QuickLz.Packed;
    HostWorkable(e.x);
    var d, id := if e.fromA then p.a else p.b, if e.fromA then idA else idB;
    e.x.Shrinks(d, id) ==> e.x.Arrives(id) && HasRoom(Tagged(e.x.m, id), COMPRESSED, 3)
  }

  /** What the boxes know of each other stays true over every run. */
  lemma {:induction false} InformedRun(p: Pair, es: seq<Passage>, idA: Id, idB: Id, k: ST.Key, near: bool)
    requires Informed(p, idA, idB, k, near) && Session(es, k, near)
    ensures Informed(Run(p, es, idA, idB), idA, idB, k, near)
  {
    hide Pass, Informed, Trip.Ok;
    if es != [] {
      var front, e := es[..|es| - 1], es[|es| - 1];
      InformedRun(p, front, idA, idB, k, near);
      InformedStep(Run(p, front, idA, idB), e, idA, idB, k, near);
    }
  }

  lemma {:induction false} StepInStep(p: Pair, e: Passage, idA: Id, idB: Id, k: ST.Key, near: bool)
    requires e.Ok(k, near) && Informed(p, idA, idB, k, near) && InStep(p.a, p.b)
    ensures var q := Pass(p, e, idA, idB); InStep(q.a, q.b) <==> Fine(p, e, idA, idB)
  {
    hide View, Trip.Ok, Informed, FirstRecords, SecondRecords, Repeats, Restores, Compresses, HasRoom, Tagged, CanTag,
      Sent, Taggable;
    if e.fromA {
      InStepFromA(p, e, idA, idB, k, near);
    } else {
      InformedTurned(p, idA, idB, k, near);
      InStepFromA(Turned(p), Passage(true, e.x), idB, idA, k, !near);
    }
  }

  lemma {:induction false} InStepFromA(p: Pair, e: Passage, idA: Id, idB: Id, k: ST.Key, near: bool)
    requires e.Ok(k, near) && Informed(p, idA, idB, k, near) && InStep(p.a, p.b) && e.fromA
    ensures var q := Pass(p, e, idA, idB); InStep(q.a, q.b) <==> Fine(p, e, idA, idB)
  {
    hide View, Informed, FirstRecords, SecondRecords, Repeats, Restores, Compresses, HasRoom, Tagged, CanTag, Sent,
      Taggable, InStep, QuickLz.Packed, Find;
    var w := Sent(e.x, p.a, idA);
    FirstThenSecond(p, e, idA, idB, k, near, w);
    InStepIff(e.x, p.a, p.b, idA, idB, w);
  }

  /** The boxes are in step after the first i packets. */
  predicate InStepAfter(p: Pair, es: seq<Passage>, idA: Id, idB: Id, i: nat)
    requires i <= |es| && forall j :: 0 <= j < |es| ==> es[j].x.Ok()
  {
    hide Trip.Ok;
    var q := Run(p, es[..i], idA, idB);
    InStep(q.a, q.b)
  }

  /** The next packet after the first i is fine in the state they left. */
  predicate FineAfter(p: Pair, es: seq<Passage>, idA: Id, idB: Id, i: nat)
    requires i < |es| && forall j :: 0 <= j < |es| ==> es[j].x.Ok()
  {
    hide Trip.Ok, Fine;
    Fine(Run(p, es[..i], idA, idB), es[i], idA, idB)
  }

  lemma {:induction false} NextInStep(p: Pair, es: seq<Passage>, idA: Id, idB: Id, k: ST.Key, near: bool, i: nat)
    requires Informed(p, idA, idB, k, near) && Session(es, k, near) && i < |es| && InStepAfter(p, es, idA, idB, i)
    ensures InStepAfter(p, es, idA, idB, i + 1) <==> FineAfter(p, es, idA, idB, i)
  {
    hide Pass, Informed, Fine, Trip.Ok, InStep;
    var front := es[..i];
    assert es[..i + 1][..|es[..i + 1]| - 1] == front;
    InformedRun(p, front, idA, idB, k, near);
    StepInStep(Run(p, front, idA, idB), es[i], idA, idB, k, near);
  }

  lemma {:induction false} FineSoFar(p: Pair, es: seq<Passage>, idA: Id, idB: Id, k: ST.Key, near: bool, i: nat)
    requires InStep(p.a, p.b) && Informed(p, idA, idB, k, near) && Session(es, k, near) && i <= |es|
    requires forall j :: 0 <= j < |es| ==> FineAfter(p, es, idA, idB, j)
    ensures InStepAfter(p, es, idA, idB, i)
  {
    hide Informed, Trip.Ok, InStep, FineAfter;
    if i > 0 {
      FineSoFar(p, es, idA, idB, k, near, i - 1);
      hide InStepAfter;
      NextInStep(p, es, idA, idB, k, near, i - 1);
    }
  }

  /**
   Over any session in both directions, starting from records in step and boxes that know of each other at most what
   tags told them, the boxes are in step after every packet if and only if every packet is fine in its turn.
   */
  lemma {:induction false} Lockstep(p: Pair, es: seq<Passage>, idA: Id, idB: Id, k: ST.Key, near: bool)
    requires InStep(p.a, p.b) && Informed(p, idA, idB, k, near) && Session(es, k, near)
    ensures (forall i :: 0 <= i <= |es| ==> InStepAfter(p, es, idA, idB, i)) <==>
            (forall i :: 0 <= i < |es| ==> FineAfter(p, es, idA, idB, i))
  {
    hide Informed, Trip.Ok, InStep, InStepAfter, FineAfter;
    if forall i :: 0 <= i <= |es| ==> InStepAfter(p, es, idA, idB, i) {
      forall i | 0 <= i < |es| ensures FineAfter(p, es, idA, idB, i) {
        NextInStep(p, es, idA, idB, k, near, i);
      }
    }
    if forall i :: 0 <= i < |es| ==> FineAfter(p, es, idA, idB, i) {
      forall i | 0 <= i <= |es| ensures InStepAfter(p, es, idA, idB, i) {
        FineSoFar(p, es, idA, idB, k, near, i);
      }
    }
  }

  /**
   Over any such session every packet keeps the host's options and headers, and reaches its host with the payload and
   sequence number it was sent with if and only if it is fine in its turn.
   */
  lemma {:induction false} PacketArrivesIff(p: Pair, es: seq<Passage>, idA: Id, idB: Id, k: ST.Key, near: bool, i: nat,
        w: Segment)
    requires Informed(p, idA, idB, k, near) && Session(es, k, near) && i < |es|
    requires var q := Run(p, es[..i], idA, idB);
      OnWire(es[i].x, if es[i].fromA then q.a else q.b, if es[i].fromA then idA else idB, w)
    ensures var q, x := Run(p, es[..i], idA, idB), es[i].x;
      && Workable(w, |x.m.data|)
      && var r := PassedOn(x, w, if es[i].fromA then q.b else q.a, if es[i].fromA then idB else idA);
      && HostOptions(r.opts) == HostOptions(x.m.opts) && Rest(r.head) == Rest(x.m.head)
      && (r.data == x.m.data <==> FineAfter(p, es, idA, idB, i))
      && (SeqNo(r.head) == SeqNo(x.m.head) <==> FineAfter(p, es, idA, idB, i))
  {
    hide Pass, Trip.Ok, InStep, Small, Informed, HostOptions, Rest, SeqNo, PassedOn, Workable, View, Sent, Restores,
      Compresses, HasRoom, Tagged, CanTag, Taggable, Resummed;
    InformedRun(p, es[..i], idA, idB, k, near);
    var q, e := Run(p, es[..i], idA, idB), es[i];
    assert es[i].Ok(k, near);
    if e.fromA {
      FirstThenSecond(q, e, idA, idB, k, near, w);
      DeliveredIff(e.x, q.a, q.b, idA, idB, w);
    } else {
      InformedTurned(q, idA, idB, k, near);
      FirstThenSecond(Turned(q), Passage(true, e.x), idB, idA, k, !near, w);
      DeliveredIff(e.x, q.b, q.a, idB, idA, w);
    }
  }

  // ----- Packets over which it goes wrong -----

  /** A packet whose 28 bytes of options leave room for the tag but not for the flag after it. */
  function Crowded(data: seq<byte>): (m: Segment)
    requires |data| <= 1400
  {
    Segment(SampleHead(12, 68 + |data|), [Opt(8, Zeroes(26))], 0, data)
  }

  /** A packet whose option area has twelve free bytes, in which the tag loses its id. */
  function Roomy(data: seq<byte>): (m: Segment)
    requires |data| <= 1400
  {
    Segment(SampleHead(8, 52 + |data|), [], 12, data)
  }

  lemma {:induction false} SampleAddresses(doff: nat, total: nat)
    requires 5 <= doff <= 15 && total < 0x1_0000
    ensures Saddr(SampleHead(doff, total)) != 0
  {
    hide Doff, TotLen;
  }

  lemma {:induction false} CrowdedSize(data: seq<byte>)
    requires |data| <= 1400
    ensures var m := Crowded(data);
      && m.Valid() && Small(m) && FreeSpace(m) == 0 && Find(m.opts, NOD) == 1 == Find(m.opts, COMPRESSED)
      && Doff(m.head) == 12 && |m.opts| == 1 && Saddr(m.head) != 0 && m.data == data && |m.head| == 40
  {
    var o := Opt(8, Zeroes(26));
    SampleAddresses(12, 68 + |data|);
    assert [o][1..] == [];
    assert Size([o]) == 28 && Real([o]) == [o];
  }

  lemma {:induction false} RoomySize(data: seq<byte>)
    requires |data| <= 1400
    ensures var m := Roomy(data);
      && m.Valid() && Small(m) && FreeSpace(m) == 12 && Find(m.opts, NOD) == 0 == Find(m.opts, COMPRESSED)
      && Doff(m.head) == 8 && |m.opts| == 0 && Saddr(m.head) != 0 && m.data == data && |m.head| == 40
  {
    SampleAddresses(8, 52 + |data|);
  }

  /** What a tag with its id leaves of the header. */
  lemma {:induction false} TaggedSize(m: Segment, id: Id)
    requires m.Valid() && Small(m) && CanTag(m) && Taggable(m)
    ensures var t, w := Tagged(m, id), WordsNeeded(FreeSpace(m), 8);
      Doff(t.head) == Doff(m.head) + w + 1 && FreeSpace(t) == FreeSpace(m) + 4 * w - 8
  {
    hide Size, Real, Fitted, Named, Header, WordsNeeded;
    NamedSize(m);
    ThirdFits(m);
    FreeAfter(Fitted(Named(m), ID_LENGTH), Real(m.opts), Opt(NOD, Header(id)));
  }

  lemma {:induction false} CrowdedNoRoom(data: seq<byte>, id: Id)
    requires |data| <= 1400
    ensures var m := Crowded(data); m.Valid() && Small(m) && CanTag(m) && !HasRoom(Tagged(m, id), COMPRESSED, 3)
  {
    hide Size, Real, Find, Tagged, Crowded, FindExact, FreeSpace, Doff;
    var m := Crowded(data);
    CrowdedSize(data);
    TaggedSize(m, id);
    TaggedUnflagged(m, id);
    AbsentExact(Tagged(m, id).opts, COMPRESSED, 3);
  }

  /** The packet falls out of step and arrives packed, whatever the second box knows. */
  ghost predicate Fails(x: Trip, a: SD.Data, b: SD.Data, idA: Id, idB: Id, w: Segment)
    requires OnWire(x, a, idA, w) && Workable(w, |x.m.data|)
  {
    && !InStep(FirstRecords(x, a, idA), SecondRecords(x, w, b, idB))
    && PassedOn(x, w, b, idB).data != x.m.data && SeqNo(PassedOn(x, w, b, idB).head) != SeqNo(x.m.head)
  }

  lemma {:induction false} FailsIfUnflagged(x: Trip, a: SD.Data, b: SD.Data, idA: Id, idB: Id, w: Segment)
    requires OnWire(x, a, idA, w) && InStep(a, b) && x.Shrinks(a, idA) && Small(x.m) && Saddr(x.m.head) != 0
    requires !x.Arrives(idA) || !HasRoom(Tagged(x.m, idA), COMPRESSED, 3)
    ensures Workable(w, |x.m.data|) && Fails(x, a, b, idA, idB, w)
  {
    hide Size, Real, Find, Tagged, HasRoom, FreeSpace, QuickLz.Packed, Compresses, Forwarded, SeqNo, Sent, Workable,
      InStep, Repeats, Restores, Saddr, Daddr, Source, Dest, Flags, TagOf, Get, CanTag, Taggable, FirstRecords,
      SecondRecords, PassedOn, Resummed;
    DeliveredIff(x, a, b, idA, idB, w);
    InStepIff(x, a, b, idA, idB, w);
  }

  /** Whenever the payload of the crowded packet is compressed, the flag does not fit. */
  lemma {:induction false} CrowdedFails(data: seq<byte>, packed: seq<byte>, again: seq<byte>, up: set<Id>, a: SD.Data,
        b: SD.Data, idA: Id, idB: Id, w: Segment)
    requires |packed| < |data| <= 1400 && QuickLz.Packed(packed, data) && InStep(a, b) &&
      Compresses(Crowded(data), a, idA)
    requires OnWire(Trip(Crowded(data), packed, again, up), a, idA, w)
    ensures Workable(w, |data|) && Fails(Trip(Crowded(data), packed, again, up), a, b, idA, idB, w)
  {
    hide Size, Real, Find, Tagged, HasRoom, FreeSpace, QuickLz.Packed, Compresses, Crowded, OnWire, Fails, InStep,
      Workable, Saddr, Doff;
    CrowdedSize(data);
    CrowdedNoRoom(data, idA);
    FailsIfUnflagged(Trip(Crowded(data), packed, again, up), a, b, idA, idB, w);
  }

  /**
   Whenever the payload of the roomy packet is compressed, the second box takes it for untagged and does not restore it.
   */
  lemma {:induction false} RoomyFails(data: seq<byte>, packed: seq<byte>, again: seq<byte>, up: set<Id>, a: SD.Data,
        b: SD.Data, idA: Id, idB: Id, w: Segment)
    requires |packed| < |data| <= 1400 && QuickLz.Packed(packed, data) && InStep(a, b) &&
      Compresses(Roomy(data), a, idA)
    requires OnWire(Trip(Roomy(data), packed, again, up), a, idA, w)
    ensures Workable(w, |data|) && Fails(Trip(Roomy(data), packed, again, up), a, b, idA, idB, w)
  {
    hide Size, Real, Find, Tagged, HasRoom, FreeSpace, QuickLz.Packed, Compresses, Roomy, OnWire, Fails, InStep,
      Workable, Saddr, Doff;
    RoomySize(data);
    FailsIfUnflagged(Trip(Roomy(data), packed, again, up), a, b, idA, idB, w);
  }

  /** Both packets are among those that the hosts may send and the first box may compress. */
  lemma {:induction false} SamplesOk(data: seq<byte>, packed: seq<byte>, again: seq<byte>, up: set<Id>)
    requires |packed| < |data| <= 1400 && QuickLz.Packed(packed, data)
    ensures Trip(Crowded(data), packed, again, up).Ok() && Trip(Roomy(data), packed, again, up).Ok()
  {
    hide Size, Real, Find, Crowded, Roomy, FreeSpace, QuickLz.Packed, Doff;
    CrowdedSize(data);
    RoomySize(data);
  }
}
