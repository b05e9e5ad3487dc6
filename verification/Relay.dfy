/** What a box does to an ordinary packet of a session: which bytes change, and what it makes of the session. */
module Relay {
  import opened Bytes
  import opened TcpPacket
  import opened TcpOptions
  import opened Compression
  import opened Nod
  import opened SequenceTracking
  import A = Acceleration
  import SD = SessionData

  // ----- What stays in the headers -----

  /** The header with both lengths, the sequence number and both checksums blanked out. */
  ghost function Rest(h: seq<byte>): seq<byte>
  {
    seq(|h|, i requires 0 <= i < |h| => Blanked(h, i))
  }

  function Blanked(h: seq<byte>, i: nat): byte
    requires i < |h|
  {
    if Computed(TcpAt(h), i) then 0 else if i == TcpAt(h) + 12 then h[i] % 16 else h[i]
  }

  /** Total length, IP checksum, sequence number or TCP checksum, with the TCP header at t. */
  predicate Computed(t: nat, i: nat)
  {
    i == 2 || i == 3 || i == 10 || i == 11 || t + 4 <= i < t + 8 || i == t + 16 || i == t + 17
  }

  lemma {:induction false} RestSame(h: seq<byte>, r: seq<byte>)
    requires HeadOk(h) && |r| == |h| && r[TcpAt(h) + 12] % 16 == h[TcpAt(h) + 12] % 16
    requires forall i :: 0 <= i < |h| && !Computed(TcpAt(h), i) && i != TcpAt(h) + 12 ==> r[i] == h[i]
    ensures Rest(r) == Rest(h)
  {
    hide Doff;
    assert TcpAt(r) == TcpAt(h);
    assert forall i :: 0 <= i < |h| ==> Blanked(r, i) == Blanked(h, i);
  }

  lemma {:induction false} ResizedRest(h: seq<byte>, area: nat, data: nat)
    requires HeadOk(h) && area % 4 == 0 && area <= 40 && |h| + area + data < 0x1_0000
    ensures Rest(Resized(h, area, data)) == Rest(h)
  {
    hide Rest, Doff, TotLen, SeqNo;
    RestSame(h, Resized(h, area, data));
  }

  lemma {:induction false} WithSeqRest(h: seq<byte>, v: uint32)
    requires HeadOk(h)
    ensures Rest(WithSeq(h, v)) == Rest(h)
  {
    hide Rest, Doff, TotLen, SeqNo;
    RestSame(h, WithSeq(h, v));
  }

  lemma {:induction false} RecodedRest(s: Segment, d: seq<byte>, flag: nat, shift: int)
    requires s.Valid() && |s.head| + s.AreaSize() + |d| + 12 < 0x1_0000
    ensures Rest(Recoded(s, d, flag, shift).head) == Rest(s.head)
  {
    hide Rest, Doff, TotLen, SeqNo, HeadOk, Resized, WithSeq, Size, Growth, SetInList, HasRoom;
    var s1 := WithData(s, d);
    ResizedRest(s.head, s.AreaSize(), |d|);
    SetValid(s1, COMPRESSED, 3, flag);
    GrowthFits(s1, COMPRESSED, 3);
    if Growth(s1, COMPRESSED, 3) > 0 { ResizedRest(s1.head, s1.AreaSize() + Growth(s1, COMPRESSED, 3), |d|); }
    WithSeqRest(Set(s1, COMPRESSED, 3, flag).head, Add32(SeqNo(s.head), shift));
  }

  lemma {:induction false} FittedRest(s: Segment, len: nat)
    requires s.Valid() && Small(s)
    ensures Rest(Fitted(s, len).head) == Rest(s.head)
  {
    hide Rest, Doff, TotLen, SeqNo, HeadOk, Resized, Size, Real, Needed;
    StrippedValid(s);
    if Needed(s, len) > 0 { ResizedRest(s.head, s.AreaSize() + 4 * Needed(s, len), |s.data|); }
  }

  lemma {:induction false} TaggedRest(s: Segment, id: Id)
    requires s.Valid() && Small(s) && CanTag(s)
    ensures Rest(Tagged(s, id).head) == Rest(s.head)
  {
    hide Rest, Doff, TotLen, SeqNo, HeadOk, Size, Real, Needed, Fitted, Header, Base;
    BaseFits(s);
    ThirdFits(s);
    BaseRest(s);
    FittedRest(Named(s), ID_LENGTH);
  }

  lemma {:induction false} BaseRest(s: Segment)
    requires s.Valid() && Small(s)
    ensures Rest(Base(s).head) == Rest(s.head)
  {
    hide Rest, Doff, TotLen, SeqNo, HeadOk, Resized, Size, Real, Fitted, WordsNeeded;
    var t := Fitted(s, 2);
    FittedRest(s, 2);
    var w := if t.pad < 2 then 0 else WordsNeeded(t.pad - 2, 6);
    if w > 0 && Doff(t.head) + w <= 15 { ResizedRest(t.head, t.AreaSize() + 4 * w, |t.data|); }
  }

  lemma {:induction false} MarkedRest(s: Segment, id: Id)
    requires s.Valid() && Small(s) && Markable(s)
    ensures Rest(Marked(s, id).head) == Rest(s.head)
  {
    hide Rest, Size, Real, Fitted, Header, Find, Tagged, CanTag;
    if Find(s.opts, NOD) == |s.opts| {
      TaggedRest(s, id);
    } else if BareLast(s) {
      RefillFits(s);
      FittedRest(s, ID_LENGTH);
    }
  }

  // ----- The packet as the handlers see it -----

  function Source(h: seq<byte>): uint16 { if Readable(h) then h[TcpAt(h)] + 0x100 * h[TcpAt(h) + 1] as int else 0 }

  function Dest(h: seq<byte>): uint16 { if Readable(h) then h[TcpAt(h) + 2] + 0x100 * h[TcpAt(h) + 3] as int else 0 }

  function Flags(h: seq<byte>): byte { if Readable(h) then h[TcpAt(h) + 13] else 0 }

  /** The bytes of an IPv4 header (section 3.1 of RFC 791) up to its options. */
  function IpHeader(words: nat, service: byte, total: seq<byte>, middle: seq<byte>, sum: seq<byte>, from: Id, to: Id)
    : (h: seq<byte>)
    requires 5 <= words < 16 && |total| == 2 && |middle| == 5 && |sum| == 2
    ensures |h| == 20
  {
    [0x40 + words, service] + total + middle + [IPPROTO_TCP] + sum + from + to
  }

  /** The bytes of a TCP header (section 3.1 of RFC 793) up to its options. */
  function TcpHeader(ports: seq<byte>, number: seq<byte>, answered: seq<byte>, words: nat, flags: byte, rest: seq<byte>)
    : (h: seq<byte>)
    requires |ports| == 4 && |number| == 4 && |answered| == 4 && 5 <= words < 16 && |rest| == 6
    ensures |h| == 20
  {
    ports + number + answered + [16 * words, flags] + rest
  }

  lemma {:induction false} IpFields(h: seq<byte>, words: nat, service: byte, total: seq<byte>, middle: seq<byte>,
        sum: seq<byte>, from: Id, to: Id)
    requires 5 <= words < 16 && |total| == 2 && |middle| == 5 && |sum| == 2 && |h| == 4 * words + 20
    requires h[..20] == IpHeader(words, service, total, middle, sum, from, to)
    ensures Readable(h) && TcpAt(h) == 4 * words && h[9] == IPPROTO_TCP && TotLen(h) == Be16(total, 0)
    ensures Saddr(h) == Le32(from, 0) && Daddr(h) == Le32(to, 0)
  {
    var ip := IpHeader(words, service, total, middle, sum, from, to);
    assert forall i :: 0 <= i < 20 ==> h[i] == ip[i];
    assert ip[0] == 0x40 + words && ip[2] == total[0] && ip[3] == total[1] && ip[9] == IPPROTO_TCP;
    assert forall i :: 0 <= i < 4 ==> ip[12 + i] == from[i] && ip[16 + i] == to[i];
    hide IpHeader;
    assert h[12] == from[0] && h[13] == from[1] && h[14] == from[2] && h[15] == from[3];
    assert h[16] == to[0] && h[17] == to[1] && h[18] == to[2] && h[19] == to[3];
  }

  lemma {:induction false} TcpFields(h: seq<byte>, ports: seq<byte>, number: seq<byte>, answered: seq<byte>,
        offset: nat, flags: byte, rest: seq<byte>)
    requires |ports| == 4 && |number| == 4 && |answered| == 4 && 5 <= offset < 16 && |rest| == 6
    requires Readable(h) && |h| == TcpAt(h) + 20
    requires h[TcpAt(h)..] == TcpHeader(ports, number, answered, offset, flags, rest)
    ensures Doff(h) == offset && SeqNo(h) == Be32(number, 0) && Flags(h) == flags && (Syn(h) <==> flags / 2 % 2 == 1)
    ensures Source(h) == ports[0] + 0x100 * ports[1] as int && Dest(h) == ports[2] + 0x100 * ports[3] as int
  {
    var t, tcp := TcpAt(h), TcpHeader(ports, number, answered, offset, flags, rest);
    assert forall i :: 0 <= i < 20 ==> h[t + i] == h[t..][i] == tcp[i];
    assert forall i :: 0 <= i < 4 ==> tcp[i] == ports[i] && tcp[4 + i] == number[i];
    assert tcp[12] == 16 * offset && tcp[13] == flags;
    hide TcpHeader, TcpAt;
    assert h[t] == ports[0] && h[t + 1] == ports[1] && h[t + 2] == ports[2] && h[t + 3] == ports[3];
    assert h[t + 4] == number[0] && h[t + 5] == number[1] && h[t + 6] == number[2] && h[t + 7] == number[3];
  }

  /** Every field is read from where the two standards put it, however long the IP options are. */
  lemma {:induction false} HeaderFields(h: seq<byte>, words: nat, service: byte, total: seq<byte>, middle: seq<byte>,
        sum: seq<byte>, from: Id, to: Id, ports: seq<byte>, number: seq<byte>, answered: seq<byte>, offset: nat,
        flags: byte, rest: seq<byte>)
    requires 5 <= words < 16 && |total| == 2 && |middle| == 5 && |sum| == 2 && |h| == 4 * words + 20
    requires |ports| == 4 && |number| == 4 && |answered| == 4 && 5 <= offset < 16 && |rest| == 6
    requires h[..20] == IpHeader(words, service, total, middle, sum, from, to)
    requires h[4 * words..] == TcpHeader(ports, number, answered, offset, flags, rest)
    ensures HeadOk(h) && TcpAt(h) == 4 * words && TotLen(h) == Be16(total, 0) && Doff(h) == offset
    ensures Saddr(h) == Le32(from, 0) && Daddr(h) == Le32(to, 0) && SeqNo(h) == Be32(number, 0)
    ensures Source(h) == ports[0] + 0x100 * ports[1] as int && Dest(h) == ports[2] + 0x100 * ports[3] as int
    ensures Flags(h) == flags && (Syn(h) <==> flags / 2 % 2 == 1)
  {
    hide IpHeader, TcpHeader, Doff, SeqNo, TotLen, Saddr, Daddr, Source, Dest, Flags, Syn;
    IpFields(h, words, service, total, middle, sum, from, to);
    TcpFields(h, ports, number, answered, offset, flags, rest);
  }

  /** The id a box reads from the tag, if there is one of the right size. */
  function TagOf(os: seq<Option>): A.Tag
  {
    match ReadTag(os)
    case Found(d) => if |d| == 4 then A.Tagged(d) else A.NoTag
    case _ => A.NoTag
  }

  /** A packet in a buffer as the worker's decisions see it; plain is what restoring it would give. */
  function View(w: Segment, plain: seq<byte>): A.Packet
  {
    var h, f := w.head, Flags(w.head);
    A.Packet(true, 1, Saddr(h), Source(h), Daddr(h), Dest(h),
             f / 2 % 2 == 1, f / 16 % 2 == 1, f % 2 == 1, f / 4 % 2 == 1, SeqNo(h), |w.data|,
             TagOf(w.opts), Get(w.opts, 2), Get(w.opts, COMPRESSED) != 0, Add32(SeqNo(h), -SEQ_SHIFT), |plain|)
  }

  /** Addresses, ports and flags are among the bytes that stay. */
  lemma {:induction false} RestFields(h: seq<byte>, r: seq<byte>)
    requires HeadOk(h) && HeadOk(r) && |r| == |h| && Rest(r) == Rest(h)
    ensures Saddr(r) == Saddr(h) && Daddr(r) == Daddr(h) && Source(r) == Source(h) && Dest(r) == Dest(h) &&
      Flags(r) == Flags(h)
  {
    hide Doff;
    assert TcpAt(r) == TcpAt(h) by { RestAt(h, 0); RestAt(r, 0); }
    forall i | 12 <= i < TcpAt(h) + 4 ensures r[i] == h[i] {
      RestAt(h, i);
      RestAt(r, i);
    }
    RestAt(h, TcpAt(h) + 13);
    RestAt(r, TcpAt(h) + 13);
  }

  lemma {:induction false} RestAt(h: seq<byte>, i: nat)
    requires i < |h|
    ensures |Rest(h)| == |h| && Rest(h)[i] == Blanked(h, i)
  {
  }

  /** The parts of the view that tagging and compressing leave alone. */
  predicate SameSender(p: A.Packet, q: A.Packet)
  {
    && p.saddr == q.saddr && p.source == q.source && p.daddr == q.daddr && p.dest == q.dest
    && p.syn == q.syn && p.ack == q.ack && p.fin == q.fin && p.rst == q.rst
  }

  lemma {:induction false} SenderSame(s: Segment, r: Segment, x: seq<byte>, y: seq<byte>)
    requires s.Valid() && r.Valid() && |r.head| == |s.head| && Rest(r.head) == Rest(s.head)
    ensures SameSender(View(s, x), View(r, y))
  {
    hide Rest, Saddr, Daddr, Source, Dest, Flags, TagOf, Get, SeqNo;
    RestFields(s.head, r.head);
  }

  /** What recording does is what the handlers specify. */
  lemma {:induction false} RecordView(d: SD.Data, s: Segment, x: seq<byte>)
    ensures Record(d, s) == A.WithSegment(d, View(s, x), SeqNo(s.head), |s.data|)
  {
    hide Saddr, Daddr, TagOf, Get, SeqNo;
  }

  // ----- The flag -----

  /** Tagging adds no compression flag. */
  lemma {:induction false} TaggedUnflagged(s: Segment, id: Id)
    requires s.Valid() && Small(s) && CanTag(s) && Untagged(s)
    ensures Untagged(Tagged(s, id))
  {
    hide Size, Real, Fitted, Named, Header, Find;
    NamedSize(s);
    ThirdFits(s);
    AbsentInReal(s.opts, COMPRESSED);
    AbsentAppended(Real(s.opts), Opt(NOD, Header(id)));
    AbsentAppended(Real(s.opts), Opt(NOD, Header([])));
  }

  lemma {:induction false} AbsentAppended(r: seq<Option>, o: Option)
    requires Find(r, COMPRESSED) == |r| && o.Opt? && o.kind != COMPRESSED
    ensures Find(r + [o], COMPRESSED) == |r| + 1
  {
    hide Find;
    forall i | 0 <= i < |r| ensures (r + [o])[i] == r[i] { }
  }

  // ----- One box -----

  /**
   A packet that the code handles without leaving its option area, with room in the length field for a payload of n
   bytes.
   */
  predicate Workable(w: Segment, n: nat)
  {
    && w.Valid() && |w.head| + 60 + |w.data| < 0x1_0000 && |w.head| + 60 + n < 0x1_0000 && Markable(w)
    && (Find(w.opts, COMPRESSED) < |w.opts| ==> |w.opts[Find(w.opts, COMPRESSED)].data| <= 3)
  }

  /** The box takes the tag's id for that of a neighbour that is up. */
  predicate Recognized(w: Segment, up: set<Id>) { View(w, []).Verified(up) }

  /** The box would restore a flagged packet of this sender. */
  predicate Restores(w: Segment, d: SD.Data, local: Id)
  {
    var p := View(w, []);
    p.tag.Tagged? && A.MayRestore(A.WithAccelerator(d, p, p.tag.id), p, local)
  }

  /** The box compresses packets of this sender. */
  predicate Compresses(w: Segment, d: SD.Data, local: Id)
  {
    var p := View(w, []);
    A.MayCompress(A.WithAccelerator(d, p, local), p, local)
  }

  /**
   The packet a box makes of an ordinary one, up to its checksums. One with the id of a neighbour that is up is
   restored if it is flagged and goes to an endpoint this box accelerates. Any other is tagged, and compressed
   if the session is accelerated and the payload shrinks.
   */
  function Forwarded(w: Segment, d: SD.Data, local: Id, up: set<Id>, plain: seq<byte>, packed: seq<byte>): (r: Segment)
    requires Workable(w, |plain|)
  {
    hide Size, Real, Recoded, Marked, View, Markable, Find, Get;
    AreaLimit(w);
    if Recognized(w, up) then
      if Get(w.opts, COMPRESSED) != 0 && Restores(w, d, local) && w.data != [] then
        Recoded(w, plain, 0, -SEQ_SHIFT)
      else w
    else
      var t := Marked(w, local);
      AreaLimit(t);
      if Compresses(w, d, local) && |packed| < |w.data| then Recoded(t, packed, 1, SEQ_SHIFT) else t
  }

  lemma {:induction false} AreaLimit(s: Segment)
    ensures s.Valid() ==> s.AreaSize() <= 40
  {
    hide Size;
  }

  /** The options that neither box adds. */
  function HostOptions(os: seq<Option>): seq<Option> { Others(Others(os, NOD), COMPRESSED) }

  lemma {:induction false} OthersCommute(os: seq<Option>)
    ensures HostOptions(os) == Others(Others(os, COMPRESSED), NOD)
  {
    if os != [] {
      OthersCommute(os[1..]);
      if os[0].Opt? && os[0].kind != NOD { assert Others(os, NOD)[1..] == Others(os[1..], NOD); }
      if os[0].Opt? && os[0].kind != COMPRESSED { assert Others(os, COMPRESSED)[1..] == Others(os[1..], COMPRESSED); }
    }
  }

  /**
   Whatever a box does, the host's options and the rest of the headers stay; its payload and sequence number are one of
   three.
   */
  lemma {:induction false} ForwardedKeeps(w: Segment, d: SD.Data, local: Id, up: set<Id>, plain: seq<byte>,
        packed: seq<byte>)
    requires Workable(w, |plain|)
    ensures var r := Forwarded(w, d, local, up, plain, packed);
      && r.Valid() && |r.head| == |w.head| && HostOptions(r.opts) == HostOptions(w.opts) && Rest(r.head) == Rest(w.head)
      && var p := View(w, []);
      if Recognized(w, up) then
        if Get(w.opts, COMPRESSED) != 0 && Restores(w, d, local) && w.data != [] then
          r.data == plain && SeqNo(r.head) == Add32(SeqNo(w.head), -SEQ_SHIFT)
        else r == w
      else if Compresses(w, d, local) && |packed| < |w.data| then
        r.data == packed && SeqNo(r.head) == Add32(SeqNo(w.head), SEQ_SHIFT)
      else r.data == w.data && SeqNo(r.head) == SeqNo(w.head)
  {
    hide Size, Real, Recoded, Marked, View, Markable, Find, Get, Rest, SeqNo, Others, Restores, Compresses;
    AreaLimit(w);
    if Recognized(w, up) {
      RecodedFields(w, plain, 0, -SEQ_SHIFT);
      RecodedRest(w, plain, 0, -SEQ_SHIFT);
      RecodedSize(w, plain, 0, -SEQ_SHIFT);
    } else {
      var t := Marked(w, local);
      MarkedRest(w, local);
      MarkedOthers(w, local);
      AreaLimit(t);
      if Compresses(w, d, local) && |packed| < |w.data| {
        RecodedFields(t, packed, 1, SEQ_SHIFT);
        RecodedRest(t, packed, 1, SEQ_SHIFT);
        RecodedSize(t, packed, 1, SEQ_SHIFT);
      }
      OthersCommute(t.opts);
    }
    OthersCommute(w.opts);
    OthersCommute(Forwarded(w, d, local, up, plain, packed).opts);
  }

  // ----- Checksums -----

  /** The same packet but for its checksums. */
  ghost predicate Resummed(s: Segment, r: Segment)
  {
    && r.opts == s.opts && r.pad == s.pad && r.data == s.data && |r.head| == |s.head|
    && forall i :: 0 <= i < |s.head| && !(i == 10 || i == 11 || i == TcpAt(s.head) + 16 || i == TcpAt(s.head) + 17) ==>
      r.head[i] == s.head[i]
  }

  /** Nothing a box looks at depends on the checksums. */
  lemma {:induction false} ResummedSame(s: Segment, r: Segment, plain: seq<byte>)
    requires s.Valid() && Resummed(s, r)
    ensures r.Valid() && Rest(r.head) == Rest(s.head) && SeqNo(r.head) == SeqNo(s.head) && Doff(r.head) == Doff(s.head)
    ensures View(r, plain) == View(s, plain) && FreeSpace(r) == FreeSpace(s)
  {
    hide Size, Rest, TagOf, Get, Real;
    RestSame(s.head, r.head);
    HeadSummed(s, r);
    hide Saddr, Daddr, Source, Dest, Flags, SeqNo;
    SenderSame(s, r, plain, plain);
  }

  lemma {:induction false} HeadSummed(s: Segment, r: Segment)
    requires s.Valid() && Resummed(s, r)
    ensures r.Valid() && SeqNo(r.head) == SeqNo(s.head) && Doff(r.head) == Doff(s.head)
  {
    hide Size;
  }
}
