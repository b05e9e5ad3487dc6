/** The Network Optimizer Detection tag: option 33 carrying one header with the id of a box. */
module Nod {
  import opened Bytes
  import opened TcpPacket
  import opened TcpOptions
  import opened TcpOptionEdit

  const NOD: OptKind := 33
  const ID_LENGTH: nat := 4

  /** "ONOP", the name this vendor's headers carry. */
  const ONOP: seq<byte> := [79, 78, 79, 80]

  /** A header: total length, name length (3 bits) and header length (5 bits), name, then header data. */
  function Header(data: seq<byte>): (d: OptData)
    requires |data| <= 25
    ensures |d| == 6 + |data|
  {
    [6 + |data|, 4 + 8 * (6 + |data|)] + ONOP + data
  }

  // ----- What the steps do to a segment -----

  /** However far the option area grows, the total length stays below 2^16. */
  predicate Small(s: Segment) { |s.head| + 40 + |s.data| < 0x1_0000 }

  function Stripped(s: Segment): (t: Segment) { s.(opts := Real(s.opts), pad := FreeSpace(s)) }

  function Grown(s: Segment, words: nat): (t: Segment)
    requires s.Valid() && Doff(s.head) + words <= 15 && Small(s)
    ensures t.Valid() && t.AreaSize() == s.AreaSize() + 4 * words && Doff(t.head) == Doff(s.head) + words &&
      |t.head| == |s.head|
    ensures SeqNo(t.head) == SeqNo(s.head) && t.opts == s.opts && t.data == s.data && t.pad == s.pad + 4 * words
  {
    Segment(Resized(s.head, s.AreaSize() + 4 * words, |s.data|), s.opts, s.pad + 4 * words, s.data)
  }

  /** The words an area must grow by, where that is needed and possible; otherwise 0. */
  function Needed(s: Segment, len: nat): (w: nat)
    ensures w > 0 ==> Doff(s.head) + w <= 15
  {
    var w := WordsNeeded(FreeSpace(s), len);
    if Doff(s.head) + w <= 15 then w else 0
  }

  /** Padding options removed, and grown to take len more bytes if need be and if it can. */
  function Fitted(s: Segment, len: nat): (t: Segment)
    requires s.Valid() && Small(s)
    ensures t.Valid() && t.opts == Real(s.opts) && t.data == s.data && |t.head| == |s.head|
    ensures t.AreaSize() == s.AreaSize() + 4 * Needed(s, len) && Doff(t.head) == Doff(s.head) + Needed(s, len)
    ensures t.pad == FreeSpace(s) + 4 * Needed(s, len)
    ensures SeqNo(t.head) == SeqNo(s.head)
  {
    hide Real, Size;
    StrippedValid(s);
    if Needed(s, len) == 0 then Stripped(s) else Grown(Stripped(s), Needed(s, len))
  }

  lemma {:induction false} StrippedValid(s: Segment)
    requires s.Valid()
    ensures Stripped(s).Valid() && Stripped(s).AreaSize() == s.AreaSize() && |Stripped(s).Bytes()| == |s.Bytes()|
  {
  }

  /** The last option replaced by one that is longer by the bytes taken from the padding. */
  function LastSet(s: Segment, r: seq<Option>, o: Option): (t: Segment)
    requires s.Valid() && Size(r) + o.Length() <= s.AreaSize()
    ensures t.Valid() && t.opts == r + [o] && t.data == s.data && t.head == s.head && t.AreaSize() == s.AreaSize()
    ensures t.pad == s.AreaSize() - Size(r) - o.Length()
  {
    SizeConcat(r, [o]);
    SizeSingle(o);
    s.(opts := r + [o], pad := s.AreaSize() - Size(r) - o.Length())
  }

  /** All padding options are gone. */
  predicate Plain(os: seq<Option>) { forall i :: 0 <= i < |os| ==> os[i].Opt? }

  lemma {:induction false} PlainReal(os: seq<Option>)
    requires Plain(os)
    ensures Real(os) == os
  {
    RealAll(os);
  }

  /** Enough header space for an option with a bare header: the code relies on it without checking. */
  predicate CanTag(s: Segment)
  {
    Doff(s.head) + WordsNeeded(FreeSpace(s), 8) <= 15
  }

  /**
   The packet with room made for the tag as far as it goes: first for an empty option, and if that has
   found two free bytes, then for the six bytes of a header without data. Each step grows only if it can.
   */
  function Base(s: Segment): (t: Segment)
    requires s.Valid() && Small(s)
    ensures t.Valid() && t.opts == Real(s.opts) && t.data == s.data && |t.head| == |s.head| &&
      SeqNo(t.head) == SeqNo(s.head)
  {
    hide Size, Real, Grown;
    var t := Fitted(s, 2);
    var w := if t.pad < 2 then 0 else WordsNeeded(t.pad - 2, 6);
    if w > 0 && Doff(t.head) + w <= 15 then Grown(t, w) else t
  }

  /** The option with a header that has no data yet, behind all others. */
  function Named(s: Segment): (t: Segment)
    requires s.Valid() && Small(s) && CanTag(s)
    ensures t.Valid() && t.opts == Real(s.opts) + [Opt(NOD, Header([]))] && t.data == s.data && |t.head| == |s.head|
    ensures SeqNo(t.head) == SeqNo(s.head)
  {
    hide Size, Real, Header, Base;
    BaseFits(s);
    LastSet(Base(s), Real(s.opts), Opt(NOD, Header([])))
  }

  /** Then the id in the header, but only if the area had to grow, and could, to take it. */
  function Tagged(s: Segment, id: Id): (t: Segment)
    requires s.Valid() && Small(s) && CanTag(s)
    ensures t.Valid() && t.data == s.data && |t.head| == |s.head| && SeqNo(t.head) == SeqNo(s.head)
  {
    hide Size, Real, Fitted, Named, Header;
    NamedSize(s);
    if Needed(Named(s), ID_LENGTH) > 0 then
      ThirdFits(s);
      LastSet(Fitted(Named(s), ID_LENGTH), Real(s.opts), Opt(NOD, Header(id)))
    else Named(s)
  }

  /**
   Room for the whole bare tag is made exactly when the header can take it; there is none at all only in a full header.
   */
  lemma {:induction false} BaseFits(s: Segment)
    requires s.Valid() && Small(s)
    ensures var t, f := Base(s), FreeSpace(s);
      && (t.pad >= 8 <==> CanTag(s))
      && (t.pad == 0 <==> f == 0 && Doff(s.head) == 15)
      && (CanTag(s) ==>
        t.AreaSize() == s.AreaSize() + 4 * WordsNeeded(f, 8) && Doff(t.head) == Doff(s.head) + WordsNeeded(f, 8))
      && (!CanTag(s) ==> Doff(t.head) == 15 || (Doff(t.head) == 14 && 2 <= t.pad <= 3))
      && Size(t.opts) + t.pad == t.AreaSize() == 4 * Doff(t.head) - 20
  {
    hide Size, Real, Fitted, Grown;
    TwoSteps(FreeSpace(s));
  }

  /** Growing for two bytes and then for six takes as many words as growing for eight at once. */
  lemma {:induction false} TwoSteps(f: nat)
    ensures var f' := f + 4 * WordsNeeded(f, 2) - 2;
      f' >= 0 && WordsNeeded(f, 2) + WordsNeeded(f', 6) == WordsNeeded(f, 8)
  {
  }

  lemma {:induction false} FreeAfter(s: Segment, r: seq<Option>, o: Option)
    requires s.Valid() && Plain(r) && o.Opt? && Size(r) + o.Length() <= s.AreaSize()
    ensures FreeSpace(LastSet(s, r, o)) == LastSet(s, r, o).pad == s.AreaSize() - Size(r) - o.Length()
    ensures Real(LastSet(s, r, o).opts) == r + [o]
  {
    hide Size;
    PlainReal(r + [o]);
    SizeConcat(r, [o]);
    SizeSingle(o);
  }

  lemma {:induction false} NamedSize(s: Segment)
    requires s.Valid() && Small(s) && CanTag(s)
    ensures var t, w := Named(s), WordsNeeded(FreeSpace(s), 8);
      && FreeSpace(t) == FreeSpace(s) + 4 * w - 8 && Doff(t.head) == Doff(s.head) + w &&
        t.AreaSize() == s.AreaSize() + 4 * w
      && Real(t.opts) == t.opts
  {
    hide Size, Real, WordsNeeded, Base, Header;
    BaseFits(s);
    FreeAfter(Base(s), Real(s.opts), Opt(NOD, Header([])));
  }

  /** The third step needs growth exactly when fewer than twelve bytes were free at first. */
  lemma {:induction false} ThirdFits(s: Segment)
    requires s.Valid() && Small(s) && CanTag(s)
    ensures var t, f := Named(s), FreeSpace(s);
      && (Needed(t, ID_LENGTH) > 0 <==> f < 12 && Doff(s.head) + WordsNeeded(f, 8) + 1 <= 15)
      && (Needed(t, ID_LENGTH) > 0 ==>
        Needed(t, ID_LENGTH) == 1 && Size(Real(s.opts)) + 12 <= Fitted(t, ID_LENGTH).AreaSize())
  {
    hide Size, Real, Fitted, Named;
    NamedSize(s);
  }

  // ----- Reading the tag -----

  datatype Read = NoTag | Found(data: seq<byte>) | OtherHeader

  /** The header data of the first header of the option, if it is one of this vendor's. */
  function ReadTag(os: seq<Option>): Read
  {
    var j := Find(os, NOD);
    if j == |os| || os[j].data == [] then NoTag else
    var d := os[j].data;
    if |d| < 6 || d[1] % 8 != |ONOP| || d[2..6] != ONOP || d[1] / 8 > |d| then OtherHeader
    else if d[1] / 8 > 6 then Found(d[6..d[1] / 8]) else NoTag
  }

  lemma {:induction false} FindAppended(r: seq<Option>, o: Option)
    requires o.Opt? && o.kind == NOD && Find(r, NOD) == |r|
    ensures Find(r + [o], NOD) == |r|
  {
    var os, j := r + [o], Find(r + [o], NOD);
    hide Find;
    assert os[|r|] == o;
    assert forall i :: 0 <= i < |r| ==> os[i] == r[i];
  }

  lemma {:induction false} ReadHeader(r: seq<Option>, data: seq<byte>)
    requires Find(r, NOD) == |r| && |data| <= 25
    ensures ReadTag(r + [Opt(NOD, Header(data))]) == if data == [] then NoTag else Found(data)
  {
    hide Find;
    var d := Header(data);
    FindAppended(r, Opt(NOD, d));
    assert d[2..6] == ONOP;
    assert d[6..6 + |data|] == data;
  }

  /**
   The tag and exactly when it arrives: on a packet without option 33, the id written is read
   back if and only if fewer than twelve bytes were free and the header could grow by one word
   more than the bare header needs; otherwise a bare header without an id is left. Either way
   the other real options, the payload and the sequence number are untouched.
   */
  lemma {:induction false} TagThenRead(s: Segment, id: Id)
    requires s.Valid() && Small(s) && CanTag(s) && Find(s.opts, NOD) == |s.opts|
    ensures var t, f := Tagged(s, id), FreeSpace(s);
      && ReadTag(t.opts) == (if f < 12 && Doff(s.head) + WordsNeeded(f, 8) + 1 <= 15 then Found(id) else NoTag)
      && Others(t.opts, NOD) == Others(s.opts, NOD)
      && t.data == s.data && SeqNo(t.head) == SeqNo(s.head)
      && TotLen(t.head) - TotLen(s.head) == 4 * Doff(t.head) - 4 * Doff(s.head)
  {
    hide Size, Real, Fitted, Named, Header, Find, ReadTag, Others, SeqNo;
    ThirdFits(s);
    AbsentInReal(s.opts, NOD);
    ReadHeader(Real(s.opts), id);
    ReadHeader(Real(s.opts), []);
    OthersAppended(s.opts, Header(id));
    OthersAppended(s.opts, Header([]));
  }

  /** Fewer than twelve bytes are free, and the header can grow by one word more than the bare tag needs. */
  predicate Taggable(s: Segment)
  {
    FreeSpace(s) < 12 && Doff(s.head) + WordsNeeded(FreeSpace(s), 8) + 1 <= 15
  }

  /**
   In bytes: a bare tag needs 8 behind the real options and the whole tag 12, of the 40 that a header can have; and the
   id is written only where fewer than 12 are free already.
   */
  lemma {:induction false} TagRoom(s: Segment)
    requires s.Valid()
    ensures CanTag(s) <==> Size(Real(s.opts)) + 8 <= 40
    ensures Taggable(s) <==> FreeSpace(s) < 12 && Size(Real(s.opts)) + 12 <= 40
  {
    hide Size, Real;
    WordsIff(s.AreaSize(), Size(Real(s.opts)), 8);
    WordsIff(s.AreaSize(), Size(Real(s.opts)), 12);
  }

  /** In particular it arrives wherever fewer than twelve bytes are free and the header has at most 12 words. */
  lemma {:induction false} TagArrives(s: Segment, id: Id)
    requires s.Valid() && Small(s) && Find(s.opts, NOD) == |s.opts| && FreeSpace(s) < 12 && Doff(s.head) <= 12
    ensures CanTag(s) && ReadTag(Tagged(s, id).opts) == Found(id)
  {
    hide Size, Real, Find, ReadTag, Tagged, FreeSpace;
    TagThenRead(s, id);
  }

  /** A plain pair of headers with the given data offset and total length. */
  function SampleHead(doff: nat, total: nat): (h: seq<byte>)
    requires 5 <= doff <= 15 && total < 0x1_0000
    ensures HeadOk(h) && |h| == 40 && Doff(h) == doff && TotLen(h) == total
  {
    [0x45, 0, total / 0x100, total % 0x100, 0, 0, 0, 0, 64, 6, 0, 0, 10, 0, 0, 1, 10, 0, 0, 2,
     0, 80, 31, 144, 0, 0, 0, 1, 0, 0, 0, 0, 16 * doff, 16, 255, 255, 0, 0, 0, 0]
  }

  /** A packet with twelve free bytes, on which the id is lost: the growth step reports that nothing had to grow. */
  lemma {:induction false} RoomyLosesId(id: Id)
    ensures var s := Segment(SampleHead(8, 52), [], 12, []);
      s.Valid() && Small(s) && CanTag(s) && Find(s.opts, NOD) == |s.opts| && ReadTag(Tagged(s, id).opts) == NoTag
  {
    hide ReadTag, Tagged;
    TagThenRead(Segment(SampleHead(8, 52), [], 12, []), id);
  }

  lemma {:induction false} OthersAppended(os: seq<Option>, d: OptData)
    ensures Others(Real(os) + [Opt(NOD, d)], NOD) == Others(os, NOD)
  {
    hide Size, Real;
    OthersReal(os, NOD);
    OthersSnoc(Real(os), Opt(NOD, d));
  }

  lemma {:induction false} OthersSnoc(r: seq<Option>, o: Option)
    requires o.Opt? && o.kind == NOD
    ensures Others(r + [o], NOD) == Others(r, NOD)
  {
    if r == [] {
      assert (r + [o])[1..] == [];
    } else {
      OthersSnoc(r[1..], o);
      assert (r + [o])[1..] == r[1..] + [o];
    }
  }

  // ----- Tags that do not fit -----

  /** The bytes of the option with a header that has no data. */
  const BARE: seq<byte> := [33, 8, 6, 52, 79, 78, 79, 80]

  lemma {:induction false} BareBytes()
    ensures Header([]) == BARE[2..] && Opt(NOD, Header([])).Bytes() == BARE
  {
  }

  /** Bytes written over the beginning of a payload; what is longer than the payload ends up behind the packet. */
  function Overwritten(d: seq<byte>, b: seq<byte>): (r: seq<byte>)
    ensures |r| == |d|
  {
    if |b| <= |d| then b + d[|b|..] else b[..|d|]
  }

  /**
   What tagging makes of a packet: a well-formed packet; one whose option area ends inside the tag and
   whose payload begins with the rest of it; or, without a single free byte, a null dereference.
   */
  datatype Outcome = Whole(t: Segment) | Broken(head: seq<byte>, area: seq<byte>, data: seq<byte>) | Crash

  /**
   Room is made as far as it goes, then the eight bytes of the bare tag are written, whether they fit or not.
   A tag that fitted gets its id as usual. After one that did not, the area is grown once more if it can be,
   and then found too small.
   */
  function Outcomes(s: Segment, id: Id): Outcome
    requires s.Valid() && Small(s)
  {
    hide Size, Real, Base, Tagged;
    var t := Base(s);
    BaseFits(s);
    if t.pad == 0 then Crash
    else if t.pad >= 8 then Whole(Tagged(s, id))
    else
      var area, data := Encoded(t.opts) + BARE[..t.pad], Overwritten(s.data, BARE[t.pad..]);
      if Doff(t.head) == 15 then Broken(t.head, area, data)
      else Broken(Resized(t.head, t.AreaSize() + 4, |s.data|), area + Zeroes(4), data)
  }

  /**
   Tagging stays inside the option area if and only if the header can take the bare tag. Otherwise the code
   dereferences null, exactly on a full header without free bytes, or the tag reaches past the area and its
   last bytes replace the first ones of the payload, unless they happen to be the same.
   */
  lemma {:induction false} TagInsideIff(s: Segment, id: Id)
    requires s.Valid() && Small(s)
    ensures var x, lost := Outcomes(s, id), BARE[if Base(s).pad < 8 then Base(s).pad else 8..];
      && (CanTag(s) <==> x.Whole?) && (CanTag(s) <==> lost == [])
      && (x.Crash? <==> FreeSpace(s) == 0 && Doff(s.head) == 15)
      && (x.Broken? ==>
            && |x.head| == |s.head| && |x.area| == 4 * Doff(x.head) - 20 < Size(Real(s.opts)) + |BARE|
            && x.area[..Size(Real(s.opts))] == Encoded(Real(s.opts))
            && x.data == Overwritten(s.data, lost) && |lost| > 0
            && (x.data == s.data <==> lost <= s.data || s.data <= lost))
  {
    hide Size, Real, Base, Tagged, Encoded;
    BaseFits(s);
    var t := Base(s);
    if 0 < t.pad < 8 {
      BrokenArea(Encoded(t.opts), BARE[..t.pad]);
      OverwrittenSame(s.data, BARE[t.pad..]);
    }
  }

  /**
   Over all packets without a tag: the outcome is a packet from which the id is read back if and only if the condition
   holds.
   */
  lemma {:induction false} ArrivesIff(s: Segment, id: Id)
    requires s.Valid() && Small(s) && Find(s.opts, NOD) == |s.opts|
    ensures Outcomes(s, id).Whole? && ReadTag(Outcomes(s, id).t.opts) == Found(id) <==> Taggable(s)
  {
    hide Size, Real, Base, Tagged, Find, ReadTag, FreeSpace;
    TagInsideIff(s, id);
    BaseFits(s);
    if CanTag(s) { TagThenRead(s, id); }
  }

  lemma {:induction false} BrokenArea(e: seq<byte>, b: seq<byte>)
    ensures (e + b)[..|e|] == e && (e + b + Zeroes(4))[..|e|] == e
  {
  }

  lemma {:induction false} OverwrittenSame(d: seq<byte>, b: seq<byte>)
    ensures Overwritten(d, b) == d <==> b <= d || d <= b
  {
    if |b| <= |d| {
      assert Overwritten(d, b)[..|b|] == b;
      if Overwritten(d, b) == d { assert d[..|b|] == b; }
      if b <= d { assert d == b + d[|b|..]; }
    } else {
      if Overwritten(d, b) == d { assert b[..|d|] == d; }
      if d <= b { assert b[..|d|] == d; }
    }
  }

  /** Timestamps and three blocks of selective acknowledgements, padded as usual: a full header with four free bytes. */
  function Sacked(data: seq<byte>): Segment
    requires |data| <= 1400
  {
    Segment(SampleHead(15, 80 + |data|), [Nop, Nop, Opt(8, Zeroes(8)), Nop, Nop, Opt(5, Zeroes(24))], 0, data)
  }

  /** On this packet the name in the tag replaces the first four bytes of the payload. */
  lemma {:induction false} SackedLosesPayload(data: seq<byte>, id: Id)
    requires 4 <= |data| <= 1400
    ensures var s := Sacked(data);
      && s.Valid() && Small(s) && Find(s.opts, NOD) == |s.opts| && FreeSpace(s) == 4 && !CanTag(s)
      && Outcomes(s, id).Broken? && Outcomes(s, id).data == ONOP + data[4..]
  {
    var s := Sacked(data);
    SackedSize(s.opts[2], s.opts[5]);
    hide Size, Real, Base, Tagged, Encoded, Find, Outcomes;
    SackedFull(s);
    TagInsideIff(s, id);
    assert BARE[4..] == ONOP;
  }

  lemma {:induction false} SackedSize(t: Option, k: Option)
    requires t.Opt? && k.Opt? && t.kind != NOD && k.kind != NOD
    ensures [t] + [k] == [t, k]
    ensures var os := [Nop, Nop, t, Nop, Nop, k];
      Size(os) == t.Length() + k.Length() + 4 && Real(os) == [t, k] && Size([t, k]) == t.Length() + k.Length() &&
        Find(os, NOD) == 6
  {
    hide Size, Real, Find;
    Prepend(k, []);
    Prepend(Nop, [k]);
    Prepend(Nop, [Nop, k]);
    Prepend(t, [Nop, Nop, k]);
    Prepend(Nop, [t, Nop, Nop, k]);
    Prepend(Nop, [Nop, t, Nop, Nop, k]);
    Prepend(t, [k]);
    assert [k] + [] == [k] && [Nop] + [k] == [Nop, k] && [Nop] + [Nop, k] == [Nop, Nop, k] && [t] + [k] == [t, k];
    assert [t] + [Nop, Nop, k] == [t, Nop, Nop, k] && [Nop] + [t, Nop, Nop, k] == [Nop, t, Nop, Nop, k];
    assert [Nop] + [Nop, t, Nop, Nop, k] == [Nop, Nop, t, Nop, Nop, k];
  }

  lemma {:induction false} Prepend(o: Option, os: seq<Option>)
    ensures Size([o] + os) == o.Length() + Size(os) && Real([o] + os) == (if o.Nop? then [] else [o]) + Real(os)
    ensures o.Nop? || o.kind != NOD ==> Find([o] + os, NOD) == 1 + Find(os, NOD)
    ensures Size([]) == 0 && Real([]) == [] && Find([], NOD) == 0
  {
    assert ([o] + os)[1..] == os;
  }

  lemma {:induction false} SackedFull(s: Segment)
    requires s.Valid() && Small(s) && FreeSpace(s) == 4 && Doff(s.head) == 15
    ensures Base(s).pad == 4 && !CanTag(s)
  {
    hide Size, Real;
  }

  /** On a full header without padding the code stops with a null dereference. */
  lemma {:induction false} FullCrashes(id: Id)
    ensures var s := Segment(SampleHead(15, 80), [Opt(8, Zeroes(38))], 0, []);
      s.Valid() && Small(s) && Find(s.opts, NOD) == |s.opts| && Outcomes(s, id).Crash?
  {
    var o := Opt(8, Zeroes(38));
    assert [o][1..] == [];
    assert Size([o]) == 40 && Real([o]) == [o];
    hide Outcomes;
    TagInsideIff(Segment(SampleHead(15, 80), [o], 0, []), id);
  }

  // ----- Packets that have a tag already -----

  /** Behind no padding options, the last option is a tag whose header has no data. */
  predicate BareLast(s: Segment)
  {
    && s.opts != [] && s.opts[|s.opts| - 1] == Opt(NOD, Header([]))
    && Plain(s.opts) && Find(s.opts, NOD) == |s.opts| - 1
  }

  /** The first option 33 is a tag that carries an id. */
  predicate IdPresent(s: Segment)
  {
    var j := Find(s.opts, NOD);
    j < |s.opts| && |s.opts[j].data| == 10 && s.opts[j].data == Header(s.opts[j].data[6..])
  }

  /** A bare tag gets the id if the area has to grow for it, and can; it keeps its place. */
  function Refilled(s: Segment, id: Id): (t: Segment)
    requires s.Valid() && Small(s) && BareLast(s)
    ensures t.Valid() && t.data == s.data && |t.head| == |s.head| && SeqNo(t.head) == SeqNo(s.head)
  {
    hide Size, Real, Fitted, Header, Find;
    RefillFits(s);
    if Needed(s, ID_LENGTH) > 0 then
      LastSet(Fitted(s, ID_LENGTH), s.opts[..|s.opts| - 1], Opt(NOD, Header(id)))
    else s
  }

  lemma {:induction false} RefillFits(s: Segment)
    requires s.Valid() && Small(s) && BareLast(s)
    ensures Real(s.opts) == s.opts && FreeSpace(s) == s.pad
    ensures Size(s.opts[..|s.opts| - 1]) + 8 == Size(s.opts)
    ensures Needed(s, ID_LENGTH) > 0 ==> Size(s.opts[..|s.opts| - 1]) + 12 <= Fitted(s, ID_LENGTH).AreaSize()
  {
    hide Size, Fitted, Header, Find;
    PlainReal(s.opts);
    assert s.opts == s.opts[..|s.opts| - 1] + [s.opts[|s.opts| - 1]];
    SizeConcat(s.opts[..|s.opts| - 1], [s.opts[|s.opts| - 1]]);
    SizeSingle(s.opts[|s.opts| - 1]);
  }

  /** Packets that tagging leaves well formed. */
  predicate Markable(s: Segment)
  {
    (Find(s.opts, NOD) == |s.opts| && CanTag(s)) || BareLast(s) || IdPresent(s)
  }

  /** Tagging, whatever tag there is: none, a bare one, or one with an id, which stays. */
  function Marked(s: Segment, id: Id): (t: Segment)
    requires s.Valid() && Small(s) && Markable(s)
    ensures t.Valid() && t.data == s.data && |t.head| == |s.head| && SeqNo(t.head) == SeqNo(s.head)
  {
    if Find(s.opts, NOD) == |s.opts| then Tagged(s, id) else if BareLast(s) then Refilled(s, id) else s
  }

  /** The options of the packet itself are kept. */
  lemma {:induction false} MarkedOthers(s: Segment, id: Id)
    requires s.Valid() && Small(s) && Markable(s)
    ensures Others(Marked(s, id).opts, NOD) == Others(s.opts, NOD)
  {
    hide Size, Real, Fitted, Header, Find, Tagged, Others, ReadTag;
    if Find(s.opts, NOD) == |s.opts| {
      TagThenRead(s, id);
    } else if BareLast(s) {
      var r := s.opts[..|s.opts| - 1];
      assert s.opts == r + [s.opts[|s.opts| - 1]];
      OthersSnoc(r, s.opts[|s.opts| - 1]);
      OthersSnoc(r, Opt(NOD, Header(id)));
    }
  }
}
