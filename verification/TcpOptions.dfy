/** Reading and writing TCP options inside a packet buffer. */
module TcpOptions {
  import opened Bytes
  import opened TcpPacket

  // ----- What the operations mean on option lists -----

  /** The options proper, without the padding options. */
  function Real(os: seq<Option>): (r: seq<Option>)
    ensures Size(r) <= Size(os)
    ensures forall i :: 0 <= i < |r| ==> r[i].Opt?
  {
    if os == [] then [] else
    var rest := Real(os[1..]);
    if os[0].Nop? then rest else
    assert ([os[0]] + rest)[1..] == rest;
    [os[0]] + rest
  }

  /** Index of the first option of a kind, or the length of the list. */
  function Find(os: seq<Option>, kind: OptKind): (j: nat)
    ensures j <= |os|
    ensures forall i :: 0 <= i < j ==> os[i].Nop? || os[i].kind != kind
    ensures j < |os| ==> os[j].Opt? && os[j].kind == kind
  {
    if os == [] || (os[0].Opt? && os[0].kind == kind) then 0 else 1 + Find(os[1..], kind)
  }

  /** The same for a kind and a length. */
  function FindExact(os: seq<Option>, kind: OptKind, len: nat): (j: nat)
    ensures j <= |os|
    ensures forall i :: 0 <= i < j ==> os[i].Nop? || os[i].kind != kind || os[i].Length() != len
    ensures j < |os| ==> os[j].Opt? && os[j].kind == kind && os[j].Length() == len
  {
    if os == [] || (os[0].Opt? && os[0].kind == kind && os[0].Length() == len) then 0
      else 1 + FindExact(os[1..], kind, len)
  }

  /** The number an option carries: 0 if it is absent, 1 if it has no data. */
  function Get(os: seq<Option>, kind: OptKind): nat
  {
    var j := Find(os, kind);
    if j == |os| then 0 else if os[j].data == [] then 1 else BeValue(os[j].data)
  }

  /** 4-byte words by which an area with the given free space must grow to take len more bytes. */
  function WordsNeeded(free: nat, len: nat): (n: nat)
    ensures free < len ==> len <= free + 4 * n < len + 4
    ensures free >= len ==> n == 0
  {
    if free < len then (len - free) / 4 + (if (len - free) % 4 != 0 then 1 else 0) else 0
  }

  function FreeSpace(s: Segment): nat { s.AreaSize() - Size(Real(s.opts)) }

  /** Is there room for the option: in place, in the free space, or by growing the header to at most 15 words? */
  predicate HasRoom(s: Segment, kind: OptKind, len: nat)
  {
    FindExact(s.opts, kind, len) < |s.opts| || Doff(s.head) + WordsNeeded(FreeSpace(s), len) <= 15
  }

  /**
   Setting an option overwrites one of the same kind and length in place. Otherwise padding
   options go, and the new option comes first if there is room.
   */
  function SetInList(os: seq<Option>, kind: OptKind, len: nat, v: nat, room: bool): seq<Option>
    requires 2 <= len <= 10
  {
    var j := FindExact(os, kind, len);
    var added := Opt(kind, BeBytes(v, len - 2));
    if j < |os| then os[j := added] else if room then [added] + Real(os) else Real(os)
  }

  /** Bytes by which the area grows for the option. */
  function Growth(s: Segment, kind: OptKind, len: nat): nat
  {
    if FindExact(s.opts, kind, len) == |s.opts| && HasRoom(s, kind, len) then 4 * WordsNeeded(FreeSpace(s), len) else 0
  }

  /** There is room exactly for an option that is there already or fits in 40 bytes behind the real options. */
  lemma {:induction false} RoomIff(s: Segment, kind: OptKind, len: nat)
    requires s.Valid()
    ensures HasRoom(s, kind, len) <==>
      (exists i :: 0 <= i < |s.opts| && s.opts[i].Opt? && s.opts[i].kind == kind && s.opts[i].Length() == len)
      || Size(Real(s.opts)) + len <= 40
  {
    hide Real, Size, FindExact;
    WordsIff(s.AreaSize(), Size(Real(s.opts)), len);
    var j := FindExact(s.opts, kind, len);
    if i :| 0 <= i < |s.opts| && s.opts[i].Opt? && s.opts[i].kind == kind && s.opts[i].Length() == len {
      assert j <= i;
    }
  }

  /** Growing an area in words stays within 40 bytes exactly if what it has to hold does. */
  lemma {:induction false} WordsIff(area: nat, used: nat, len: nat)
    requires used <= area <= 40 && area % 4 == 0
    ensures area + 4 * WordsNeeded(area - used, len) <= 40 <==> used + len <= 40
  {
  }

  /** The header with its length fields set for the grown area. */
  function NewHead(s: Segment, kind: OptKind, len: nat): (h: seq<byte>)
    requires s.Valid() && 2 <= len <= 10 && |s.Bytes()| + 12 < 0x1_0000
    ensures HeadOk(h) && |h| == |s.head| && 4 * Doff(h) == 4 * Doff(s.head) + Growth(s, kind, len)
    ensures TotLen(h) == TotLen(s.head) + Growth(s, kind, len) && SeqNo(h) == SeqNo(s.head)
  {
    GrowthFits(s, kind, len);
    hide Growth;
    if Growth(s, kind, len) == 0 then s.head else Resized(s.head, s.AreaSize() + Growth(s, kind, len), |s.data|)
  }

  lemma {:induction false} GrowthFits(s: Segment, kind: OptKind, len: nat)
    requires s.Valid() && 2 <= len <= 10
    ensures Growth(s, kind, len) % 4 == 0 && Growth(s, kind, len) <= 12 && s.AreaSize() + Growth(s, kind, len) <= 40
  {
    hide Real, FindExact, Size, FreeSpace;
    var free := FreeSpace(s);
    assert free < len ==> 4 * WordsNeeded(free, len) < len + 4 - free;
  }

  /** The same in a segment, whose area and length fields grow as far as needed. */
  function Set(s: Segment, kind: OptKind, len: nat, v: nat): (s': Segment)
    requires s.Valid() && 2 <= len <= 10 && |s.Bytes()| + 12 < 0x1_0000
  {
    hide SetInList, Size, HasRoom, Growth;
    var opts := SetInList(s.opts, kind, len, v, HasRoom(s, kind, len));
    SetSize(s, kind, len, v);
    Segment(NewHead(s, kind, len), opts, s.AreaSize() + Growth(s, kind, len) - Size(opts), s.data)
  }

  lemma {:induction false} SetSize(s: Segment, kind: OptKind, len: nat, v: nat)
    requires s.Valid() && 2 <= len <= 10
    ensures Size(SetInList(s.opts, kind, len, v, HasRoom(s, kind, len))) <= s.AreaSize() + Growth(s, kind, len)
  {
    hide Size, Real, BeBytes, HasRoom;
    var j := FindExact(s.opts, kind, len);
    var added := Opt(kind, BeBytes(v, len - 2));
    if j < |s.opts| {
      SizeUpdate(s.opts, j, added);
    } else {
      SizeCons(added, Real(s.opts));
    }
  }

  /** The result is again a well-formed packet, with both length fields up to date. */
  lemma {:induction false} SetValid(s: Segment, kind: OptKind, len: nat, v: nat)
    requires s.Valid() && 2 <= len <= 10 && |s.Bytes()| + 12 < 0x1_0000
    ensures var s' := Set(s, kind, len, v);
      && s'.Valid() && s'.data == s.data && s'.opts == SetInList(s.opts, kind, len, v, HasRoom(s, kind, len))
      && 4 * Doff(s'.head) == 4 * Doff(s.head) + Growth(s, kind, len)
      && TotLen(s'.head) == TotLen(s.head) + Growth(s, kind, len)
      && SeqNo(s'.head) == SeqNo(s.head)
  {
    hide SetInList, HasRoom, Growth, NewHead, Doff, TotLen, SeqNo, HeadOk;
    SetSize(s, kind, len, v);
  }

  lemma {:induction false} SizeCons(o: Option, os: seq<Option>)
    ensures Size([o] + os) == o.Length() + Size(os) && Encoded([o] + os) == o.Bytes() + Encoded(os)
  {
    hide Option.Length, Option.Bytes;
    assert ([o] + os)[1..] == os;
  }

  lemma {:induction false} SizeUpdate(os: seq<Option>, j: nat, o: Option)
    requires j < |os| && o.Length() == os[j].Length()
    ensures Size(os[j := o]) == Size(os)
  {
    if j > 0 {
      SizeUpdate(os[1..], j - 1, o);
      assert os[j := o][1..] == os[1..][j - 1 := o];
    } else {
      assert os[j := o][1..] == os[1..];
    }
  }

  // ----- Laws of the specification -----

  /** All real options of other kinds. */
  function Others(os: seq<Option>, kind: OptKind): seq<Option>
  {
    if os == [] then []
    else if os[0].Nop? || os[0].kind == kind then Others(os[1..], kind)
    else [os[0]] + Others(os[1..], kind)
  }

  lemma {:induction false} OthersReal(os: seq<Option>, kind: OptKind)
    ensures Others(Real(os), kind) == Others(os, kind)
  {
    if os != [] {
      OthersReal(os[1..], kind);
      if os[0].Opt? { assert Real(os)[1..] == Real(os[1..]); }
    }
  }

  lemma {:induction false} OthersUpdate(os: seq<Option>, j: nat, o: Option, kind: OptKind)
    requires j < |os| && os[j].Opt? && os[j].kind == kind && o.Opt? && o.kind == kind
    ensures Others(os[j := o], kind) == Others(os, kind)
  {
    if j > 0 {
      OthersUpdate(os[1..], j - 1, o, kind);
      assert os[j := o][1..] == os[1..][j - 1 := o];
    } else {
      assert os[j := o][1..] == os[1..];
    }
  }

  lemma {:induction false} AbsentInReal(os: seq<Option>, kind: OptKind)
    requires Find(os, kind) == |os|
    ensures Find(Real(os), kind) == |Real(os)|
  {
    hide Size;
    if os != [] {
      AbsentInReal(os[1..], kind);
      if os[0].Opt? { assert Real(os)[1..] == Real(os[1..]); }
    }
  }

  /** No option of the kind stands before the one that is overwritten; true whenever the kind occurs at most once. */
  predicate FirstWins(os: seq<Option>, kind: OptKind, len: nat)
  {
    FindExact(os, kind, len) < |os| ==> Find(os, kind) == FindExact(os, kind, len)
  }

  lemma {:induction false} FindUpdate(os: seq<Option>, j: nat, o: Option, kind: OptKind)
    requires j < |os| && j == Find(os, kind) && o.Opt? && o.kind == kind
    ensures Find(os[j := o], kind) == j
  {
    var os', i := os[j := o], Find(os[j := o], kind);
    assert i <= j by { assert os'[j] == o; }
  }

  /** Write, then read: with room the value comes back modulo its width; other real options keep bytes and order. */
  lemma {:induction false} SetThenGetInList(os: seq<Option>, kind: OptKind, len: nat, v: nat, room: bool)
    requires 3 <= len <= 5
    ensures (FindExact(os, kind, len) < |os| || room) && FirstWins(os, kind, len) ==>
              Get(SetInList(os, kind, len, v, room), kind) == v % Pow256(len - 2)
    ensures Others(SetInList(os, kind, len, v, room), kind) == Others(os, kind)
  {
    var j := FindExact(os, kind, len);
    var added := Opt(kind, BeBytes(v, len - 2));
    BeRoundTrip(v, len - 2);
    if j < |os| {
      OthersUpdate(os, j, added, kind);
      if FirstWins(os, kind, len) { FindUpdate(os, j, added, kind); }
    } else {
      OthersReal(os, kind);
      assert ([added] + Real(os))[1..] == Real(os);
    }
  }

  /**
   The same for a segment: the payload is untouched as well, and without room so are the header
   and the real options.
   */
  lemma {:induction false} SetThenGet(s: Segment, kind: OptKind, len: nat, v: nat)
    requires s.Valid() && 3 <= len <= 5 && |s.Bytes()| + 12 < 0x1_0000
    ensures var s' := Set(s, kind, len, v);
      && (HasRoom(s, kind, len) && FirstWins(s.opts, kind, len) ==> Get(s'.opts, kind) == v % Pow256(len - 2))
      && Others(s'.opts, kind) == Others(s.opts, kind)
      && s'.data == s.data
      && (!HasRoom(s, kind, len) ==> s'.opts == Real(s.opts) && s'.head == s.head)
  {
    hide Get, Others, Find, BeValue, Size, Resized, Real;
    SetValid(s, kind, len, v);
    SetThenGetInList(s.opts, kind, len, v, HasRoom(s, kind, len));
  }
}
