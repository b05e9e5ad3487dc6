/** The sequence numbers a box records for the two endpoints of a session. */
module SequenceTracking {
  import opened Bytes
  import opened TcpPacket
  import E = TcpOptionEdit
  import SD = SessionData
  import ST = SessionTable

  // ----- Header fields; addresses and ports as the host loads them -----

  function Saddr(h: seq<byte>): uint32 { if Readable(h) then Le32(h, 12) else 0 }

  function Daddr(h: seq<byte>): uint32 { if Readable(h) then Le32(h, 16) else 0 }

  function LargerIP(h: seq<byte>): uint32 { if Saddr(h) > Daddr(h) then Saddr(h) else Daddr(h) }

  predicate Syn(h: seq<byte>) { Readable(h) && h[TcpAt(h) + 13] / 2 % 2 == 1 }

  /** What a packet adds to its sender's sequence number. */
  function Advance(s: Segment): nat { if Syn(s.head) then 1 else |s.data| }

  /** The session's record after a packet of it; nothing is recorded between two zero addresses. */
  function Record(d: SD.Data, s: Segment): SD.Data
  {
    if LargerIP(s.head) == 0 then d
    else SD.Recorded(d, Saddr(s.head) == LargerIP(s.head), SeqNo(s.head), Advance(s))
  }

  /** Records one packet. */
  method UpdateSeq(largerIP: uint32, p: seq<byte>, session: ST.Session, ghost s: Segment) returns (r: int)
    requires Holds(p, s) && largerIP == LargerIP(s.head)
    modifies session`data
    ensures session.data == Record(old(session.data), s)
    ensures r == if largerIP != 0 then 0 else -1
  {
    hide Size, Holds, Segment.Bytes;
    E.HoldsParts(p, s);
    Fields(p, s.head);
    if largerIP == 0 {
      return -1;
    }
    if Saddr(p) == largerIP {
      var e := UpdateEndpoint(p, session.data.larger, s);
      if e.Some? {
        session.data := session.data.(larger := e.endpoint, deadcounter := 0);
      }
    } else {
      var e := UpdateEndpoint(p, session.data.smaller, s);
      if e.Some? {
        session.data := session.data.(smaller := e.endpoint, deadcounter := 0);
      }
    }
    return 0;
  }

  datatype Update = None | Some(endpoint: SD.Endpoint)

  /** The sender's new entry, or none for a keepalive. */
  method UpdateEndpoint(p: seq<byte>, source: SD.Endpoint, ghost s: Segment) returns (e: Update)
    requires Holds(p, s) && Syn(p) == Syn(s.head)
    ensures e == if SD.Keepalive(source, SeqNo(s.head)) then None
                 else Some(source.(sequence := SeqNo(s.head), next := Add32(SeqNo(s.head), Advance(s))))
  {
    hide Size, Holds, Segment.Bytes, SeqNo, Doff, TotLen;
    E.HoldsParts(p, s);
    var seqno := SeqNo(p);
    if seqno != source.next && seqno == Add32(source.sequence, -1) {
      return None;
    }
    var next := if Syn(p) then Add32(seqno, 1) else Add32(seqno, TotLen(p) - TcpAt(p) - 4 * Doff(p));
    return Some(source.(sequence := seqno, next := next));
  }

  lemma {:induction false} Fields(p: seq<byte>, h: seq<byte>)
    requires Readable(h) && |h| <= |p| && p[..|h|] == h
    ensures Saddr(p) == Saddr(h) && Daddr(p) == Daddr(h) && LargerIP(p) == LargerIP(h) && Syn(p) == Syn(h)
  {
    assert forall i :: 0 <= i < |h| ==> p[i] == p[..|h|][i] == h[i];
  }
}
