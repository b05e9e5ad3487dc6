/**
 What the fetcher and the workers do to the sessions of a box, one handler call at a time, and why
 a box compresses only towards an endpoint whose accelerator has shown itself.
 */
module Acceleration {
  import opened Bytes
  import opened SessionData
  import ST = SessionTable

  datatype Tag = NoTag | Tagged(id: Id)

  /**
   A packet as the handlers see it: addresses and flags, the id it carries, its maximum segment size
   option, whether it is flagged as compressed, and what restoring it gives.
   */
  datatype Packet = Packet(
    tcp: bool, queued: nat, saddr: uint32, source: uint16, daddr: uint32, dest: uint16,
    syn: bool, ack: bool, fin: bool, rst: bool, seqno: uint32, payload: nat,
    tag: Tag, mss: nat, flagged: bool, plainSeqno: uint32, plainPayload: nat)
  {
    function Key(): ST.Key { ST.SortSockets(saddr, source, daddr, dest) }

    function LargerIP(): uint32 { if saddr > daddr then saddr else daddr }

    function SmallerIP(): uint32 { if saddr > daddr then daddr else saddr }

    predicate FromLarger() { saddr == LargerIP() }

    /** The neighbour whose id the packet carries is verified to be up. */
    predicate Verified(up: set<Id>) { tag.Tagged? && tag.id in up }

    predicate Opening() { syn && !ack }

    predicate Ordinary() { !syn && ack && !fin }
  }

  const NO_ID: Id := [0, 0, 0, 0]

  // ----- What one call does to a session -----

  /** The accelerator of the sending endpoint set; not between two zero addresses. */
  function WithAccelerator(d: Data, p: Packet, id: Id): Data
  {
    if p.LargerIP() == 0 then d
    else WithSide(d, p.FromLarger(), Side(d, p.FromLarger()).(accelerator := id))
  }

  function WithSegment(d: Data, p: Packet, seqno: uint32, payload: nat): Data
  {
    if p.LargerIP() == 0 then d else Recorded(d, p.FromLarger(), seqno, if p.syn then 1 else payload)
  }

  /** A handshake packet: the box enters its own id if it can tag the packet, or else the id it finds verified. */
  function Opened(d: Data, p: Packet, local: Id, up: set<Id>, state: nat): Data
  {
    var d1 := WithSegment(d, p, p.seqno, p.payload);
    var d2 := if p.Verified(up) then WithAccelerator(d1, p, p.tag.id)
              else if p.mss > 60 then WithAccelerator(d1, p, local) else d1;
    d2.(state := state)
  }

  /** The fetcher's effect on the sessions. */
  function Fetched(s: map<ST.Key, Data>, p: Packet, local: Id, up: set<Id>): map<ST.Key, Data>
  {
    var k := p.Key();
    if !p.tcp || p.queued == 0 then s
    else if p.Opening() then s[k := Opened(if k in s then s[k] else Zeroed(), p, local, up, TCP_SYN_SENT)]
    else if k in s then if p.syn && p.ack then s[k := Opened(s[k], p, local, up, TCP_ESTABLISHED)] else s
    else if p.Ordinary() && p.tag.Tagged? then
      s[k := WithAccelerator(Zeroed(), p, if p.Verified(up) then p.tag.id else local).(state := TCP_ESTABLISHED)]
    else s
  }

  /** The endpoint that sent the packet is this box's, and the other one has another accelerator. */
  predicate MayCompress(d: Data, p: Packet, local: Id)
  {
    && d.state == TCP_ESTABLISHED
    && exists own: bool :: p.saddr == (if own then p.LargerIP() else p.SmallerIP()) && OwnAndOther(d, own, local)
  }

  predicate OwnAndOther(d: Data, own: bool, local: Id)
  {
    Side(d, own).accelerator == local && Side(d, !own).accelerator != NO_ID && Side(d, !own).accelerator != local
  }

  /** The endpoint the packet goes to is this box's. */
  predicate MayRestore(d: Data, p: Packet, local: Id)
  {
    || (p.saddr == p.LargerIP() && d.smaller.accelerator == local)
    || (p.saddr == p.SmallerIP() && d.larger.accelerator == local)
  }

  /** An ordinary packet in the worker: recorded unless it is flagged and cannot be restored. */
  function Carried(d: Data, p: Packet, local: Id, up: set<Id>): Data
  {
    if !p.Verified(up) then WithSegment(WithAccelerator(d, p, local), p, p.seqno, p.payload)
    else
      var d1 := WithAccelerator(d, p, p.tag.id);
      if !p.flagged then WithSegment(d1, p, p.seqno, p.payload)
      else if MayRestore(d1, p, local) && p.payload > 0 then WithSegment(d1, p, p.plainSeqno, p.plainPayload)
      else d1
  }

  /** The worker's effect on the sessions. */
  function Worked(s: map<ST.Key, Data>, p: Packet, local: Id, up: set<Id>): map<ST.Key, Data>
  {
    var k := p.Key();
    if k !in s then s
    else
      var d := if p.Ordinary() then Carried(s[k], p, local, up) else s[k];
      if p.rst || (p.fin && d.state == TCP_CLOSING) then s - {k}
      else if p.fin && d.state == TCP_ESTABLISHED then s[k := d.(state := TCP_CLOSING)]
      else s[k := d]
  }

  /** Whether the worker compresses the packet. */
  predicate Compresses(s: map<ST.Key, Data>, p: Packet, local: Id, up: set<Id>)
  {
    p.Key() in s && p.Ordinary() && !p.Verified(up) && MayCompress(WithAccelerator(s[p.Key()], p, local), p, local)
  }

  /** Whether the worker drops the packet. */
  predicate Drops(s: map<ST.Key, Data>, p: Packet, local: Id, up: set<Id>)
  {
    && p.Key() in s && p.Ordinary() && p.Verified(up) && p.flagged && p.payload == 0
    && MayRestore(WithAccelerator(s[p.Key()], p, p.tag.id), p, local)
  }

  function Swept(s: map<ST.Key, Data>): map<ST.Key, Data>
  {
    map k | k in s && !Dead(s[k]) :: Passed(s[k])
  }

  // ----- The code -----

  datatype Verdict = Accept | Drop

  datatype Disposal = Settled(verdict: Verdict) | Optimize | Deoptimize

  /**
   Packets of a known session are queued, for restoring if a verified neighbour tagged them; so is the tagged first one
   of an unknown session.
   */
  function Disposed(s: map<ST.Key, Data>, p: Packet, up: set<Id>): Disposal
  {
    if !p.tcp || p.queued == 0 || p.Opening() then Settled(Accept)
    else if p.Key() in s then
      if p.syn && p.ack then Settled(Accept) else if p.Verified(up) then Deoptimize else Optimize
    else if p.Ordinary() && p.tag.Tagged? then Deoptimize else Settled(Accept)
  }

  /** A box with its sessions, the verdicts its workers gave and the buffers they gave back. */
  class Box {
    const local: Id
    var sessions: map<ST.Key, Data>
    var verdicts: seq<Verdict>
    var returned: nat
    var compressed: nat

    constructor (local: Id)
      ensures this.local == local && sessions == map[] && verdicts == [] && returned == 0 && compressed == 0
    {
      this.local, sessions, verdicts, returned, compressed := local, map[], [], 0, 0;
    }

    method SaveAcceleratorId(p: Packet, id: Id)
      requires p.Key() in sessions
      modifies this`sessions
      ensures sessions == old(sessions)[p.Key() := WithAccelerator(old(sessions)[p.Key()], p, id)]
    {
      var k, d := p.Key(), sessions[p.Key()];
      if p.LargerIP() != 0 {
        if p.saddr == p.LargerIP() {
          d := d.(larger := d.larger.(accelerator := id));
        } else {
          d := d.(smaller := d.smaller.(accelerator := id));
        }
      }
      sessions := sessions[k := d];
    }

    method UpdateSeq(p: Packet, seqno: uint32, payload: nat)
      requires p.Key() in sessions
      modifies this`sessions
      ensures sessions == old(sessions)[p.Key() := WithSegment(old(sessions)[p.Key()], p, seqno, payload)]
    {
      var k := p.Key();
      if p.LargerIP() != 0 {
        sessions := sessions[k := Recorded(sessions[k], p.saddr == p.LargerIP(), seqno, if p.syn then 1 else payload)];
      } else {
        sessions := sessions[k := sessions[k]];
      }
    }

    method SetState(k: ST.Key, state: nat)
      requires k in sessions
      modifies this`sessions
      ensures sessions == old(sessions)[k := old(sessions)[k].(state := state)]
    {
      sessions := sessions[k := sessions[k].(state := state)];
    }

    /** Handles a packet from the netfilter queue: settles it, or says which worker queue it goes to. */
    method Fetch(running: bool, p: Packet, up: set<Id>) returns (r: Disposal)
      modifies this`sessions
      ensures sessions == if running then Fetched(old(sessions), p, local, up) else old(sessions)
      ensures r == if running then Disposed(old(sessions), p, up) else Settled(Accept)
    {
      if !running || !p.tcp || p.queued == 0 {
        return Settled(Accept);
      }
      var k := p.Key();
      if p.syn && !p.ack {
        if k !in sessions {
          sessions := sessions[k := Zeroed()];
        }
        UpdateSeq(p, p.seqno, p.payload);
        if p.tag.NoTag? || p.tag.id !in up {
          if p.mss > 60 {
            SaveAcceleratorId(p, local);
          }
        } else if p.tag.id in up {
          SaveAcceleratorId(p, p.tag.id);
        }
        SetState(k, TCP_SYN_SENT);
        return Settled(Accept);
      }
      if k in sessions {
        if p.syn && p.ack {
          UpdateSeq(p, p.seqno, p.payload);
          if p.tag.NoTag? || p.tag.id !in up {
            if p.mss > 60 {
              SaveAcceleratorId(p, local);
            }
          } else if p.tag.id in up {
            SaveAcceleratorId(p, p.tag.id);
          }
          SetState(k, TCP_ESTABLISHED);
          return Settled(Accept);
        }
        if p.tag.NoTag? || p.tag.id !in up {
          return Optimize;
        } else {
          return Deoptimize;
        }
      }
      if !p.syn && p.ack && !p.fin && p.tag.Tagged? {
        sessions := sessions[k := Zeroed()];
        SetState(k, TCP_ESTABLISHED);
        if p.tag.id in up {
          SaveAcceleratorId(p, p.tag.id);
        } else {
          SaveAcceleratorId(p, local);
        }
        return Deoptimize;
      }
      return Settled(Accept);
    }

    method GiveVerdict(v: Verdict)
      modifies this`verdicts
      ensures verdicts == old(verdicts) + [v]
    {
      verdicts := verdicts + [v];
    }

    method PutBuffer()
      modifies this`returned
      ensures returned == old(returned) + 1
    {
      returned := returned + 1;
    }

    /** The optimizing half of the worker. */
    method OptimizePacket(p: Packet)
      requires p.Key() in sessions
      modifies this`sessions, this`compressed
      ensures sessions ==
        old(sessions)[p.Key() := WithSegment(WithAccelerator(old(sessions)[p.Key()], p, local), p, p.seqno, p.payload)]
      ensures compressed ==
        old(compressed) + if MayCompress(WithAccelerator(old(sessions)[p.Key()], p, local), p, local) then 1 else 0
    {
      hide WithSegment, WithAccelerator, MayCompress;
      SaveAcceleratorId(p, local);
      var d := sessions[p.Key()];
      CompressTest(d, p, local);
      var larger, smaller := d.larger.accelerator, d.smaller.accelerator;
      if ((p.saddr == p.LargerIP() && larger == local && smaller != NO_ID && smaller != local)
          || (p.saddr == p.SmallerIP() && smaller == local && larger != NO_ID && larger != local))
         && d.state == TCP_ESTABLISHED {
        UpdateSeq(p, p.seqno, p.payload);
        compressed := compressed + 1;
      } else {
        UpdateSeq(p, p.seqno, p.payload);
      }
    }

    /**
     The body of the worker for one dequeued packet: the sessions change as specified, the packet gets
     exactly one verdict, and its buffer is given back exactly once, on every path.
     */
    method Work(p: Packet, up: set<Id>)
      modifies this
      ensures sessions == Worked(old(sessions), p, local, up)
      ensures verdicts == old(verdicts) + [if Drops(old(sessions), p, local, up) then Drop else Accept]
      ensures returned == old(returned) + 1
      ensures compressed == old(compressed) + if Compresses(old(sessions), p, local, up) then 1 else 0
    {
      hide WithAccelerator, WithSegment, MayCompress, MayRestore;
      var k := p.Key();
      var inHand := true;
      if k in sessions {
        if !p.syn && p.ack && !p.fin {
          if p.tag.NoTag? || p.tag.id !in up {
            OptimizePacket(p);
          } else if p.tag.id in up {
            SaveAcceleratorId(p, p.tag.id);
            if p.flagged {
              if MayRestore(sessions[k], p, local) {
                if p.payload == 0 {
                  GiveVerdict(Drop);
                  PutBuffer();
                  inHand := false;
                } else {
                  UpdateSeq(p, p.plainSeqno, p.plainPayload);
                }
              }
            } else {
              UpdateSeq(p, p.seqno, p.payload);
            }
          }
        }
        Close(p);
        if inHand {
          GiveVerdict(Accept);
          PutBuffer();
        }
      } else {
        GiveVerdict(Accept);
        PutBuffer();
      }
    }

    /** A reset ends the session; the first FIN marks it closing and the next one ends it. */
    method Close(p: Packet)
      requires p.Key() in sessions
      modifies this`sessions
      ensures var k := p.Key(); var d := old(sessions)[k];
        sessions == if p.rst || (p.fin && d.state == TCP_CLOSING) then old(sessions) - {k}
                    else if p.fin && d.state == TCP_ESTABLISHED then old(sessions)[k := d.(state := TCP_CLOSING)]
                    else old(sessions)
    {
      var k := p.Key();
      var present := true;
      if p.rst {
        sessions := sessions - {k};
        present := false;
      }
      if p.fin && present {
        if sessions[k].state == TCP_ESTABLISHED {
          sessions := sessions[k := sessions[k].(state := TCP_CLOSING)];
        } else if sessions[k].state == TCP_CLOSING {
          sessions := sessions - {k};
        }
      }
    }
  }

  lemma {:induction false} CompressTest(d: Data, p: Packet, local: Id)
    ensures MayCompress(d, p, local) <==>
      && d.state == TCP_ESTABLISHED
      && ((p.saddr == p.LargerIP() && OwnAndOther(d, true, local)) ||
        (p.saddr == p.SmallerIP() && OwnAndOther(d, false, local)))
  {
    hide OwnAndOther;
  }

  // ----- Evidence over whole runs -----

  datatype Event = Fetching(p: Packet, up: set<Id>) | Working(p: Packet, up: set<Id>) | Sweeping

  /** Which ids have arrived from which endpoint of a session, on packets of neighbours verified at the time. */
  type Sightings = set<(bool, Id)>

  datatype World = World(sessions: map<ST.Key, Data>, seen: map<ST.Key, Sightings>)

  function SessionsAfter(s: map<ST.Key, Data>, e: Event, local: Id): map<ST.Key, Data>
  {
    match e
    case Fetching(p, up) => Fetched(s, p, local, up)
    case Working(p, up) => Worked(s, p, local, up)
    case Sweeping => Swept(s)
  }

  function NewSighting(e: Event, k: ST.Key): Sightings
  {
    if !e.Sweeping? && e.p.Key() == k && e.p.Verified(e.up) then {(e.p.FromLarger(), e.p.tag.id)} else {}
  }

  /** Sightings belong to a session from its creation to its end, and do not depend on what the box stores. */
  function SeenAfter(w: World, after: map<ST.Key, Data>, e: Event): map<ST.Key, Sightings>
  {
    map k | k in after :: (if k in w.sessions && k in w.seen then w.seen[k] else {}) + NewSighting(e, k)
  }

  function Next(w: World, e: Event, local: Id): World
  {
    var after := SessionsAfter(w.sessions, e, local);
    World(after, SeenAfter(w, after, e))
  }

  function WorldAfter(es: seq<Event>, local: Id): World
  {
    if es == [] then World(map[], map[]) else Next(WorldAfter(es[..|es| - 1], local), es[|es| - 1], local)
  }

  /** An endpoint's accelerator is unset, this box, or an id seen from that endpoint. */
  predicate Vouched(d: Data, seen: Sightings, local: Id)
  {
    forall side: bool :: var id := Side(d, side).accelerator; id == NO_ID || id == local || (side, id) in seen
  }

  ghost predicate Justified(w: World, local: Id)
  {
    w.seen.Keys == w.sessions.Keys && forall k :: k in w.sessions ==> Vouched(w.sessions[k], w.seen[k], local)
  }

  lemma {:induction false} VouchedMore(d: Data, seen: Sightings, more: Sightings, local: Id)
    requires Vouched(d, seen, local)
    ensures Vouched(d, seen + more, local)
  {
  }

  lemma {:induction false} VouchedSegment(d: Data, p: Packet, seqno: uint32, payload: nat, seen: Sightings, local: Id)
    requires Vouched(d, seen, local)
    ensures Vouched(WithSegment(d, p, seqno, payload), seen, local)
  {
    var d' := WithSegment(d, p, seqno, payload);
    assert forall side: bool :: Side(d', side).accelerator == Side(d, side).accelerator;
  }

  lemma {:induction false} VouchedAccelerator(d: Data, p: Packet, id: Id, seen: Sightings, local: Id)
    requires Vouched(d, seen, local) && (id == local || (p.FromLarger(), id) in seen)
    ensures Vouched(WithAccelerator(d, p, id), seen, local)
  {
    var d', own := WithAccelerator(d, p, id), p.FromLarger();
    assert Side(d', !own) == Side(d, !own) && Side(d', own).accelerator in {id, Side(d, own).accelerator};
    forall side: bool ensures var i := Side(d', side).accelerator; i == NO_ID || i == local || (side, i) in seen {
    }
  }

  lemma {:induction false} VouchedState(d: Data, state: nat, seen: Sightings, local: Id)
    requires Vouched(d, seen, local)
    ensures Vouched(d.(state := state), seen, local)
  {
    assert forall side: bool :: Side(d.(state := state), side) == Side(d, side);
  }

  lemma {:induction false} VouchedNew(seen: Sightings, local: Id)
    ensures Vouched(Zeroed(), seen, local)
  {
  }

  lemma {:induction false} VouchedOpened(d: Data, p: Packet, local: Id, up: set<Id>, state: nat, seen: Sightings)
    requires Vouched(d, seen, local) && (p.Verified(up) ==> (p.FromLarger(), p.tag.id) in seen)
    ensures Vouched(Opened(d, p, local, up, state), seen, local)
  {
    hide Vouched, WithSegment, WithAccelerator;
    var d1 := WithSegment(d, p, p.seqno, p.payload);
    VouchedSegment(d, p, p.seqno, p.payload, seen, local);
    VouchedAccelerator(d1, p, local, seen, local);
    if p.Verified(up) { VouchedAccelerator(d1, p, p.tag.id, seen, local); }
    VouchedState(d1, state, seen, local);
    VouchedState(WithAccelerator(d1, p, local), state, seen, local);
    if p.Verified(up) { VouchedState(WithAccelerator(d1, p, p.tag.id), state, seen, local); }
  }

  lemma {:induction false} VouchedCarried(d: Data, p: Packet, local: Id, up: set<Id>, seen: Sightings)
    requires Vouched(d, seen, local) && (p.Verified(up) ==> (p.FromLarger(), p.tag.id) in seen)
    ensures Vouched(Carried(d, p, local, up), seen, local)
  {
    hide Vouched, WithSegment, WithAccelerator, MayRestore;
    var d1 := WithAccelerator(d, p, if p.Verified(up) then p.tag.id else local);
    VouchedAccelerator(d, p, if p.Verified(up) then p.tag.id else local, seen, local);
    VouchedSegment(d1, p, p.seqno, p.payload, seen, local);
    VouchedSegment(d1, p, p.plainSeqno, p.plainPayload, seen, local);
  }

  lemma {:induction false} VouchedPassed(d: Data, seen: Sightings, local: Id)
    requires Vouched(d, seen, local)
    ensures Vouched(Passed(d), seen, local)
  {
    assert forall side: bool :: Side(Passed(d), side).accelerator == Side(d, side).accelerator;
  }

  /** What a session becomes is vouched for by what has been seen, including the packet at hand. */
  lemma {:induction false} VouchedNext(s: map<ST.Key, Data>, e: Event, local: Id, k: ST.Key, seen: Sightings)
    requires k in SessionsAfter(s, e, local) && (k in s ==> Vouched(s[k], seen, local))
    ensures Vouched(SessionsAfter(s, e, local)[k], seen + NewSighting(e, k), local)
  {
    hide Vouched, Opened, Carried, WithAccelerator, Passed, Dead;
    var more := seen + NewSighting(e, k);
    var d := if k in s then s[k] else Zeroed();
    if k in s { VouchedMore(d, seen, NewSighting(e, k), local); } else { VouchedNew(more, local); }
    match e
    case Sweeping => VouchedPassed(d, more, local);
    case Fetching(p, up) =>
      if p.Key() == k {
        VouchedOpened(d, p, local, up, TCP_SYN_SENT, more);
        VouchedOpened(d, p, local, up, TCP_ESTABLISHED, more);
        var id := if p.Verified(up) then p.tag.id else local;
        VouchedAccelerator(d, p, id, more, local);
        VouchedState(WithAccelerator(d, p, id), TCP_ESTABLISHED, more, local);
      }
    case Working(p, up) =>
      if p.Key() == k {
        VouchedCarried(d, p, local, up, more);
        VouchedState(d, TCP_CLOSING, more, local);
        VouchedState(Carried(d, p, local, up), TCP_CLOSING, more, local);
      }
  }

  /** In every run each accelerator stored for an endpoint is vouched for. */
  lemma {:induction false} AlwaysJustified(es: seq<Event>, local: Id)
    ensures Justified(WorldAfter(es, local), local)
  {
    if es != [] {
      var w, e := WorldAfter(es[..|es| - 1], local), es[|es| - 1];
      AlwaysJustified(es[..|es| - 1], local);
      hide Vouched, SessionsAfter, NewSighting;
      forall k | k in SessionsAfter(w.sessions, e, local)
        ensures Vouched(Next(w, e, local).sessions[k], Next(w, e, local).seen[k], local)
      {
        VouchedNext(w.sessions, e, local, k, if k in w.sessions then w.seen[k] else {});
      }
    }
  }

  /** Event i is a packet of session k from that endpoint, carrying the id of a neighbour verified up. */
  predicate Sighting(e: Event, k: ST.Key, side: bool, id: Id)
  {
    !e.Sweeping? && e.p.Key() == k && e.p.FromLarger() == side && e.p.tag == Tagged(id) && id in e.up
  }

  /** What is noted as seen was seen by the last event or noted before it, and the session still exists. */
  lemma {:induction false} SeenLast(es: seq<Event>, local: Id, k: ST.Key, side: bool, id: Id)
    requires k in WorldAfter(es, local).seen && (side, id) in WorldAfter(es, local).seen[k]
    ensures es != [] && k in WorldAfter(es, local).sessions
    ensures var front := WorldAfter(es[..|es| - 1], local);
      Sighting(es[|es| - 1], k, side, id) || (k in front.seen && (side, id) in front.seen[k])
  {
    hide SessionsAfter;
  }

  /** What is noted as seen was seen: on a packet since which the session has existed without a break. */
  lemma {:induction false} SeenMeansArrived(es: seq<Event>, local: Id, k: ST.Key, side: bool, id: Id) returns (i: nat)
    requires k in WorldAfter(es, local).seen && (side, id) in WorldAfter(es, local).seen[k]
    ensures i < |es| && Sighting(es[i], k, side, id)
    ensures forall j :: i < j <= |es| ==> k in WorldAfter(es[..j], local).sessions
  {
    hide WorldAfter, Sighting;
    SeenLast(es, local, k, side, id);
    var front := es[..|es| - 1];
    assert es[..|es|] == es;
    if Sighting(es[|es| - 1], k, side, id) {
      i := |es| - 1;
    } else {
      i := SeenMeansArrived(front, local, k, side, id);
      forall j | i < j <= |es| ensures k in WorldAfter(es[..j], local).sessions {
        if j < |es| { assert es[..j] == front[..j]; }
      }
    }
  }

  /** The fetcher saw the answer to the session's opening, or a first packet that another box had tagged. */
  predicate Establishes(e: Event, k: ST.Key)
  {
    e.Fetching? && e.p.Key() == k && e.p.tcp && e.p.queued != 0 && e.p.ack && (e.p.syn || (!e.p.fin && e.p.tag.Tagged?))
  }

  lemma {:induction false} EstablishedBefore(s: map<ST.Key, Data>, e: Event, local: Id, k: ST.Key)
    requires k in SessionsAfter(s, e, local) && SessionsAfter(s, e, local)[k].state == TCP_ESTABLISHED &&
      !Establishes(e, k)
    ensures k in s && s[k].state == TCP_ESTABLISHED
  {
  }

  /** A session is established only by such a packet, since which it has existed without a break. */
  lemma {:induction false} EstablishedByHandshake(es: seq<Event>, local: Id, k: ST.Key) returns (i: nat)
    requires k in WorldAfter(es, local).sessions && WorldAfter(es, local).sessions[k].state == TCP_ESTABLISHED
    ensures i < |es| && Establishes(es[i], k)
    ensures forall j :: i < j <= |es| ==> k in WorldAfter(es[..j], local).sessions
  {
    hide SessionsAfter;
    var front, e := es[..|es| - 1], es[|es| - 1];
    assert es[..|es|] == es;
    if Establishes(e, k) {
      i := |es| - 1;
    } else {
      EstablishedBefore(WorldAfter(front, local).sessions, e, local, k);
      i := EstablishedByHandshake(front, local, k);
      forall j | i < j <= |es| ensures k in WorldAfter(es[..j], local).sessions {
        if j < |es| { assert es[..j] == front[..j]; }
      }
    }
  }

  /** The id of another box was seen from the endpoint opposite to the packet's sender. */
  ghost predicate Evidence(w: World, p: Packet, local: Id, own: bool, id: Id)
  {
    && p.saddr == (if own then p.LargerIP() else p.SmallerIP()) && id != NO_ID && id != local
    && p.Key() in w.seen && (!own, id) in w.seen[p.Key()]
  }

  /**
   A box compresses a packet only in an established session, on behalf of an endpoint it accelerates
   itself, and after the id of another box has been seen from the opposite endpoint.
   */
  lemma {:induction false} CompressesOnEvidence(es: seq<Event>, local: Id, p: Packet, up: set<Id>)
    requires Compresses(WorldAfter(es, local).sessions, p, local, up)
    ensures var w := WorldAfter(es, local);
      && w.sessions[p.Key()].state == TCP_ESTABLISHED
      && exists own: bool, id: Id :: Evidence(w, p, local, own, id)
  {
    AlwaysJustified(es, local);
    hide WorldAfter;
    var w := WorldAfter(es, local);
    var d := w.sessions[p.Key()];
    var d1 := WithAccelerator(d, p, local);
    VouchedAccelerator(d, p, local, w.seen[p.Key()], local);
    var own: bool :| p.saddr == (if own then p.LargerIP() else p.SmallerIP()) && OwnAndOther(d1, own, local);
    assert Evidence(w, p, local, own, Side(d1, !own).accelerator);
  }

  // ----- And a box does compress -----

  /** The answer to an opening establishes the session, and so does a first packet that another box tagged. */
  lemma {:induction false} HandshakeEstablishes(s: map<ST.Key, Data>, p: Packet, local: Id, up: set<Id>)
    requires p.tcp && p.queued != 0
    ensures var after := Fetched(s, p, local, up);
      && (p.syn && p.ack && p.Key() in s ==> p.Key() in after && after[p.Key()].state == TCP_ESTABLISHED)
      && (!p.syn && p.ack && !p.fin && p.tag.Tagged? && p.Key() !in s ==>
            p.Key() in after && after[p.Key()].state == TCP_ESTABLISHED)
      && (p.syn && !p.ack ==> p.Key() in after && after[p.Key()].state == TCP_SYN_SENT)
  {
    hide WithSegment, WithAccelerator;
  }

  /** Established, with one side this box's and the other another box's. */
  predicate Accelerated(d: Data, near: bool, local: Id, other: Id)
  {
    d.state == TCP_ESTABLISHED && Side(d, near).accelerator == local && Side(d, !near).accelerator == other
  }

  /** A packet of this box's endpoint: no verified tag. */
  predicate OfNear(p: Packet, up: set<Id>, k: ST.Key, near: bool)
  {
    p.Key() == k && p.FromLarger() == near && !p.Verified(up)
  }

  /** A packet of the other one, tagged by the other box, which is up. */
  predicate OfFar(p: Packet, up: set<Id>, k: ST.Key, near: bool, other: Id)
  {
    p.Key() == k && p.FromLarger() != near && p.tag == Tagged(other) && other in up
  }

  /** What a handshake packet does to the accelerators. */
  lemma {:induction false} OpenedSides(d: Data, p: Packet, local: Id, up: set<Id>, state: nat)
    requires p.LargerIP() != 0 && (p.Verified(up) || p.mss > 60)
    ensures var q := Opened(d, p, local, up, state);
      && q.state == state && Side(q, !p.FromLarger()).accelerator == Side(d, !p.FromLarger()).accelerator
      && Side(q, p.FromLarger()).accelerator == if p.Verified(up) then p.tag.id else local
  {
  }

  lemma {:induction false} KeyAddresses(p: Packet, k: ST.Key)
    requires p.Key() == k
    ensures p.LargerIP() == k.largerIP && p.SmallerIP() == k.smallerIP
    ensures k.largerIP != k.smallerIP ==> p.LargerIP() != 0 && (!p.FromLarger() ==> p.saddr == p.SmallerIP())
  {
  }

  /**
   After any run: the opening of a session and its answer, one from this box's endpoint with a maximum segment size
   over 60 bytes and the other tagged by another box, leave the session accelerated, whichever endpoint opened it.
   */
  lemma {:induction false} HandshakeAccelerates(es: seq<Event>, local: Id, other: Id, syn: Packet, ack: Packet,
        upS: set<Id>, upA: set<Id>, k: ST.Key, near: bool)
    requires k.largerIP != k.smallerIP && syn.tcp && syn.queued != 0 && ack.tcp && ack.queued != 0
    requires syn.syn && !syn.ack && ack.syn && ack.ack
    requires || (OfNear(syn, upS, k, near) && syn.mss > 60 && OfFar(ack, upA, k, near, other))
             || (OfFar(syn, upS, k, near, other) && OfNear(ack, upA, k, near) && ack.mss > 60)
    ensures var after := WorldAfter(es + [Fetching(syn, upS), Fetching(ack, upA)], local).sessions;
      k in after && Accelerated(after[k], near, local, other)
  {
    hide Opened;
    var one, two := es + [Fetching(syn, upS)], es + [Fetching(syn, upS), Fetching(ack, upA)];
    assert one[..|es|] == es && two[..|one|] == one;
    KeyAddresses(syn, k);
    KeyAddresses(ack, k);
    var s := WorldAfter(es, local).sessions;
    var d := if k in s then s[k] else Zeroed();
    OpenedSides(d, syn, local, upS, TCP_SYN_SENT);
    OpenedSides(Opened(d, syn, local, upS, TCP_SYN_SENT), ack, local, upA, TCP_ESTABLISHED);
  }

  /** Data in either direction: neither a reset nor a FIN, and tagged as the handshake was. */
  predicate DataOf(e: Event, k: ST.Key, near: bool, other: Id)
  {
    && e.Working? && e.p.Ordinary() && !e.p.rst
    && (OfNear(e.p, e.up, k, near) || OfFar(e.p, e.up, k, near, other))
  }

  lemma {:induction false} CarriedSides(d: Data, p: Packet, local: Id, up: set<Id>)
    requires p.LargerIP() != 0
    ensures var q := Carried(d, p, local, up);
      && q.state == d.state && Side(q, !p.FromLarger()).accelerator == Side(d, !p.FromLarger()).accelerator
      && Side(q, p.FromLarger()).accelerator == if p.Verified(up) then p.tag.id else local
  {
  }

  /** An accelerated session stays so over any data of its endpoints. */
  lemma {:induction false} StaysAccelerated(es: seq<Event>, tail: seq<Event>, local: Id, other: Id, k: ST.Key,
        near: bool)
    requires k.largerIP != k.smallerIP
    requires var s := WorldAfter(es, local).sessions; k in s && Accelerated(s[k], near, local, other)
    requires forall i :: 0 <= i < |tail| ==> DataOf(tail[i], k, near, other)
    ensures var s := WorldAfter(es + tail, local).sessions; k in s && Accelerated(s[k], near, local, other)
  {
    hide Carried, WorldAfter;
    if tail == [] {
      assert es + tail == es;
    } else {
      var front, e := tail[..|tail| - 1], tail[|tail| - 1];
      StaysAccelerated(es, front, local, other, k, near);
      assert (es + tail)[..|es + tail| - 1] == es + front && (es + tail)[|es + tail| - 1] == e;
      LastEvent(es + tail, local);
      KeyAddresses(e.p, k);
      CarriedSides(WorldAfter(es + front, local).sessions[k], e.p, local, e.up);
    }
  }

  lemma {:induction false} LastEvent(es: seq<Event>, local: Id)
    requires es != []
    ensures WorldAfter(es, local).sessions ==
      SessionsAfter(WorldAfter(es[..|es| - 1], local).sessions, es[|es| - 1], local)
  {
    hide SessionsAfter;
  }

  /** And in an accelerated session every ordinary packet of this box's endpoint is compressed. */
  lemma {:induction false} AcceleratedCompresses(s: map<ST.Key, Data>, p: Packet, local: Id, up: set<Id>, other: Id,
        k: ST.Key, near: bool)
    requires k.largerIP != k.smallerIP && k in s && Accelerated(s[k], near, local, other)
    requires other != NO_ID && other != local && p.Ordinary() && OfNear(p, up, k, near)
    ensures Compresses(s, p, local, up)
  {
    KeyAddresses(p, k);
    var d := WithAccelerator(s[k], p, local);
    assert Side(d, near).accelerator == local && Side(d, !near).accelerator == other && d.state == TCP_ESTABLISHED;
    assert OwnAndOther(d, near, local);
  }

  /** Handshake, then data, then any ordinary packet of this box's endpoint: it is compressed. */
  lemma {:induction false} CompressesAfterHandshake(es: seq<Event>, tail: seq<Event>, local: Id, other: Id, syn: Packet,
        ack: Packet, upS: set<Id>, upA: set<Id>, p: Packet, up: set<Id>, k: ST.Key, near: bool)
    requires k.largerIP != k.smallerIP && other != NO_ID && other != local
    requires syn.tcp && syn.queued != 0 && ack.tcp && ack.queued != 0 && syn.syn && !syn.ack && ack.syn && ack.ack
    requires || (OfNear(syn, upS, k, near) && syn.mss > 60 && OfFar(ack, upA, k, near, other))
             || (OfFar(syn, upS, k, near, other) && OfNear(ack, upA, k, near) && ack.mss > 60)
    requires forall i :: 0 <= i < |tail| ==> DataOf(tail[i], k, near, other)
    requires p.Ordinary() && OfNear(p, up, k, near)
    ensures Compresses(WorldAfter(es + [Fetching(syn, upS), Fetching(ack, upA)] + tail, local).sessions, p, local, up)
  {
    hide WorldAfter, Accelerated, OfNear, OfFar, DataOf, Compresses;
    var open := es + [Fetching(syn, upS), Fetching(ack, upA)];
    HandshakeAccelerates(es, local, other, syn, ack, upS, upA, k, near);
    StaysAccelerated(open, tail, local, other, k, near);
    AcceleratedCompresses(WorldAfter(open + tail, local).sessions, p, local, up, other, k, near);
  }

  /** The fetcher hands a packet to the worker half that does what is to be done with it. */
  lemma {:induction false} RightHalf(s: map<ST.Key, Data>, p: Packet, local: Id, up: set<Id>)
    requires p.tcp && p.queued != 0
    ensures Compresses(s, p, local, up) ==> Disposed(s, p, up) == Optimize
    ensures Drops(s, p, local, up) ==> Disposed(s, p, up) == Deoptimize
    ensures p.Key() in s && p.Ordinary() && p.tag.Tagged? && p.tag.id in up ==> Disposed(s, p, up) == Deoptimize
    ensures p.syn ==> Disposed(s, p, up) == Settled(Accept)
  {
    hide WithAccelerator, MayCompress, MayRestore;
  }

  // ----- How a session ends -----

  /** A session goes with a reset, a FIN when it is closing already, or a pass that finds it dead; with nothing else. */
  lemma {:induction false} GoneIff(s: map<ST.Key, Data>, e: Event, local: Id, k: ST.Key)
    requires k in s
    ensures k !in SessionsAfter(s, e, local) <==>
      || (e.Sweeping? && s[k].deadcounter > 2)
      || (e.Working? && e.p.Key() == k && (e.p.rst || (e.p.fin && s[k].state == TCP_CLOSING)))
  {
    hide WithSegment, WithAccelerator, MayRestore;
  }

  /** Data of a session, from either endpoint, however tagged. */
  predicate Traffic(e: Event, k: ST.Key) { e.Working? && e.p.Key() == k && e.p.Ordinary() && !e.p.rst }

  lemma {:induction false} TrafficKeepsState(es: seq<Event>, tail: seq<Event>, local: Id, k: ST.Key)
    requires k in WorldAfter(es, local).sessions && forall i :: 0 <= i < |tail| ==> Traffic(tail[i], k)
    ensures var s := WorldAfter(es + tail, local).sessions;
      k in s && s[k].state == WorldAfter(es, local).sessions[k].state
  {
    hide WorldAfter, WithSegment, WithAccelerator, MayRestore;
    if tail == [] {
      assert es + tail == es;
    } else {
      var front, e := tail[..|tail| - 1], tail[|tail| - 1];
      TrafficKeepsState(es, front, local, k);
      assert (es + tail)[..|es + tail| - 1] == es + front && (es + tail)[|es + tail| - 1] == e;
      LastEvent(es + tail, local);
      CarriedState(WorldAfter(es + front, local).sessions[k], e.p, local, e.up);
    }
  }

  lemma {:induction false} CarriedState(d: Data, p: Packet, local: Id, up: set<Id>)
    ensures Carried(d, p, local, up).state == d.state
  {
  }

  /** Two FINs end an established session, whatever data comes between them; one does not. */
  lemma {:induction false} TwoFinsEnd(es: seq<Event>, tail: seq<Event>, local: Id, k: ST.Key, f: Event, g: Event)
    requires k in WorldAfter(es, local).sessions && WorldAfter(es, local).sessions[k].state == TCP_ESTABLISHED
    requires f.Working? && f.p.Key() == k && f.p.fin && !f.p.rst && g.Working? && g.p.Key() == k && g.p.fin
    requires forall i :: 0 <= i < |tail| ==> Traffic(tail[i], k)
    ensures k in WorldAfter(es + [f] + tail, local).sessions && k !in WorldAfter(es + [f] + tail + [g], local).sessions
  {
    hide WorldAfter, Carried;
    assert (es + [f])[..|es|] == es;
    LastEvent(es + [f], local);
    TrafficKeepsState(es + [f], tail, local, k);
    var before := es + [f] + tail;
    assert (before + [g])[..|before|] == before;
    LastEvent(before + [g], local);
  }
}
