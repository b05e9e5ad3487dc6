/** Packet queues: forward-linked lists whose back pointers go stale, behaving as sequences. */
module PacketQueue {

  class Packet {
    var next: Packet?
    var prev: Packet?

    constructor ()
      ensures next == null && prev == null
    {
      next, prev := null, null;
    }
  }

  class PacketHead {
    var next: Packet?
    var prev: Packet?
    var qlen: nat
    ghost var contents: seq<Packet>

    /**
     The forward chain is the contents; the tail pointer is right while there are any. Nothing is
     said about the packets' own back pointers, nor about the tail pointer of an empty queue:
     dequeuing leaves both stale.
     */
    ghost predicate Valid()
      reads this, contents
    {
      && qlen == |contents|
      && Distinct(contents)
      && (contents == [] ==> next == null)
      && (contents != [] ==> next == contents[0] && prev == contents[|contents| - 1] && prev.next == null)
      && forall i {:trigger contents[i].next} :: 0 <= i < |contents| - 1 ==> contents[i].next == contents[i + 1]
    }

    constructor ()
      ensures Valid() && contents == []
    {
      next, prev, qlen, contents := null, null, 0, [];
    }

    /** Appends a packet that is in no queue; a null packet is refused. */
    method Enqueue(p: Packet?) returns (r: int)
      requires Valid()
      requires p != null ==> p !in contents && p.next == null
      modifies this, contents, p
      ensures Valid()
      ensures p == null ==> r == -1 && contents == old(contents)
      ensures p != null ==> r == 0 && contents == old(contents) + [p]
    {
      if p == null {
        return -1;
      }
      if qlen == 0 {
        next := p;
        prev := p;
      } else {
        p.prev := prev;
        p.prev.next := p;
        prev := p;
      }
      qlen := qlen + 1;
      contents := contents + [p];
      return 0;
    }

    /** Takes the first packet, unlinked and ready to be queued again; null from an empty queue. */
    method Dequeue() returns (p: Packet?)
      requires Valid()
      modifies this, contents
      ensures Valid()
      ensures old(contents) == [] ==> p == null && contents == []
      ensures old(contents) != [] ==>
        p == old(contents)[0] && contents == old(contents)[1..] && p !in contents && p.next == null && p.prev == null
    {
      p := next;
      if p != null {
        next := p.next;
        qlen := qlen - 1;
        p.next := null;
        p.prev := null;
        contents := contents[1..];
      }
    }
  }

  ghost predicate Distinct(s: seq<Packet>)
  {
    forall i, j :: 0 <= i < j < |s| ==> s[i] != s[j]
  }

  lemma {:induction false} DistinctConcat(a: seq<Packet>, b: seq<Packet>)
    requires Distinct(a) && Distinct(b) && forall p :: p in b ==> p !in a
    ensures Distinct(a + b)
  {
    forall i, j | 0 <= i < j < |a + b| ensures (a + b)[i] != (a + b)[j] {
      if i < |a| <= j {
        assert a[i] in a && b[j - |a|] in b;
      }
    }
  }

  /**
   Moves everything from one queue to the end of another. The code reaches through a null
   pointer when it moves nothing onto a queue that holds something, so callers must not do that.
   */
  method MoveQueued(from: PacketHead, to: PacketHead) returns (moved: nat)
    requires from != to && from.Valid() && to.Valid()
    requires forall p :: p in from.contents ==> p !in to.contents
    requires from.contents != [] || to.contents == []
    modifies from, to, from.contents, to.contents
    ensures from.Valid() && to.Valid() && from.contents == []
    ensures to.contents == old(to.contents) + old(from.contents)
    ensures moved == |old(from.contents)|
  {
    var start, end, n := from.next, from.prev, from.qlen;
    ghost var xs, ys := from.contents, to.contents;
    DistinctConcat(ys, xs);
    assert xs != [] ==> end in xs && end !in ys;
    from.next, from.prev, from.qlen, from.contents := null, null, 0, [];
    if to.next == null {
      to.next, to.prev, to.qlen := start, end, n;
    } else {
      start.prev := to.prev;
      to.prev.next := start;
      to.prev := end;
      to.qlen := to.qlen + n;
    }
    to.contents := to.contents + xs;
    moved := n;
  }
}
