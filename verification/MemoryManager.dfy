/** The pool of free packet buffers and the number of buffers allocated. */
module MemoryManager {
  import opened PacketQueue

  /** Adds n new buffers to a queue. */
  method AllocateFreeBuffers(queue: PacketHead, n: nat)
    requires queue.Valid()
    modifies queue, queue.contents
    ensures queue.Valid() && |queue.contents| == |old(queue.contents)| + n
    ensures queue.contents[..|old(queue.contents)|] == old(queue.contents)
    ensures forall i :: |old(queue.contents)| <= i < |queue.contents| ==> fresh(queue.contents[i])
  {
    ghost var before := queue.contents;
    for i := 0 to n
      invariant queue.Valid() && |queue.contents| == |before| + i
      invariant queue.contents[..|before|] == before
      invariant forall j :: |before| <= j < |queue.contents| ==> fresh(queue.contents[j])
    {
      var p := new Packet();
      var _ := queue.Enqueue(p);
    }
  }

  class FreePool {
    const free: PacketHead
    var counted: nat

    ghost predicate Valid()
      reads this, free, free.contents
    {
      free.Valid()
    }

    constructor ()
      ensures Valid() && fresh(free) && free.contents == [] && counted == 0
    {
      free := new PacketHead();
      counted := 0;
    }

    /** The first free buffer, or a new one that is counted; never none. */
    method GetBuffer() returns (p: Packet)
      requires Valid()
      modifies this, free, free.contents
      ensures Valid() && p !in free.contents && p.next == null
      ensures if old(free.contents) != [] then
                p == old(free.contents)[0] && free.contents == old(free.contents)[1..] && counted == old(counted)
              else fresh(p) && free.contents == [] && counted == old(counted) + 1
    {
      if free.qlen > 0 {
        p := free.Dequeue();
      } else {
        p := new Packet();
        counted := counted + 1;
      }
    }

    /** Gives a buffer back; it is the last to be handed out again. */
    method PutBuffer(p: Packet)
      requires Valid() && p !in free.contents && p.next == null
      modifies free, free.contents, p
      ensures Valid() && free.contents == old(free.contents) + [p]
    {
      var _ := free.Enqueue(p);
    }

    /** Stages n new buffers in a queue of its own, then moves them to the pool and counts them. */
    method Refill(n: nat)
      requires Valid() && n > 0
      modifies this, free, free.contents
      ensures Valid() && |free.contents| == |old(free.contents)| + n && counted == old(counted) + n
      ensures free.contents[..|old(free.contents)|] == old(free.contents)
      ensures forall i :: |old(free.contents)| <= i < |free.contents| ==> fresh(free.contents[i])
    {
      var staging := new PacketHead();
      AllocateFreeBuffers(staging, n);
      assert forall p :: p in staging.contents ==> fresh(p);
      var moved := MoveQueued(staging, free);
      counted := counted + moved;
    }
  }
}
