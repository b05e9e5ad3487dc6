/** The life of one session: when the dead counter reaches the point of removal. */
module SessionLife {
  import opened Bytes
  import opened SessionData

  /** What can happen to a session: a cleanup pass over it, or a segment of one of its endpoints. */
  datatype Event = Sweep | Segment(larger: bool, seqno: uint32, advance: nat)

  function After(d: Data, e: Event): Data
  {
    match e
    case Sweep => Passed(d)
    case Segment(larger, seqno, advance) => Recorded(d, larger, seqno, advance)
  }

  /** The record of a new session after the events. */
  function State(es: seq<Event>): Data
  {
    if es == [] then Zeroed() else After(State(es[..|es| - 1]), es[|es| - 1])
  }

  /** No pass has met the session dead, so it is still in the table. */
  predicate Alive(es: seq<Event>)
  {
    es == [] || (Alive(es[..|es| - 1]) && (es[|es| - 1].Sweep? ==> !Dead(State(es[..|es| - 1]))))
  }

  /** Event j gave no sign of life: a pass that saw an endpoint unmoved, or a keepalive. */
  predicate Quiet(es: seq<Event>, j: nat)
    requires j < |es|
  {
    var d := State(es[..j]);
    match es[j]
    case Sweep => Idle(d)
    case Segment(larger, seqno, _) => Keepalive(Side(d, larger), seqno)
  }

  lemma {:induction false} QuietFront(es: seq<Event>)
    requires es != []
    ensures forall j :: 0 <= j < |es| - 1 ==> Quiet(es, j) == Quiet(es[..|es| - 1], j)
  {
    forall j | 0 <= j < |es| - 1 ensures Quiet(es, j) == Quiet(es[..|es| - 1], j) {
      assert es[..|es| - 1][..j] == es[..j];
    }
  }

  /** The position after the last sign of life. */
  function QuietSince(es: seq<Event>): (n: nat)
    ensures n <= |es|
    ensures n > 0 ==> !Quiet(es, n - 1)
    ensures forall j :: n <= j < |es| ==> Quiet(es, j)
  {
    if es == [] then 0
    else if !Quiet(es, |es| - 1) then |es|
    else
      QuietFront(es);
      hide Quiet;
      QuietSince(es[..|es| - 1])
  }

  /** Passes among the events from position n on. */
  function Sweeps(es: seq<Event>, n: nat): nat
    requires n <= |es|
    decreases |es|
  {
    if n == |es| then 0 else Sweeps(es[..|es| - 1], n) + if es[|es| - 1].Sweep? then 1 else 0
  }

  /** The dead counter is the number of passes since the last sign of life, and never exceeds 3. */
  lemma {:induction false} CounterMeaning(es: seq<Event>)
    requires Alive(es)
    ensures State(es).deadcounter == Sweeps(es, QuietSince(es)) <= 3
  {
    if es != [] {
      var front := es[..|es| - 1];
      CounterMeaning(front);
      assert es[..|es| - 1] == front;
    }
  }

  /**
   A pass removes a session exactly when three passes have gone by since its last sign of life:
   each saw an endpoint's sequence unmoved, and only keepalives came in between and since.
   */
  lemma {:induction false} RemovedIff(es: seq<Event>)
    requires Alive(es)
    ensures Dead(State(es)) <==> Sweeps(es, QuietSince(es)) == 3
  {
    CounterMeaning(es);
  }

  /** The position of the last pass of three or fewer. */
  lemma {:induction false} LastSweep(es: seq<Event>, n: nat) returns (i: nat)
    requires n <= |es| && Sweeps(es, n) > 0
    ensures n <= i < |es| && es[i].Sweep? && Sweeps(es[..i], n) == Sweeps(es, n) - 1
  {
    var front := es[..|es| - 1];
    if es[|es| - 1].Sweep? {
      i := |es| - 1;
    } else {
      i := LastSweep(front, n);
      assert front[..i] == es[..i];
    }
  }

  /** The three passes themselves. */
  lemma {:induction false} ThreeQuietSweeps(es: seq<Event>) returns (i: nat, j: nat, k: nat)
    requires Alive(es) && Dead(State(es))
    ensures i < j < k < |es| && es[i].Sweep? && es[j].Sweep? && es[k].Sweep?
    ensures forall e :: i <= e < |es| ==> Quiet(es, e)
  {
    var n := QuietSince(es);
    CounterMeaning(es);
    k := LastSweep(es, n);
    j := LastSweep(es[..k], n);
    i := LastSweep(es[..k][..j], n);
  }

  // ----- Without the counters -----

  /** A pass changes nothing but what the passes use themselves. */
  lemma {:induction false} PassKeeps(d: Data)
    ensures var q := Passed(d);
      && q.larger.(previous := d.larger.previous) == d.larger && q.smaller.(previous := d.smaller.previous) == d.smaller
      && q.state == d.state
  {
  }

  /** What an endpoint's number is compared with at a pass: its number at the last pass, or 0 before the first. */
  lemma {:induction false} PreviousMeaning(es: seq<Event>, i: int, larger: bool)
    requires -1 <= i < |es| && (i >= 0 ==> es[i].Sweep?) && forall m :: i < m < |es| ==> !es[m].Sweep?
    ensures Side(State(es), larger).previous == if i == -1 then 0 else Side(State(es[..i]), larger).sequence
  {
    if es != [] {
      var front := es[..|es| - 1];
      if i == |es| - 1 {
        assert es[..i] == front;
      } else {
        PreviousMeaning(front, i, larger);
        assert i >= 0 ==> front[..i] == es[..i];
      }
    }
  }

  /** A pass is quiet if and only if some endpoint's number is what it was at the last pass. */
  lemma {:induction false} QuietPass(es: seq<Event>, i: nat, j: nat)
    requires i < j < |es| && es[i].Sweep? && es[j].Sweep? && forall m :: i < m < j ==> !es[m].Sweep?
    ensures Quiet(es, j) <==>
      exists larger: bool :: Side(State(es[..j]), larger).sequence == Side(State(es[..i]), larger).sequence
  {
    hide State;
    PreviousMeaning(es[..j], i, true);
    PreviousMeaning(es[..j], i, false);
    assert es[..j][..i] == es[..i];
    EitherSide(State(es[..j]), State(es[..i]));
  }

  /** The first pass is quiet if and only if some endpoint's number is 0, as it was at the start. */
  lemma {:induction false} QuietFirstPass(es: seq<Event>, j: nat)
    requires j < |es| && es[j].Sweep? && forall m :: 0 <= m < j ==> !es[m].Sweep?
    ensures Quiet(es, j) <==> exists larger: bool :: Side(State(es[..j]), larger).sequence == 0
  {
    hide State;
    PreviousMeaning(es[..j], -1, true);
    PreviousMeaning(es[..j], -1, false);
    EitherSide(State(es[..j]), Zeroed());
    assert forall larger: bool :: Side(Zeroed(), larger).sequence == 0;
  }

  lemma {:induction false} EitherSide(d: Data, e: Data)
    ensures (exists larger: bool :: Side(d, larger).sequence == Side(e, larger).sequence) <==>
      d.larger.sequence == e.larger.sequence || d.smaller.sequence == e.smaller.sequence
  {
    assert Side(d, true) == d.larger && Side(e, true) == e.larger;
    assert Side(d, false) == d.smaller && Side(e, false) == e.smaller;
  }

  function Passes(n: nat): seq<Event> { seq(n, i => Sweep) }

  lemma {:induction false} OneMorePass(es: seq<Event>)
    ensures State(es + [Sweep]) == Passed(State(es)) && (Alive(es + [Sweep]) <==> Alive(es) && !Dead(State(es)))
  {
    assert (es + [Sweep])[..|es|] == es;
  }

  /** A session that has not moved since the last pass counts up to its end. */
  lemma {:induction false} CountsUp(es: seq<Event>) returns (n: nat)
    requires Alive(es) && Idle(State(es)) && State(es).deadcounter <= 3
    ensures n + State(es).deadcounter == 3 && Alive(es + Passes(n)) && Dead(State(es + Passes(n)))
    decreases 3 - State(es).deadcounter
  {
    hide Alive, State;
    if State(es).deadcounter == 3 {
      n := 0;
      assert es + Passes(0) == es;
    } else {
      OneMorePass(es);
      n := CountsUp(es + [Sweep]);
      assert es + [Sweep] + Passes(n) == es + Passes(n + 1);
      n := n + 1;
    }
  }

  /** Whatever has happened to a session, with nothing more heard of it four passes at most find it dead. */
  lemma {:induction false} SilentIsRemoved(es: seq<Event>) returns (n: nat)
    requires Alive(es)
    ensures n <= 4 && Alive(es + Passes(n)) && Dead(State(es + Passes(n)))
  {
    CounterMeaning(es);
    hide Alive, State;
    if Dead(State(es)) {
      n := 0;
      assert es + Passes(0) == es;
    } else {
      OneMorePass(es);
      n := CountsUp(es + [Sweep]);
      assert es + [Sweep] + Passes(n) == es + Passes(n + 1);
      n := n + 1;
    }
  }

  // ----- The recorded numbers -----

  /**
   A segment is a sign of life and becomes the last one recorded, unless it probes the byte before the last one recorded
   and is not the one expected; then nothing changes. The other endpoint is untouched.
   */
  lemma {:induction false} SegmentCounts(es: seq<Event>, larger: bool, seqno: uint32, advance: nat)
    ensures var d, q := State(es), State(es + [Segment(larger, seqno, advance)]);
      var e := Side(d, larger);
      if Add32(seqno, 1) == e.sequence && seqno != e.next then q == d
      else
        && Side(q, larger).sequence == seqno && Side(q, larger).next == Add32(seqno, advance)
        && Side(q, !larger) == Side(d, !larger) && q.deadcounter == 0 && q.state == d.state
        && Side(q, larger).previous == e.previous && Side(q, larger).accelerator == e.accelerator
  {
    assert (es + [Segment(larger, seqno, advance)])[..|es|] == es;
  }

  /** Bytes that the segments of an endpoint from position n on advance it by. */
  function Advances(es: seq<Event>, n: nat, larger: bool): nat
    requires n <= |es|
    decreases |es|
  {
    if n == |es| then 0
    else
      var e := es[|es| - 1];
      Advances(es[..|es| - 1], n, larger) + if e.Segment? && e.larger == larger then e.advance else 0
  }

  /** One event moves the expected number of an endpoint by the bytes of its segment in order, or not at all. */
  lemma {:induction false} NextMoves(d: Data, e: Event, larger: bool)
    requires e.Segment? && e.larger == larger ==> e.seqno == Side(d, larger).next
    ensures Side(After(d, e), larger).next ==
      if e.Segment? && e.larger == larger then Add32(Side(d, larger).next, e.advance) else Side(d, larger).next
  {
  }

  lemma {:induction false} Add32Twice(a: uint32, m: nat, n: nat)
    ensures Add32(Add32(a, m), n) == Add32(a, m + n)
  {
  }

  /** Segments in order, however mixed with passes and the other endpoint's, move the expected number by their bytes. */
  lemma {:induction false} InOrder(es: seq<Event>, n: nat, larger: bool)
    requires n <= |es|
    requires forall j :: n <= j < |es| && es[j].Segment? && es[j].larger == larger ==>
      es[j].seqno == Side(State(es[..j]), larger).next
    ensures Side(State(es), larger).next == Add32(Side(State(es[..n]), larger).next, Advances(es, n, larger))
    decreases |es|
  {
    hide After, Side;
    if n == |es| {
      assert es[..n] == es;
    } else {
      var front, e := es[..|es| - 1], es[|es| - 1];
      forall j | n <= j < |front| && front[j].Segment? && front[j].larger == larger
        ensures front[j].seqno == Side(State(front[..j]), larger).next
      {
        assert front[..j] == es[..j];
      }
      InOrder(front, n, larger);
      assert front[..n] == es[..n];
      NextMoves(State(front), e, larger);
      if e.Segment? {
        Add32Twice(Side(State(es[..n]), larger).next, Advances(front, n, larger), e.advance);
      }
    }
  }
}
