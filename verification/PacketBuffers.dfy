/**
 Packet buffers on their way between the free pool, the fetcher, the workers and the memory
 manager: every lock region is one step, and any interleaving of the threads is a run.
 */
module PacketBuffers {

  const INITIALFREEPACKETBUFFERS: nat := 1000
  const PACKETBUFFERSTOALLOCATE: nat := 100

  type Buf = nat

  /** A buffer and the netfilter id of the packet saved in it. */
  datatype Item = Item(buf: Buf, id: nat)

  /** Where the fetcher is: it saw free buffers, allocated one that is not counted yet, or has one. */
  datatype Fetcher = Resting | SawFree | Uncounted(added: Buf) | Holding(buf: Buf)

  /** What a worker has in hand: nothing, a packet without verdict, or a buffer to give back. */
  datatype Hand = Empty | Working(item: Item) | Judged(buf: Buf)

  datatype Processor = Processor(queue: seq<Item>, hand: Hand)

  /** The memory manager: filling its private queue, carrying its contents, or about to count them. */
  datatype Manager = Staging(left: nat) | Carrying(bufs: seq<Buf>) | Counting(moved: nat)

  datatype State = State(
    pool: seq<Buf>, fetcher: Fetcher, processors: seq<Processor>, manager: Manager, staged: seq<Buf>,
    counted: nat, made: nat, submitted: multiset<nat>, verdicts: multiset<nat>)

  datatype Thing = Buffer(b: Buf) | Packet(id: nat)

  datatype Action =
    | FetchCheck
    | FetchTake
    | FetchCount
    | FetchQueue(to: nat, id: nat)
    | WorkTake(w: nat)
    | WorkVerdict(w: nat)
    | WorkReturn(w: nat)
    | ManageStage
    | ManageTake
    | ManagePut
    | ManageCount

  function Initial(workers: nat): State
  {
    State([], Resting, seq(2 * workers, i => Processor([], Empty)), Staging(INITIALFREEPACKETBUFFERS), [],
          0, 0, multiset{}, multiset{})
  }

  /** Whether a thread is at the step. A worker whose queue is empty waits. */
  predicate Enabled(s: State, a: Action)
  {
    match a
    case FetchCheck => s.fetcher.Resting?
    case FetchTake => s.fetcher.SawFree?
    case FetchCount => s.fetcher.Uncounted?
    case FetchQueue(to, _) => s.fetcher.Holding? && to < |s.processors|
    case WorkTake(w) => w < |s.processors| && s.processors[w].hand.Empty? && s.processors[w].queue != []
    case WorkVerdict(w) => w < |s.processors| && s.processors[w].hand.Working?
    case WorkReturn(w) => w < |s.processors| && s.processors[w].hand.Judged?
    case ManageStage => s.manager.Staging? && s.manager.left > 0
    case ManageTake => s.manager.Staging? && s.manager.left == 0
    case ManagePut => s.manager.Carrying?
    case ManageCount => s.manager.Counting?
  }

  function Step(s: State, a: Action): State
    requires Enabled(s, a)
  {
    match a
    case FetchCheck =>
      if s.pool != [] then s.(fetcher := SawFree) else s.(fetcher := Uncounted(s.made), made := s.made + 1)
    case FetchTake =>
      if s.pool == [] then s.(fetcher := Resting) else s.(fetcher := Holding(s.pool[0]), pool := s.pool[1..])
    case FetchCount => s.(fetcher := Holding(s.fetcher.added), counted := s.counted + 1)
    case FetchQueue(to, id) =>
      var p := s.processors[to];
      s.(fetcher := Resting, processors := s.processors[to := p.(queue := p.queue + [Item(s.fetcher.buf, id)])],
         submitted := s.submitted + multiset{id})
    case WorkTake(w) =>
      var p := s.processors[w];
      s.(processors := s.processors[w := Processor(p.queue[1..], Working(p.queue[0]))])
    case WorkVerdict(w) =>
      var p := s.processors[w];
      s.(processors := s.processors[w := p.(hand := Judged(p.hand.item.buf))],
         verdicts := s.verdicts + multiset{p.hand.item.id})
    case WorkReturn(w) =>
      var p := s.processors[w];
      s.(processors := s.processors[w := p.(hand := Empty)], pool := s.pool + [p.hand.buf])
    case ManageStage =>
      s.(manager := Staging(s.manager.left - 1), staged := s.staged + [s.made], made := s.made + 1)
    case ManageTake => s.(manager := Carrying(s.staged), staged := [])
    case ManagePut => s.(manager := Counting(|s.manager.bufs|), pool := s.pool + s.manager.bufs)
    case ManageCount =>
      s.(manager := Staging(PACKETBUFFERSTOALLOCATE), counted := s.counted + s.manager.moved)
  }

  // ----- Where everything is -----

  function One(t: Thing, u: Thing): nat { if t == u then 1 else 0 }

  function InBuffers(bs: seq<Buf>, t: Thing): nat
  {
    if bs == [] then 0 else InBuffers(bs[..|bs| - 1], t) + One(t, Buffer(bs[|bs| - 1]))
  }

  function InItem(x: Item, t: Thing): nat { One(t, Buffer(x.buf)) + One(t, Packet(x.id)) }

  function InItems(xs: seq<Item>, t: Thing): nat
  {
    if xs == [] then 0 else InItem(xs[0], t) + InItems(xs[1..], t)
  }

  function InHand(h: Hand, t: Thing): nat
  {
    match h
    case Empty => 0
    case Working(x) => InItem(x, t)
    case Judged(b) => One(t, Buffer(b))
  }

  function AtProcessor(p: Processor, t: Thing): nat { InItems(p.queue, t) + InHand(p.hand, t) }

  function AtProcessors(ps: seq<Processor>, t: Thing): nat
  {
    if ps == [] then 0 else AtProcessor(ps[0], t) + AtProcessors(ps[1..], t)
  }

  function AtFetcher(f: Fetcher, t: Thing): nat
  {
    match f
    case Uncounted(b) => One(t, Buffer(b))
    case Holding(b) => One(t, Buffer(b))
    case _ => 0
  }

  function AtManager(m: Manager, t: Thing): nat
  {
    if m.Carrying? then InBuffers(m.bufs, t) else 0
  }

  function Settled(s: State, t: Thing): nat { if t.Packet? then s.verdicts[t.id] else 0 }

  /** How often a buffer is found anywhere, or a packet waiting for a verdict or having one. */
  function Present(s: State, t: Thing): nat
  {
    InBuffers(s.pool, t) + AtFetcher(s.fetcher, t) + AtProcessors(s.processors, t) +
      InBuffers(s.staged, t) + AtManager(s.manager, t) + Settled(s, t)
  }

  /** How often it should be: each buffer ever made once, each packet as often as it was submitted. */
  function Due(s: State, t: Thing): nat
  {
    match t
    case Buffer(b) => if b < s.made then 1 else 0
    case Packet(id) => s.submitted[id]
  }

  /** Buffers that exist and have not been counted yet. */
  function Pending(s: State): nat
  {
    (if s.fetcher.Uncounted? then 1 else 0) + |s.staged| +
    match s.manager
    case Staging(_) => 0
    case Carrying(bufs) => |bufs|
    case Counting(moved) => moved
  }

  function Handful(h: Hand): nat { if h.Empty? then 0 else 1 }

  /** Buffers queued for the workers or in their hands. */
  function AtWork(ps: seq<Processor>): nat
  {
    if ps == [] then 0 else |ps[0].queue| + Handful(ps[0].hand) + AtWork(ps[1..])
  }

  /** Buffers in the pool, with the fetcher and at work. */
  function InUseOrFree(s: State): nat
  {
    |s.pool| + AtWork(s.processors) + if s.fetcher.Uncounted? || s.fetcher.Holding? then 1 else 0
  }

  /**
   The count of buffers is right up to what the threads have yet to add, and so is the number of
   buffers outside the memory manager. A fetcher that saw a free buffer will get one.
   */
  predicate CountsAgree(s: State)
  {
    && s.counted + Pending(s) == s.made
    && InUseOrFree(s) + |s.staged| + (if s.manager.Carrying? then |s.manager.bufs| else 0) == s.made
    && (s.fetcher.SawFree? ==> s.pool != [])
  }

  /** Nothing is lost and nothing is in two places. */
  ghost predicate Conserved(s: State)
  {
    (forall t :: Present(s, t) == Due(s, t)) && CountsAgree(s)
  }

  // ----- Small facts -----

  lemma {:induction false} BuffersSnoc(bs: seq<Buf>, b: Buf, t: Thing)
    ensures InBuffers(bs + [b], t) == InBuffers(bs, t) + One(t, Buffer(b))
  {
    assert (bs + [b])[..|bs|] == bs;
  }

  lemma {:induction false} BuffersConcat(a: seq<Buf>, b: seq<Buf>, t: Thing)
    ensures InBuffers(a + b, t) == InBuffers(a, t) + InBuffers(b, t)
  {
    if b == [] {
      assert a + b == a;
    } else {
      assert (a + b)[..|a + b| - 1] == a + b[..|b| - 1];
      BuffersConcat(a, b[..|b| - 1], t);
    }
  }

  lemma {:induction false} BuffersHead(bs: seq<Buf>, t: Thing)
    requires bs != []
    ensures InBuffers(bs, t) == One(t, Buffer(bs[0])) + InBuffers(bs[1..], t)
  {
    assert bs == [bs[0]] + bs[1..];
    BuffersConcat([bs[0]], bs[1..], t);
    assert [bs[0]][..0] == [];
  }

  lemma {:induction false} ItemsSnoc(xs: seq<Item>, x: Item, t: Thing)
    ensures InItems(xs + [x], t) == InItems(xs, t) + InItem(x, t)
  {
    if xs == [] {
      assert (xs + [x])[1..] == [];
    } else {
      assert (xs + [x])[1..] == xs[1..] + [x];
      ItemsSnoc(xs[1..], x, t);
    }
  }

  /** A processor changes its holdings, the others keep theirs. */
  lemma {:induction false} OneProcessor(ps: seq<Processor>, w: nat, p: Processor, t: Thing)
    requires w < |ps|
    ensures AtProcessors(ps[w := p], t) + AtProcessor(ps[w], t) == AtProcessors(ps, t) + AtProcessor(p, t)
  {
    hide AtProcessor;
    if w > 0 {
      assert ps[w := p][1..] == ps[1..][w - 1 := p];
      OneProcessor(ps[1..], w - 1, p, t);
    } else {
      assert ps[0 := p][1..] == ps[1..];
    }
  }

  lemma {:induction false} NothingYet(n: nat, t: Thing)
    ensures AtProcessors(seq(n, i => Processor([], Empty)), t) == 0
  {
    if n > 0 {
      assert seq(n, i => Processor([], Empty))[1..] == seq(n - 1, i => Processor([], Empty));
      NothingYet(n - 1, t);
    }
  }

  // ----- Every step conserves -----

  /** A step changes what is present of a thing as it changes what is due. */
  ghost predicate Balanced(s: State, a: Action, t: Thing)
    requires Enabled(s, a)
  {
    Present(Step(s, a), t) - Present(s, t) == Due(Step(s, a), t) - Due(s, t)
  }

  lemma {:induction false} FetchBalance(s: State, a: Action, t: Thing)
    requires Enabled(s, a) && (s.fetcher.SawFree? ==> s.pool != []) && (a.FetchCheck? || a.FetchTake? || a.FetchCount?)
    ensures Balanced(s, a, t)
  {
    hide AtProcessors, InBuffers;
    if a.FetchTake? { BuffersHead(s.pool, t); }
  }

  lemma {:induction false} QueueBalance(s: State, to: nat, id: nat, t: Thing)
    requires Enabled(s, FetchQueue(to, id))
    ensures Balanced(s, FetchQueue(to, id), t)
  {
    hide AtProcessors, InBuffers, InItems;
    var p, x := s.processors[to], Item(s.fetcher.buf, id);
    ItemsSnoc(p.queue, x, t);
    OneProcessor(s.processors, to, p.(queue := p.queue + [x]), t);
  }

  lemma {:induction false} WorkBalance(s: State, a: Action, t: Thing)
    requires Enabled(s, a) && (a.WorkTake? || a.WorkVerdict? || a.WorkReturn?)
    ensures Balanced(s, a, t)
  {
    hide AtProcessors, InBuffers;
    OneProcessor(s.processors, a.w, Step(s, a).processors[a.w], t);
    if a.WorkReturn? { BuffersSnoc(s.pool, s.processors[a.w].hand.buf, t); }
  }

  lemma {:induction false} ManageBalance(s: State, a: Action, t: Thing)
    requires Enabled(s, a) && (a.ManageStage? || a.ManageTake? || a.ManagePut? || a.ManageCount?)
    ensures Balanced(s, a, t)
  {
    hide AtProcessors, InBuffers;
    match a
    case ManageStage => BuffersSnoc(s.staged, s.made, t);
    case ManageTake => NoBuffers(t);
    case ManagePut => BuffersConcat(s.pool, s.manager.bufs, t);
    case ManageCount =>
  }

  lemma {:induction false} NoBuffers(t: Thing)
    ensures InBuffers([], t) == 0
  {
  }

  /** The other parts of the invariant. */
  lemma {:induction false} StepCounts(s: State, a: Action)
    requires Enabled(s, a) && CountsAgree(s)
    ensures CountsAgree(Step(s, a))
  {
    hide AtWork;
    match a
    case FetchQueue(to, id) => AtWorkUpdate(s.processors, to, Step(s, a).processors[to]);
    case WorkTake(w) => AtWorkUpdate(s.processors, w, Step(s, a).processors[w]);
    case WorkVerdict(w) => AtWorkUpdate(s.processors, w, Step(s, a).processors[w]);
    case WorkReturn(w) => AtWorkUpdate(s.processors, w, Step(s, a).processors[w]);
    case _ =>
  }

  lemma {:induction false} AtWorkUpdate(ps: seq<Processor>, w: nat, p: Processor)
    requires w < |ps|
    ensures AtWork(ps[w := p]) == AtWork(ps) - |ps[w].queue| - Handful(ps[w].hand) + |p.queue| + Handful(p.hand)
  {
    if w > 0 {
      assert ps[w := p][1..] == ps[1..][w - 1 := p];
      AtWorkUpdate(ps[1..], w - 1, p);
    } else {
      assert ps[0 := p][1..] == ps[1..];
    }
  }

  lemma {:induction false} StepConserves(s: State, a: Action)
    requires Conserved(s) && Enabled(s, a)
    ensures Conserved(Step(s, a))
  {
    hide Enabled, Step, Present, Due, Pending, AtWork;
    StepCounts(s, a);
    forall t ensures Present(Step(s, a), t) == Due(Step(s, a), t) {
      match a
      case FetchQueue(to, id) => QueueBalance(s, to, id, t);
      case WorkTake(_) => WorkBalance(s, a, t);
      case WorkVerdict(_) => WorkBalance(s, a, t);
      case WorkReturn(_) => WorkBalance(s, a, t);
      case FetchCheck => FetchBalance(s, a, t);
      case FetchTake => FetchBalance(s, a, t);
      case FetchCount => FetchBalance(s, a, t);
      case _ => ManageBalance(s, a, t);
    }
  }

  // ----- Whole runs -----

  /** The states of a run, one more than its actions. */
  predicate Run(ss: seq<State>, acts: seq<Action>, workers: nat)
  {
    && |ss| == |acts| + 1 && ss[0] == Initial(workers)
    && forall i :: 0 <= i < |acts| ==> Enabled(ss[i], acts[i]) && ss[i + 1] == Step(ss[i], acts[i])
  }

  /** In every state of every run all buffers and packets are accounted for. */
  lemma {:induction false} AlwaysConserved(ss: seq<State>, acts: seq<Action>, workers: nat, i: nat)
    requires Run(ss, acts, workers) && i < |ss|
    ensures Conserved(ss[i])
  {
    if i == 0 {
      forall t ensures Present(ss[0], t) == Due(ss[0], t) {
        NothingYet(2 * workers, t);
      }
      NoWorkYet(2 * workers);
    } else {
      AlwaysConserved(ss, acts, workers, i - 1);
      hide Conserved, Step;
      StepConserves(ss[i - 1], acts[i - 1]);
    }
  }

  lemma {:induction false} NoWorkYet(n: nat)
    ensures AtWork(seq(n, i => Processor([], Empty))) == 0
  {
    if n > 0 {
      assert seq(n, i => Processor([], Empty))[1..] == seq(n - 1, i => Processor([], Empty));
      NoWorkYet(n - 1);
    }
  }

  /**
   What that means in any state of any run. The fetcher never comes back without a buffer. Between
   the threads' counting steps the count equals the buffers in the pool, queued and in hand. A packet
   submitted once has a verdict exactly when no worker has it waiting, and never two.
   */
  lemma {:induction false} Accounted(ss: seq<State>, acts: seq<Action>, workers: nat, i: nat, id: nat)
    requires Run(ss, acts, workers) && i < |ss|
    ensures var s := ss[i];
      && (Enabled(s, FetchTake) ==> Step(s, FetchTake).fetcher.Holding?)
      && (Pending(s) == 0 ==> s.counted == InUseOrFree(s))
      && (s.submitted[id] == 1 ==> s.verdicts[id] + AtProcessors(s.processors, Packet(id)) == 1)
      && (s.submitted[id] == 0 ==> s.verdicts[id] == 0)
  {
    hide AtProcessors;
    AlwaysConserved(ss, acts, workers, i);
    var s, t := ss[i], Packet(id);
    assert Present(s, t) == Due(s, t);
    OnlyBuffers(s.pool, id);
    OnlyBuffers(s.staged, id);
    if s.manager.Carrying? { OnlyBuffers(s.manager.bufs, id); }
  }

  lemma {:induction false} OnlyBuffers(bs: seq<Buf>, id: nat)
    ensures InBuffers(bs, Packet(id)) == 0
  {
    if bs != [] { OnlyBuffers(bs[..|bs| - 1], id); }
  }

  // ----- Nothing is stuck -----

  predicate Playable(s: State, acts: seq<Action>)
    decreases |acts|
  {
    acts == [] || (Enabled(s, acts[0]) && Playable(Step(s, acts[0]), acts[1..]))
  }

  function Play(s: State, acts: seq<Action>): State
    requires Playable(s, acts)
    decreases |acts|
  {
    if acts == [] then s else Play(Step(s, acts[0]), acts[1..])
  }

  function BufsOf(xs: seq<Item>): seq<Buf> { if xs == [] then [] else [xs[0].buf] + BufsOf(xs[1..]) }

  function IdsOf(xs: seq<Item>): multiset<nat> { if xs == [] then multiset{} else multiset{xs[0].id} + IdsOf(xs[1..]) }

  /** The packets of a processor that wait for a verdict, in their order. */
  function Waiting(p: Processor): seq<Item> { (if p.hand.Working? then [p.hand.item] else []) + p.queue }

  function ToReturn(p: Processor): seq<Buf> { (if p.hand.Judged? then [p.hand.buf] else []) + BufsOf(Waiting(p)) }

  /** A processor that has dealt with everything: each packet judged once, each buffer back in the pool, in order. */
  function Drained(s: State, w: nat): State
    requires w < |s.processors|
  {
    var p := s.processors[w];
    s.(processors := s.processors[w := Processor([], Empty)], pool := s.pool + ToReturn(p),
       verdicts := s.verdicts + IdsOf(Waiting(p)))
  }

  /** What is left to do for a processor. */
  function Effort(p: Processor): nat
  {
    3 * |p.queue| + match p.hand case Empty => 0 case Judged(_) => 1 case Working(_) => 2
  }

  function NextOf(p: Processor, w: nat): Action
  {
    match p.hand case Empty => WorkTake(w) case Working(_) => WorkVerdict(w) case Judged(_) => WorkReturn(w)
  }

  /** A step of a worker brings it nearer to the same end. */
  lemma {:induction false} DrainStep(s: State, w: nat)
    requires w < |s.processors| && Effort(s.processors[w]) > 0
    ensures var a := NextOf(s.processors[w], w);
      && Enabled(s, a) && |Step(s, a).processors| == |s.processors|
      && Effort(Step(s, a).processors[w]) == Effort(s.processors[w]) - 1
      && Drained(Step(s, a), w) == Drained(s, w)
  {
    var p := s.processors[w];
    var a := NextOf(p, w);
    var t := Step(s, a);
    assert t.processors[w := Processor([], Empty)] == s.processors[w := Processor([], Empty)];
    match p.hand
    case Empty =>
      assert Waiting(t.processors[w]) == Waiting(p);
    case Working(x) =>
      assert Waiting(p)[1..] == p.queue && Waiting(t.processors[w]) == p.queue;
    case Judged(b) =>
      assert Waiting(t.processors[w]) == Waiting(p);
      assert t.pool + ToReturn(t.processors[w]) == s.pool + ToReturn(p);
  }

  /**
   Whatever the other threads left, a worker by itself can give every packet it has a verdict and every buffer back.
   */
  lemma {:induction false} WorkerDrains(s: State, w: nat) returns (acts: seq<Action>)
    requires w < |s.processors|
    ensures |acts| == Effort(s.processors[w])
    ensures forall a :: a in acts ==> a in {WorkTake(w), WorkVerdict(w), WorkReturn(w)}
    ensures Playable(s, acts) && Play(s, acts) == Drained(s, w)
    decreases Effort(s.processors[w])
  {
    hide Step, Enabled;
    var p := s.processors[w];
    if Effort(p) == 0 {
      acts := [];
      NothingWaits(s, w);
    } else {
      DrainStep(s, w);
      var rest := WorkerDrains(Step(s, NextOf(p, w)), w);
      acts := [NextOf(p, w)] + rest;
      assert acts[1..] == rest;
    }
  }

  lemma {:induction false} NothingWaits(s: State, w: nat)
    requires w < |s.processors| && Effort(s.processors[w]) == 0
    ensures Drained(s, w) == s
  {
    assert s.processors[w := Processor([], Empty)] == s.processors;
    assert s.pool + [] == s.pool;
  }

  /** A resting fetcher can always get a buffer, free or new, and put a packet at the end of any worker's queue. */
  lemma {:induction false} FetcherDelivers(s: State, to: nat, id: nat) returns (acts: seq<Action>)
    requires CountsAgree(s) && s.fetcher.Resting? && to < |s.processors|
    ensures Playable(s, acts)
    ensures var t := Play(s, acts); var p := s.processors[to];
      && t.fetcher.Resting? && t.submitted == s.submitted + multiset{id} && t.verdicts == s.verdicts
      && exists b :: t.processors == s.processors[to := p.(queue := p.queue + [Item(b, id)])]
  {
    var take := if s.pool != [] then FetchTake else FetchCount;
    acts := [FetchCheck, take, FetchQueue(to, id)];
    var one := Step(s, FetchCheck);
    var two := Step(one, take);
    var three := Step(two, FetchQueue(to, id));
    assert acts[1..] == [take, FetchQueue(to, id)] && acts[1..][1..] == [FetchQueue(to, id)];
    assert [FetchQueue(to, id)][1..] == [];
    assert Playable(three, []) && Play(three, []) == three;
    assert Playable(two, [FetchQueue(to, id)]) && Play(two, [FetchQueue(to, id)]) == three;
    assert Playable(one, acts[1..]) && Play(one, acts[1..]) == three;
    var p := s.processors[to];
    assert three.processors == s.processors[to := p.(queue := p.queue + [Item(two.fetcher.buf, id)])];
  }
}
