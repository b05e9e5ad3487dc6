/** Two neighbouring boxes exchanging hellos, as a transition system over every order of events. */
module NeighborProtocol {
  import opened Bytes
  import opened NeighborMessages

  /**
   The periodic hello to one neighbour: a neighbour that is down is tried every 30 seconds, any other is
   greeted every 10; one that is up and silent for more than 30 seconds goes down, and so does one that
   cannot be sent to. The new socket is negative if connecting fails.
   */
  function Hailed(p: Peer, now: int, newSock: int, sendable: bool): Peer
  {
    if p.state == Down && now - p.hello >= 30 then
      var q := p.(hello := now);
      if p.sock != 0 then q.(state := Attempt)
      else if newSock >= 0 then q.(sock := newSock, state := Attempt)
      else q
    else if Greets(p, now) then
      var q := p.(hello := now);
      var q1 := if p.state == Up && now - p.timer > 30 then q.(state := Down, timer := now) else q;
      if sendable then q1 else q1.(state := Down, sock := 0)
    else p
  }

  /** Whether that includes a message. */
  predicate Greets(p: Peer, now: int)
  {
    p.state != Down && now - p.hello >= 10 && p.sock != 0
  }

  /** An incoming connection from the neighbour. */
  function Connected(p: Peer, sock: nat, now: int): Peer
  {
    p.(sock := sock, state := Attempt, timer := now)
  }

  /** A box: its own id and key, and its entry for the other one. */
  datatype Node = Node(local: Id, key: Key, peer: Peer)

  /** A message on its way, with the key it was built with. */
  datatype Sent = Sent(kind: Kind, id: Id, key: Key)

  /** Two boxes, false and true, and what each has sent and the other not yet received. */
  datatype Net = Net(low: Node, high: Node, fromLow: seq<Sent>, fromHigh: seq<Sent>)
  {
    function At(high: bool): Node { if high then this.high else low }

    function From(high: bool): seq<Sent> { if high then fromHigh else fromLow }

    function With(high: bool, n: Node): Net { if high then this.(high := n) else this.(low := n) }

    function WithFrom(high: bool, q: seq<Sent>): Net { if high then this.(fromHigh := q) else this.(fromLow := q) }
  }

  /** What may happen at one of the boxes. */
  datatype Event =
    | Hello(at: bool, now: int, newSock: int, sendable: bool)
    | Receive(at: bool, now: int, i: nat, rest: seq<byte>)
    | Connect(at: bool, sock: nat, now: int)
    | Lose(at: bool)
    | SetKey(at: bool, key: Key)
    | SetNeighborKey(at: bool, key: Key)
    | Discard(at: bool, i: nat)
    | Readd(at: bool, key: Key, now: int, junk: Id)

  function Post(net: Net, from: bool, kind: Kind): Net
  {
    net.WithFrom(from, net.From(from) + [Sent(kind, net.At(from).local, net.At(from).key)])
  }

  /** The bytes in the receive buffer: the message, then whatever was there before. */
  function Buffer(m: Sent, rest: seq<byte>, mac: Mac): seq<byte> { Built(m.kind, m.id, m.key, mac) + rest }

  /**
   Any message on its way can come next, as there may be several connections; the buffer is longer than any message.
   A message to a box that has no entry for the sender is discarded.
   */
  predicate Enabled(net: Net, e: Event)
  {
    && (e.Receive? ==> e.i < |net.From(!e.at)| && |e.rest| >= 32)
    && (e.Discard? ==> e.i < |net.From(!e.at)|)
  }

  lemma {:induction false} BufferComplete(m: Sent, rest: seq<byte>, mac: Mac)
    requires |rest| >= 32
    ensures Complete(Buffer(m, rest, mac)) && IdIn(Buffer(m, rest, mac)) == m.id &&
      KindIn(Buffer(m, rest, mac)) == m.kind.Code()
  {
    hide Message, Complete, IdIn, KindIn;
    AcceptedIff([], m.kind, m.id, m.key, mac, rest);
  }

  function Step(net: Net, e: Event, mac: Mac): Net
    requires Enabled(net, e)
  {
    var n := net.At(e.at);
    match e
    case Hello(at, now, newSock, sendable) =>
      var next := net.With(at, n.(peer := Hailed(n.peer, now, newSock, sendable)));
      if Greets(n.peer, now) && sendable then Post(next, at, HereIAm) else next
    case Receive(at, now, i, rest) =>
      var queue := net.From(!at);
      var m := queue[i];
      var b := Buffer(m, rest, mac);
      BufferComplete(m, rest, mac);
      var next := net.WithFrom(!at, queue[..i] + queue[i + 1..]).With(at, n.(peer := Handled(n.peer, b, mac, now)));
      if Answered(n.peer, b, mac) then Post(next, at, ISeeYou) else next
    case Connect(at, sock, now) => net.With(at, n.(peer := Connected(n.peer, sock, now)))
    case Lose(at) => net.WithFrom(at, [])
    case SetKey(at, key) => net.With(at, n.(key := key))
    case SetNeighborKey(at, key) => net.With(at, n.(peer := n.peer.(key := key)))
    case Discard(at, i) => net.WithFrom(!at, net.From(!at)[..i] + net.From(!at)[i + 1..])
    case Readd(at, key, now, junk) => net.With(at, n.(peer := Added(key, now, junk)))
  }

  /** The entry of a neighbour that was deleted and added again: of the id only the first byte is set. */
  function Added(key: Key, now: int, junk: Id): Peer { Peer(Down, junk[0 := 0], 0, key, now, now) }

  // ----- What every run keeps -----

  /** Everything a box has sent carries its own id. */
  ghost predicate Honest(net: Net, from: bool)
  {
    forall m :: m in net.From(from) ==> m.id == net.At(from).local
  }

  /** A neighbour that is up is known by its own id. */
  predicate Named(net: Net, at: bool)
  {
    net.At(at).peer.state == Up ==> net.At(at).peer.id == net.At(!at).local
  }

  ghost predicate Sound(net: Net) { Honest(net, false) && Honest(net, true) && Named(net, false) && Named(net, true) }

  /** A box has answered only after learning the other's id. */
  ghost predicate Aware(net: Net, from: bool)
  {
    (exists m :: m in net.From(from) && m.kind.ISeeYou?) ==> net.At(from).peer.id == net.At(!from).local
  }

  /** A neighbour that is up knows this box by its id. */
  predicate Mutual(net: Net, at: bool)
  {
    net.At(at).peer.state == Up ==> net.At(!at).peer.id == net.At(at).local
  }

  ghost predicate Agreed(net: Net)
  {
    Sound(net) && Aware(net, false) && Aware(net, true) && Mutual(net, false) && Mutual(net, true)
  }

  /**
   Only a message that passed both checks brings the neighbour up, or changes the stored id of an entry that stays.
   */
  lemma {:induction false} OnlyByAccepted(net: Net, e: Event, mac: Mac, at: bool)
    requires Enabled(net, e)
    ensures var p, q := net.At(at).peer, Step(net, e, mac).At(at).peer;
      ((q.id != p.id && !e.Readd?) || (q.state == Up && p.state != Up)) ==>
        && e.Receive? && e.at == at
        && var b := Buffer(net.From(!at)[e.i], e.rest, mac);
           Complete(b) && Accepted(p.key, b, mac) && q.id == IdIn(b) &&
             (q.state == Up && p.state != Up ==> KindIn(b) == 2)
  {
    hide Built, Accepted, KindIn, IdIn, Complete;
    if e.Receive? { BufferComplete(net.From(!e.at)[e.i], e.rest, mac); }
  }

  /** What is left after a message is taken out. */
  lemma {:induction false} TakenOut(queue: seq<Sent>, i: nat)
    requires i < |queue|
    ensures queue[i] in queue && forall s :: s in queue[..i] + queue[i + 1..] ==> s in queue
  {
  }

  lemma {:induction false} ReceiveSound(net: Net, e: Event, mac: Mac)
    requires Sound(net) && Enabled(net, e) && e.Receive?
    ensures Sound(Step(net, e, mac))
  {
    hide Built, Accepted, KindIn, IdIn, Complete;
    BufferComplete(net.From(!e.at)[e.i], e.rest, mac);
    TakenOut(net.From(!e.at), e.i);
  }

  lemma {:induction false} OtherSound(net: Net, e: Event, mac: Mac)
    requires Sound(net) && Enabled(net, e) && !e.Receive?
    ensures Sound(Step(net, e, mac))
  {
    hide Built, Handled, Answered, Buffer;
    if e.Discard? { TakenOut(net.From(!e.at), e.i); }
  }

  /** Receiving keeps knowledge mutual. */
  lemma {:induction false} ReceiveAgreed(net: Net, e: Event, mac: Mac)
    requires Agreed(net) && Enabled(net, e) && e.Receive?
    ensures Agreed(Step(net, e, mac))
  {
    hide Built, Accepted, KindIn, IdIn, Complete;
    ReceiveSound(net, e, mac);
    BufferComplete(net.From(!e.at)[e.i], e.rest, mac);
    TakenOut(net.From(!e.at), e.i);
  }

  /** So does everything else that keeps the entry. */
  lemma {:induction false} OtherAgreed(net: Net, e: Event, mac: Mac)
    requires Agreed(net) && Enabled(net, e) && !e.Receive? && !e.Readd?
    ensures Agreed(Step(net, e, mac))
  {
    hide Built, Handled, Answered, Buffer;
    OtherSound(net, e, mac);
    if e.Discard? { TakenOut(net.From(!e.at), e.i); }
    hide Sound;
  }

  /** A box that adds its neighbour again has forgotten its id, unless the memory it gets happens to hold it. */
  lemma {:induction false} ReaddForgets(net: Net, e: Event, mac: Mac)
    requires Agreed(net) && e.Readd?
    ensures Mutual(Step(net, e, mac), !e.at) <==>
      net.At(!e.at).peer.state != Up || e.junk[0 := 0] == net.At(!e.at).local
    ensures net.At(!e.at).peer.state == Up && net.At(!e.at).local[0] != 0 ==> !Agreed(Step(net, e, mac))
  {
  }

  function NetAfter(init: Net, es: seq<Event>, mac: Mac): Net
  {
    if es == [] then init else
    var before := NetAfter(init, es[..|es| - 1], mac);
    if Enabled(before, es[|es| - 1]) then Step(before, es[|es| - 1], mac) else before
  }

  /** Both boxes start with nothing sent and the other one down. */
  predicate Initial(net: Net)
  {
    net.fromLow == [] && net.fromHigh == [] && net.low.peer.state == Down && net.high.peer.state == Down
  }

  /** In every run: a neighbour that is up is known by its own id; the boxes keep their ids. */
  lemma {:induction false} UpMeansNamed(init: Net, es: seq<Event>, mac: Mac)
    requires Initial(init)
    ensures var net := NetAfter(init, es, mac);
      && Sound(net) && net.low.local == init.low.local && net.high.local == init.high.local
  {
    if es != [] {
      var before, e := NetAfter(init, es[..|es| - 1], mac), es[|es| - 1];
      UpMeansNamed(init, es[..|es| - 1], mac);
      hide Sound, Handled, Hailed, Answered, Buffer;
      if Enabled(before, e) {
        if e.Receive? { ReceiveSound(before, e, mac); } else { OtherSound(before, e, mac); }
      }
    }
  }

  /** In every run that does not delete a neighbour: one that is up also knows this box. */
  lemma {:induction false} UpMeansKnown(init: Net, es: seq<Event>, mac: Mac)
    requires Initial(init) && forall e :: e in es ==> !e.Readd?
    ensures Agreed(NetAfter(init, es, mac))
  {
    if es != [] {
      var before, e := NetAfter(init, es[..|es| - 1], mac), es[|es| - 1];
      UpMeansKnown(init, es[..|es| - 1], mac);
      hide Agreed, Handled, Hailed, Answered, Buffer;
      if Enabled(before, e) {
        if e.Receive? { ReceiveAgreed(before, e, mac); } else { OtherAgreed(before, e, mac); }
      }
    }
  }

  // ----- Staying up and coming back -----

  /** The box receives the answer of its neighbour, and accepts it. */
  predicate Heard(net: Net, e: Event, mac: Mac, at: bool)
  {
    && e.Receive? && e.at == at && Enabled(net, e)
    && var m := net.From(!at)[e.i];
       BufferComplete(m, e.rest, mac);
       m.kind.ISeeYou? && Accepted(net.At(at).peer.key, Buffer(m, e.rest, mac), mac)
  }

  lemma {:induction false} UpStep(net: Net, e: Event, mac: Mac, at: bool)
    requires Enabled(net, e) && Step(net, e, mac).At(at).peer.state == Up
    ensures var p, q := net.At(at).peer, Step(net, e, mac).At(at).peer;
      (Heard(net, e, mac, at) && q.timer == e.now) || (p.state == Up && q.timer == p.timer)
  {
    hide Built, Accepted, KindIn, IdIn, Complete;
    if e.Receive? { BufferComplete(net.From(!e.at)[e.i], e.rest, mac); }
  }

  /** In every run: a neighbour that is up was heard from, and its timer says when. */
  lemma {:induction false} UpMeansHeard(init: Net, es: seq<Event>, mac: Mac, at: bool) returns (i: nat)
    requires Initial(init) && NetAfter(init, es, mac).At(at).peer.state == Up
    ensures i < |es| && Heard(NetAfter(init, es[..i], mac), es[i], mac, at)
    ensures es[i].now == NetAfter(init, es, mac).At(at).peer.timer
  {
    hide Step, Heard;
    var front, e := es[..|es| - 1], es[|es| - 1];
    var before := NetAfter(init, front, mac);
    if Enabled(before, e) {
      UpStep(before, e, mac, at);
      if Heard(before, e, mac, at) { HeardReceives(before, e, mac, at); }
    }
    if e.Receive? && Heard(before, e, mac, at) && NetAfter(init, es, mac).At(at).peer.timer == e.now {
      i := |es| - 1;
    } else {
      i := UpMeansHeard(init, front, mac, at);
      assert front[..i] == es[..i];
    }
  }

  lemma {:induction false} HeardReceives(net: Net, e: Event, mac: Mac, at: bool)
    requires Heard(net, e, mac, at)
    ensures e.Receive?
  {
  }

  /** After a hello that is due, a neighbour that is still up was heard from in the last 30 seconds. */
  lemma {:induction false} SilentGoesDown(init: Net, es: seq<Event>, mac: Mac, hello: Event) returns (i: nat)
    requires Initial(init) && hello.Hello?
    requires var p := NetAfter(init, es, mac).At(hello.at).peer;
      p.state != Down && p.sock != 0 && hello.now - p.hello >= 10
    requires NetAfter(init, es + [hello], mac).At(hello.at).peer.state == Up
    ensures i < |es| && Heard(NetAfter(init, es[..i], mac), es[i], mac, hello.at) && hello.now - es[i].now <= 30
  {
    hide Heard;
    assert (es + [hello])[..|es|] == es;
    i := UpMeansHeard(init, es, mac, hello.at);
    HeardReceives(NetAfter(init, es[..i], mac), es[i], mac, hello.at);
  }

  /** When a box last tried or greeted its neighbour, or entered it. */
  predicate Tried(e: Event, at: bool, t: int) { e.at == at && ((e.Hello? && e.now == t) || (e.Readd? && e.now == t)) }

  lemma {:induction false} HelloTimer(init: Net, es: seq<Event>, mac: Mac, at: bool)
    ensures var t := NetAfter(init, es, mac).At(at).peer.hello;
      t == init.At(at).peer.hello || exists i :: 0 <= i < |es| && Tried(es[i], at, t)
  {
    if es != [] {
      var front, e := es[..|es| - 1], es[|es| - 1];
      HelloTimer(init, front, mac, at);
      hide Built, Accepted, KindIn, IdIn, Complete;
      var before, t := NetAfter(init, front, mac), NetAfter(init, es, mac).At(at).peer.hello;
      if e.Receive? && Enabled(before, e) { BufferComplete(before.From(!e.at)[e.i], e.rest, mac); }
      if t == before.At(at).peer.hello && t != init.At(at).peer.hello {
        var i :| 0 <= i < |front| && Tried(front[i], at, t);
        assert Tried(es[i], at, t);
      } else if t != before.At(at).peer.hello {
        assert Tried(es[|es| - 1], at, t);
      }
    }
  }

  /** A neighbour that is down and was not tried for 30 seconds is tried at the next hello, if it can be reached. */
  lemma {:induction false} DownIsRetried(init: Net, es: seq<Event>, mac: Mac, hello: Event)
    requires hello.Hello? && NetAfter(init, es, mac).At(hello.at).peer.state == Down
    requires hello.now - init.At(hello.at).peer.hello >= 30
    requires forall i, t :: 0 <= i < |es| && Tried(es[i], hello.at, t) ==> hello.now - t >= 30
    ensures NetAfter(init, es + [hello], mac).At(hello.at).peer.state ==
      if NetAfter(init, es, mac).At(hello.at).peer.sock != 0 || hello.newSock >= 0 then Attempt else Down
  {
    HelloTimer(init, es, mac, hello.at);
    assert (es + [hello])[..|es|] == es;
  }

  /** A hello is sent exactly if one is due and can be sent; one that cannot be sent costs the socket and the state. */
  lemma {:induction false} HelloSent(net: Net, hello: Event, mac: Mac)
    requires hello.Hello?
    ensures var p, after := net.At(hello.at).peer, Step(net, hello, mac);
      var due := p.state != Down && hello.now - p.hello >= 10 && p.sock != 0;
      && (|after.From(hello.at)| > |net.From(hello.at)| <==> due && hello.sendable)
      && (due && !hello.sendable ==> after.At(hello.at).peer.state == Down && after.At(hello.at).peer.sock == 0)
  {
  }

  // ----- Coming up -----

  /**
   With keys that agree, a hello, its receipt and the receipt of the answer bring the neighbour up, known by its id.
   */
  lemma {:induction false} HelloBringsUp(net: Net, at: bool, now: int, newSock: int, there: int, back: int,
        rest: seq<byte>, mac: Mac)
    requires |rest| >= 32 && net.At(at).peer.key == net.At(!at).key && net.At(!at).peer.key == net.At(at).key
    requires var p := net.At(at).peer; p.state != Down && p.sock != 0 && now - p.hello >= 10
    ensures var one := Step(net, Hello(at, now, newSock, true), mac);
      && Enabled(one, Receive(!at, there, |net.From(at)|, rest))
      && var two := Step(one, Receive(!at, there, |net.From(at)|, rest), mac);
      && Enabled(two, Receive(at, back, |net.From(!at)|, rest))
      && var three := Step(two, Receive(at, back, |net.From(!at)|, rest), mac);
      && three.At(at).peer.state == Up && three.At(at).peer.id == net.At(!at).local && three.At(at).peer.timer == back
      && three.At(!at).peer.id == net.At(at).local
  {
    hide Built, Accepted, KindIn, IdIn, Complete, Handled, Answered;
    var one := Step(net, Hello(at, now, newSock, true), mac);
    var m := Sent(HereIAm, net.At(at).local, net.At(at).key);
    assert one.From(at) == net.From(at) + [m] && one.From(at)[|net.From(at)|] == m;
    BufferLong(m, rest, mac);
    SameKeyAccepted(one.At(!at).peer, HereIAm, m.id, mac, there, rest);
    var two := Step(one, Receive(!at, there, |net.From(at)|, rest), mac);
    var a := Sent(ISeeYou, net.At(!at).local, net.At(!at).key);
    assert two.From(!at) == net.From(!at) + [a] && two.From(!at)[|net.From(!at)|] == a;
    BufferLong(a, rest, mac);
    SameKeyAccepted(two.At(at).peer, ISeeYou, a.id, mac, back, rest);
  }

  lemma {:induction false} BufferLong(m: Sent, rest: seq<byte>, mac: Mac)
    requires |rest| >= 32
    ensures |Built(m.kind, m.id, m.key, mac) + rest| >= 48
  {
    hide Message;
  }
}
