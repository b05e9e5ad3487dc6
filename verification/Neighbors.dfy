/** The list of neighbours, and the code that sends, checks and handles their messages. */
module Neighbors {
  import opened Bytes
  import opened NeighborMessages
  import opened NeighborProtocol

  // ----- Messages -----

  method WriteAt(buf: array<byte>, at: nat, d: seq<byte>)
    requires at + |d| <= buf.Length
    modifies buf
    ensures buf[..] == old(buf[..at]) + d + old(buf[at + |d|..])
  {
    for i := 0 to |d|
      invariant forall k :: 0 <= k < buf.Length ==> buf[k] == if at <= k < at + i then d[k - at] else old(buf[k])
    {
      buf[at + i] := d[i];
    }
  }

  /** Builds a message in a blank buffer; the digest comes last, computed with its own field blank. */
  method SendMessage(buf: array<byte>, kind: Kind, local: Id, key: Key, mac: Mac) returns (n: nat)
    requires buf.Length == IPC_MAX_MESSAGE_SIZE && buf[..] == Zeroes(IPC_MAX_MESSAGE_SIZE)
    modifies buf
    ensures n <= buf.Length && buf[..n] == Built(kind, local, key, mac)
  {
    hide Built, Padded, Message, Zeroes;
    var secured := key != [];
    n := 8;
    if secured {
      n := n + 32;
    }
    ghost var z, h := buf[..], n;
    var body := [kind.Code(), 0, 8, 0] + local;
    WriteAt(buf, n, body);
    n := n + 8;
    var head := [1, 0, 1, 0, n, 0, if secured then 1 else 0, 0];
    WriteAt(buf, 0, head);
    Assembled(kind, local, h - 8, z, buf[..]);
    if secured {
      var digest := mac(Padded(key), buf[..n]);
      ghost var b := buf[..];
      WriteAt(buf, 8, digest);
      Signed(kind, local, digest, b, buf[..]);
    }
    BuiltIs(kind, local, key, mac);
  }

  /** Body and header written into a blank buffer make a message with a blank digest, or none. */
  lemma {:induction false} Assembled(kind: Kind, id: Id, d: nat, z: seq<byte>, b: seq<byte>)
    requires (d == 0 || d == 32) && z == Zeroes(IPC_MAX_MESSAGE_SIZE)
    requires var b1 := z[..8 + d] + ([kind.Code(), 0, 8, 0] + id) + z[16 + d..];
      b == [1, 0, 1, 0, 16 + d, 0, d / 32, 0] + b1[8..]
    ensures |b| == IPC_MAX_MESSAGE_SIZE && b[..16 + d] == Message(kind, id, Zeroes(d))
  {
    hide Message, Zeroes;
    Pieces([1, 0, 1, 0, 16 + d, 0, d / 32, 0], [kind.Code(), 0, 8, 0] + id, d, z);
    BlankSlice(d);
    MessageIs(kind, id, d);
  }

  lemma {:induction false} MessageIs(kind: Kind, id: Id, d: nat)
    requires d == 0 || d == 32
    ensures Message(kind, id, Zeroes(d)) ==
      [1, 0, 1, 0, 16 + d, 0, d / 32, 0] + Zeroes(d) + ([kind.Code(), 0, 8, 0] + id)
  {
    hide Zeroes;
    var head, body := [1, 0, 1, 0, 16 + d, 0, d / 32, 0], [kind.Code(), 0, 8, 0];
    assert head + Zeroes(d) + body + id == head + Zeroes(d) + (body + id);
  }

  lemma {:induction false} Pieces(head: seq<byte>, body: seq<byte>, d: nat, z: seq<byte>)
    requires |head| == 8 && |body| == 8 && 16 + d <= |z|
    ensures (head + (z[..8 + d] + body + z[16 + d..])[8..])[..16 + d] == head + z[8..8 + d] + body
    ensures |head + (z[..8 + d] + body + z[16 + d..])[8..]| == |z|
  {
    var b1 := z[..8 + d] + body + z[16 + d..];
    assert b1[8..16 + d] == z[8..8 + d] + body;
    assert (head + b1[8..])[..16 + d] == head + b1[8..16 + d];
  }

  lemma {:induction false} BlankSlice(d: nat)
    requires d <= 32
    ensures Zeroes(IPC_MAX_MESSAGE_SIZE)[8..8 + d] == Zeroes(d)
  {
  }

  lemma {:induction false} Signed(kind: Kind, id: Id, digest: Digest, b: seq<byte>, c: seq<byte>)
    requires |b| == IPC_MAX_MESSAGE_SIZE && b[..48] == Message(kind, id, Zeroes(32)) && c == b[..8] + digest + b[40..]
    ensures c[..48] == Message(kind, id, digest)
  {
    var m, z := Message(kind, id, digest), Message(kind, id, Zeroes(32));
    assert b[..8] == b[..48][..8] && b[40..48] == b[..48][40..];
    assert m[..8] == z[..8] && m[40..] == z[40..] && m[8..40] == digest;
    assert m == m[..8] + m[8..40] + m[40..];
    assert c[..48] == b[..8] + digest + b[40..48];
  }

  lemma {:induction false} BuiltIs(kind: Kind, id: Id, key: Key, mac: Mac)
    ensures Zeroes(0) == []
    ensures Built(kind, id, key, mac) ==
      Message(kind, id, if key == [] then [] else mac(Padded(key), Message(kind, id, Zeroes(32))))
  {
  }

  class Neighbor {
    const ip: uint32
    var next: Neighbor?
    var prev: Neighbor?
    var peer: Peer

    constructor (ip: uint32, peer: Peer)
      ensures this.ip == ip && this.peer == peer && next == null && prev == null
    {
      this.ip, this.peer, next, prev := ip, peer, null, null;
    }

    /** Acts on an accepted message; says whether it is to be answered. */
    method Process(buf: seq<byte>, now: int) returns (answer: bool)
      requires |buf| >= 48
      modifies this`peer
      ensures answer == (KindIn(buf) == 1)
      ensures peer == if KindIn(buf) == 1 then old(peer).(id := IdIn(buf))
                      else if KindIn(buf) == 2 then old(peer).(id := IdIn(buf), state := Up, timer := now)
                      else old(peer)
    {
      answer := false;
      var at := if buf[6] == 1 then 40 else 8;
      var kind := buf[at] + 0x100 * buf[at + 1] as int;
      if kind == 1 {
        answer := true;
        peer := peer.(id := buf[at + 4..at + 8]);
      } else if kind == 2 {
        peer := peer.(id := buf[at + 4..at + 8]);
        peer := peer.(state := Up, timer := now);
      }
    }

    /** Compares the digest with one computed over the buffer with the digest field blanked in place. */
    method CheckHmac(buf: array<byte>, mac: Mac, now: int) returns (r: int, answer: bool)
      requires Complete(buf[..]) && buf[0] == 1 && buf[6] == 1 && peer.key != []
      modifies this`peer, buf
      ensures peer == Handled(old(peer), old(buf[..]), mac, now) && answer == Answered(old(peer), old(buf[..]), mac)
      ensures r == if Accepted(old(peer.key), old(buf[..]), mac) then 0 else -1
    {
      hide Padded;
      ghost var b := buf[..];
      var digest := buf[8..40];
      WriteAt(buf, 8, Zeroes(32));
      assert buf[..] == Blanked(b);
      var expected := mac(Padded(peer.key), buf[..Length(buf[..])]);
      assert Length(buf[..]) == Length(b) && buf[..Length(b)] == Blanked(b)[..Length(b)];
      WriteAt(buf, 8, expected);
      SameBody(b, buf[..]);
      r, answer := -1, false;
      if digest == expected {
        answer := Process(buf[..], now);
        r := 0;
      }
    }

    /** The handler for a message from this neighbour. */
    method Receive(buf: array<byte>, mac: Mac, now: int) returns (r: int, answer: bool)
      requires Complete(buf[..])
      modifies this`peer, buf
      ensures peer == Handled(old(peer), old(buf[..]), mac, now) && answer == Answered(old(peer), old(buf[..]), mac)
      ensures r == if old(buf[0]) == 1 && !Accepted(old(peer.key), old(buf[..]), mac) then -1 else 0
    {
      r, answer := 0, false;
      if buf[0] != 1 {
        return;
      }
      if peer.key == [] {
        if buf[6] != 0 {
          return -1, false;
        }
        answer := Process(buf[..], now);
      } else {
        if buf[6] != 1 {
          return -1, false;
        }
        r, answer := CheckHmac(buf, mac, now);
      }
    }
  }

  lemma {:induction false} SameBody(b: seq<byte>, c: seq<byte>)
    requires |b| == |c| >= 48 && b[..8] == c[..8] && b[40..] == c[40..] && b[6] == 1
    ensures KindIn(b) == KindIn(c) && IdIn(b) == IdIn(c)
  {
    assert b[6] == b[..8][6] && c[6] == c[..8][6];
    assert forall i :: 40 <= i < |b| ==> b[i] == b[40..][i - 40] == c[40..][i - 40] == c[i];
  }

  // ----- The list -----

  ghost predicate Distinct(l: seq<Neighbor>)
  {
    forall i, j :: 0 <= i < j < |l| ==> l[i] != l[j] && l[i].ip != l[j].ip
  }

  /** The ids of neighbours that are up. */
  ghost function IdsUp(l: seq<Neighbor>): set<Id>
    reads l
  {
    set n | n in l && n.peer.state == Up :: n.peer.id
  }

  class NeighborList {
    var next: Neighbor?
    var prev: Neighbor?
    ghost var list: seq<Neighbor>

    /** Both link directions agree with one sequence, which has every address once. */
    ghost predicate Valid()
      reads this, list
    {
      && Distinct(list)
      && (list == [] ==> next == null && prev == null)
      && (list != [] ==>
        next == list[0] && prev == list[|list| - 1] && list[0].prev == null && list[|list| - 1].next == null)
      && (forall i {:trigger list[i].next} :: 0 <= i < |list| - 1 ==> list[i].next == list[i + 1])
      && (forall i {:trigger list[i].prev} :: 0 < i < |list| ==> list[i].prev == list[i - 1])
    }

    constructor ()
      ensures Valid() && list == []
    {
      next, prev, list := null, null, [];
    }

    /** The neighbour with the address, or null. */
    method Find(ip: uint32) returns (n: Neighbor?, ghost i: nat)
      requires Valid()
      ensures n != null ==> i < |list| && list[i] == n && n.ip == ip
      ensures n == null ==> forall m :: m in list ==> m.ip != ip
    {
      n, i := next, 0;
      while n != null
        invariant 0 <= i <= |list|
        invariant if i < |list| then n == list[i] else n == null
        invariant forall j :: 0 <= j < i ==> list[j].ip != ip
        decreases |list| - i
      {
        if n.ip == ip {
          return;
        }
        n := n.next;
        i := i + 1;
      }
    }

    /** Is the id that of a neighbour that is up? */
    method VerifyInDomain(id: Id) returns (r: bool)
      requires Valid()
      ensures r <==> id in IdsUp(list)
    {
      var n := next;
      ghost var i := 0;
      while n != null
        invariant 0 <= i <= |list|
        invariant if i < |list| then n == list[i] else n == null
        invariant forall j :: 0 <= j < i ==> !(list[j].peer.id == id && list[j].peer.state == Up)
        decreases |list| - i
      {
        if n.peer.id == id && n.peer.state == Up {
          assert n in list;
          return true;
        }
        n := n.next;
        i := i + 1;
      }
      return false;
    }

    /** A known address gets the key; an unknown one is added at the end, down, with an id that starts with a zero. */
    method AddOrUpdate(ip: uint32, key: Key, now: int, junk: Id)
      requires Valid()
      modifies this, list
      ensures Valid()
      ensures (exists n :: n in old(list) && n.ip == ip) ==> list == old(list)
      ensures (forall n :: n in old(list) ==> n.ip != ip) ==>
        && |list| == |old(list)| + 1 && list[..|old(list)|] == old(list)
        && var n := list[|old(list)|]; fresh(n) && n.ip == ip && n.peer == Added(key, now, junk)
      ensures forall n :: n in old(list) ==> n.peer == if n.ip == ip then old(n.peer).(key := key) else old(n.peer)
    {
      hide Valid;
      var n, i := Find(ip);
      if n != null {
        SetNeighborKey(n, key);
        return;
      }
      n := new Neighbor(ip, Peer(Down, junk[0 := 0], 0, key, now, now));
      Append(n);
    }

    method SetNeighborKey(n: Neighbor, key: Key)
      requires Valid() && n in list
      modifies n`peer
      ensures Valid() && n.peer == old(n.peer).(key := key) && forall m :: m in list && m.ip == n.ip ==> m == n
    {
      n.peer := n.peer.(key := key);
    }

    method Append(n: Neighbor)
      requires Valid() && n !in list && n.next == null && n.prev == null && forall m :: m in list ==> m.ip != n.ip
      modifies this, list, n
      ensures Valid() && list == old(list) + [n]
      ensures n.peer == old(n.peer) && forall m :: m in old(list) ==> m.peer == old(m.peer)
    {
      if next == null {
        next := n;
        prev := n;
      } else {
        n.prev := prev;
        prev.next := n;
        prev := n;
      }
      list := list + [n];
    }

    /** Unlinks the neighbour with the address, if there is one. */
    method Delete(ip: uint32)
      requires Valid()
      modifies this, list
      ensures Valid()
      ensures (forall n :: n in old(list) ==> n.ip != ip) ==> list == old(list)
      ensures (exists n :: n in old(list) && n.ip == ip) ==>
        exists k :: 0 <= k < |old(list)| && old(list)[k].ip == ip && list == old(list)[..k] + old(list)[k + 1..]
      ensures forall n :: n in old(list) ==> n.peer == old(n.peer)
    {
      var n, i := Find(ip);
      if n != null {
        Unlink(n, i);
      }
    }

    method Unlink(n: Neighbor, ghost k: nat)
      requires Valid() && k < |list| && list[k] == n
      modifies this, list
      ensures Valid() && list == old(list)[..k] + old(list)[k + 1..]
      ensures forall m :: m in old(list) ==> m.peer == old(m.peer)
    {
      if n.prev == null && n.next == null {
        next := null;
        prev := null;
      } else if n.prev == null && n.next != null {
        next := n.next;
        n.next.prev := null;
      } else if n.prev != null && n.next == null {
        prev := n.prev;
        n.prev.next := null;
      } else if n.next != null && n.prev != null {
        n.prev.next := n.next;
        n.next.prev := n.prev;
      }
      list := list[..k] + list[k + 1..];
    }

    /** The periodic hello to every neighbour; connecting and sending are the environment's. */
    method HelloNeighbors(now: int, connect: uint32 -> int, sendable: uint32 -> bool)
      requires Valid()
      modifies list
      ensures Valid() && list == old(list)
      ensures forall n :: n in list ==> n.peer == Hailed(old(n.peer), now, connect(n.ip), sendable(n.ip))
    {
      hide Valid, Hailed;
      var n := First();
      ghost var i := 0;
      while n != null
        invariant Valid() && list == old(list) && 0 <= i <= |list|
        invariant if i < |list| then n == list[i] else n == null
        invariant forall j :: 0 <= j < i ==>
          list[j].peer == Hailed(old(list[j].peer), now, connect(list[j].ip), sendable(list[j].ip))
        invariant forall j :: i <= j < |list| ==> list[j].peer == old(list[j].peer)
        decreases |list| - i
      {
        n := HailAt(n, now, connect, sendable, i);
        i := i + 1;
      }
    }

    method First() returns (n: Neighbor?)
      requires Valid()
      ensures n == if list != [] then list[0] else null
    {
      n := next;
    }

    method HailAt(n: Neighbor, now: int, connect: uint32 -> int, sendable: uint32 -> bool, ghost i: nat)
      returns (m: Neighbor?)
      requires Valid() && i < |list| && list[i] == n
      modifies n`peer
      ensures Valid() && n.peer == Hailed(old(n.peer), now, connect(n.ip), sendable(n.ip))
      ensures m == if i + 1 < |list| then list[i + 1] else null
      ensures forall j :: 0 <= j < |list| && j != i ==> list[j] != n
    {
      Hail(n, now, connect, sendable);
      m := n.next;
    }
  }

  method Hail(n: Neighbor, now: int, connect: uint32 -> int, sendable: uint32 -> bool)
    modifies n`peer
    ensures n.peer == Hailed(old(n.peer), now, connect(n.ip), sendable(n.ip))
  {
    var p := n.peer;
    if p.state == Down && now - p.hello >= 30 {
      p := p.(hello := now);
      if p.sock == 0 {
        var newSock := connect(n.ip);
        if newSock >= 0 {
          p := p.(sock := newSock, state := Attempt);
        }
      } else {
        p := p.(state := Attempt);
      }
    } else if p.state != Down && now - p.hello >= 10 {
      if p.sock != 0 {
        p := p.(hello := now);
        if p.state == Up {
          if now - p.timer > 30 {
            p := p.(state := Down, timer := now);
          }
        }
        if !sendable(n.ip) {
          p := p.(state := Down, sock := 0);
        }
      }
    }
    n.peer := p;
  }
}
