/** Messages between neighbouring boxes: how they are built, checked and acted upon. */
module NeighborMessages {
  import opened Bytes

  const IPC_MAX_MESSAGE_SIZE: nat := 1024

  datatype State = Down | Attempt | Established | ShuttingDown | Up

  /** A key as entered: a string of at most 64 characters. The empty one means no security. */
  type Key = k: seq<byte> | |k| <= 64 && forall i :: 0 <= i < |k| ==> k[i] != 0 witness []

  type Digest = d: seq<byte> | |d| == 32 witness seq(32, i => 0)

  /** HMAC-SHA-256, of which only the type matters: key, then data. */
  type Mac = (seq<byte>, seq<byte>) -> Digest

  datatype Kind = HereIAm | ISeeYou
  {
    function Code(): byte { if HereIAm? then 1 else 2 }
  }

  /** What a box knows about a neighbour. */
  datatype Peer = Peer(state: State, id: Id, sock: nat, key: Key, timer: int, hello: int)

  /** A key in its buffer of 64 bytes. */
  function Padded(k: Key): seq<byte> { k + Zeroes(64 - |k|) }

  // ----- Building -----

  /** Header (type, version, length, security mode), digest if any, then the message with the sender's id. */
  function Message(kind: Kind, id: Id, digest: seq<byte>): (m: seq<byte>)
    requires |digest| == 0 || |digest| == 32
    ensures |m| == 16 + |digest|
  {
    [1, 0, 1, 0, 16 + |digest|, 0, |digest| / 32, 0] + digest + [kind.Code(), 0, 8, 0] + id
  }

  /** With a key, the digest covers the message with its own field blank. */
  function Built(kind: Kind, id: Id, key: Key, mac: Mac): (m: seq<byte>)
  {
    Message(kind, id, if key == [] then [] else mac(Padded(key), Message(kind, id, Zeroes(32))))
  }

  // ----- Checking -----

  function Length(b: seq<byte>): nat
    requires |b| >= 48
  {
    b[4] + 0x100 * b[5] as int
  }

  function Blanked(b: seq<byte>): (r: seq<byte>)
    requires |b| >= 48
    ensures |r| == |b|
  {
    b[..8] + Zeroes(32) + b[40..]
  }

  /** The receive buffer holds all of the message its length field announces. */
  predicate Complete(b: seq<byte>) { |b| >= 48 && Length(b) <= |b| }

  /** The mode check against the neighbour's key, and the digest check where the mode demands it. */
  predicate Accepted(key: Key, b: seq<byte>, mac: Mac)
    requires Complete(b)
  {
    b[0] == 1 &&
    if key == [] then b[6] == 0 else b[6] == 1 && b[8..40] == mac(Padded(key), Blanked(b)[..Length(b)])
  }

  function BodyAt(b: seq<byte>): nat
    requires |b| >= 48
  {
    if b[6] == 1 then 40 else 8
  }

  function KindIn(b: seq<byte>): nat
    requires |b| >= 48
  {
    b[BodyAt(b)] + 0x100 * b[BodyAt(b) + 1] as int
  }

  function IdIn(b: seq<byte>): Id
    requires |b| >= 48
  {
    b[BodyAt(b) + 4..BodyAt(b) + 8]
  }

  /** What a received message makes of the neighbour's entry. */
  function Handled(p: Peer, b: seq<byte>, mac: Mac, now: int): Peer
    requires Complete(b)
  {
    if !Accepted(p.key, b, mac) then p
    else if KindIn(b) == 1 then p.(id := IdIn(b))
    else if KindIn(b) == 2 then p.(id := IdIn(b), state := Up, timer := now)
    else p
  }

  /** Whether it is answered. */
  predicate Answered(p: Peer, b: seq<byte>, mac: Mac)
    requires Complete(b)
  {
    Accepted(p.key, b, mac) && KindIn(b) == 1
  }

  // ----- Sender and receiver agree -----

  /** The bytes of a message, wherever its digest puts them. */
  lemma {:induction false} MessageBytes(kind: Kind, id: Id, digest: seq<byte>, rest: seq<byte>)
    requires |digest| == 0 || |digest| == 32
    requires |Message(kind, id, digest) + rest| >= 48
    ensures var b := Message(kind, id, digest) + rest;
      && b[0] == 1 && b[6] == |digest| / 32 && Length(b) == 16 + |digest|
      && BodyAt(b) == 8 + |digest| && KindIn(b) == kind.Code() && IdIn(b) == id
  {
    var m := Message(kind, id, digest);
    var b, at := m + rest, 8 + |digest|;
    assert m[0] == 1 && m[4] == 16 + |digest| && m[5] == 0 && m[6] == |digest| / 32;
    assert m[at] == kind.Code() && m[at + 1] == 0;
    assert forall i :: 0 <= i < 4 ==> b[at + 4 + i] == id[i];
    assert b[at + 4..at + 8] == id;
  }

  lemma {:induction false} DigestBytes(kind: Kind, id: Id, digest: seq<byte>, rest: seq<byte>)
    requires |digest| == 32
    ensures var b := Message(kind, id, digest) + rest;
      |b| >= 48 && b[8..40] == digest && Blanked(b)[..48] == Message(kind, id, Zeroes(32))
  {
    var m, z := Message(kind, id, digest), Message(kind, id, Zeroes(32));
    var b := m + rest;
    assert b[8..40] == digest;
    assert m[..8] == z[..8] && m[40..] == z[40..];
    assert z == z[..8] + Zeroes(32) + z[40..] by { assert z[8..40] == Zeroes(32); }
    assert b[..8] == m[..8] && b[40..48] == m[40..];
    assert Blanked(b)[..48] == b[..8] + Zeroes(32) + b[40..48];
  }

  /**
   A message is accepted exactly when both sides use security or neither does and, if they do, their
   keys give the same digest of it; and it is then read as what was sent.
   */
  lemma {:induction false} AcceptedIff(key: Key, kind: Kind, id: Id, sent: Key, mac: Mac, rest: seq<byte>)
    requires |Built(kind, id, sent, mac) + rest| >= 48
    ensures var b, blank := Built(kind, id, sent, mac) + rest, Message(kind, id, Zeroes(32));
      && Complete(b)
      && (Accepted(key, b, mac) <==>
        (key == [] <==> sent == []) && (sent != [] ==> mac(Padded(key), blank) == mac(Padded(sent), blank)))
      && KindIn(b) == kind.Code() && IdIn(b) == id
  {
    hide Message, Padded, BodyAt;
    var digest := if sent == [] then [] else mac(Padded(sent), Message(kind, id, Zeroes(32)));
    MessageBytes(kind, id, digest, rest);
    if sent != [] { DigestBytes(kind, id, digest, rest); }
  }

  /** With the same key on both sides every message gets through. */
  lemma {:induction false} SameKeyAccepted(p: Peer, kind: Kind, id: Id, mac: Mac, now: int, rest: seq<byte>)
    requires |Built(kind, id, p.key, mac) + rest| >= 48
    ensures var b := Built(kind, id, p.key, mac) + rest;
      && Complete(b)
      && Handled(p, b, mac, now) == (if kind.HereIAm? then p.(id := id) else p.(id := id, state := Up, timer := now))
      && (Answered(p, b, mac) <==> kind.HereIAm?)
  {
    hide Built, KindIn, IdIn, Accepted, Complete;
    AcceptedIff(p.key, kind, id, p.key, mac, rest);
  }
}
