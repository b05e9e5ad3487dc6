/** What a session records about its two endpoints, and how segments and cleanup passes change it. */
module SessionData {
  import opened Bytes

  datatype Endpoint = Endpoint(previous: uint32, sequence: uint32, next: uint32, accelerator: Id)

  datatype Data = Data(larger: Endpoint, smaller: Endpoint, deadcounter: nat, state: nat)

  const TCP_ESTABLISHED: nat := 1
  const TCP_SYN_SENT: nat := 2
  const TCP_CLOSING: nat := 11

  function Zeroed(): Data
  {
    var e := Endpoint(0, 0, 0, [0, 0, 0, 0]);
    Data(e, e, 0, 0)
  }

  function Side(d: Data, larger: bool): Endpoint { if larger then d.larger else d.smaller }

  function WithSide(d: Data, larger: bool, e: Endpoint): Data
  {
    if larger then d.(larger := e) else d.(smaller := e)
  }

  /** One less than the last sequence number recorded, and not the number expected next. */
  predicate Keepalive(e: Endpoint, seqno: uint32)
  {
    seqno != e.next && seqno == Add32(e.sequence, -1)
  }

  /**
   A segment of one endpoint recorded: a keepalive leaves no trace, any other moves the endpoint and clears the dead
   counter.
   */
  function Recorded(d: Data, larger: bool, seqno: uint32, advance: int): Data
  {
    var e := Side(d, larger);
    if Keepalive(e, seqno) then d
    else WithSide(d, larger, e.(sequence := seqno, next := Add32(seqno, advance))).(deadcounter := 0)
  }

  /** Some endpoint has not moved since the last cleanup pass. */
  predicate Idle(d: Data)
  {
    d.larger.sequence == d.larger.previous || d.smaller.sequence == d.smaller.previous
  }

  predicate Dead(d: Data) { d.deadcounter > 2 }

  /** A cleanup pass over a session that is not dead; the counter is 8 bits wide. */
  function Passed(d: Data): Data
  {
    Data(d.larger.(previous := d.larger.sequence), d.smaller.(previous := d.smaller.sequence),
         if Idle(d) then (d.deadcounter + 1) % 0x100 else 0, d.state)
  }
}
