/** The session hash table: 65536 doubly linked buckets that behave as one finite map. */
module SessionTable {
  import opened Bytes
  import SD = SessionData

  const SESSIONBUCKETS: nat := 65536
  const MAXWORKERS: nat := 255

  datatype Key = Key(largerIP: uint32, largerPort: uint16, smallerIP: uint32, smallerPort: uint16)

  /**
   The hash as the code calls it: addresses and ports in another order than the function
   declares them, so the smaller address is cut to 16 bits and the larger port widened.
   */
  function SessionHash(k: Key): (h: nat)
    ensures h < SESSIONBUCKETS
  {
    var mixed := Xor(k.largerIP, k.largerPort);
    var hash3 := Xor(mixed / 0x1_0000 % 0x1_0000, mixed % 0x1_0000);
    var hash4 := Xor(k.smallerIP % 0x1_0000, k.smallerPort);
    Xor(hash3, hash4) % 0x1_0000
  }

  /** Connections that differ only in the port of the smaller address are never in one bucket. */
  lemma {:induction false} PortsSpread(k: Key, port: uint16)
    requires port != k.smallerPort
    ensures SessionHash(k.(smallerPort := port)) != SessionHash(k)
  {
    hide Xor;
    var mixed := Xor(k.largerIP, k.largerPort);
    var hash3 := Xor(mixed / 0x1_0000 % 0x1_0000, mixed % 0x1_0000);
    var low := k.smallerIP % 0x1_0000;
    Pow2Values();
    XorSmall(mixed / 0x1_0000 % 0x1_0000, mixed % 0x1_0000, 16);
    XorSmall(low, port, 16);
    XorSmall(low, k.smallerPort, 16);
    XorSmall(hash3, Xor(low, port), 16);
    XorSmall(hash3, Xor(low, k.smallerPort), 16);
    if SessionHash(k.(smallerPort := port)) == SessionHash(k) {
      XorInjective(hash3, Xor(low, port), Xor(low, k.smallerPort));
      XorInjective(low, port, k.smallerPort);
    }
  }

  /** The endpoint with the larger address first; the destination when they are equal. */
  function SortSockets(saddr: uint32, source: uint16, daddr: uint32, dest: uint16): Key
  {
    if saddr > daddr then Key(saddr, source, daddr, dest) else Key(daddr, dest, saddr, source)
  }

  /** Both directions of a connection have the same key exactly when the addresses differ or the ports agree. */
  lemma {:induction false} BothDirections(saddr: uint32, source: uint16, daddr: uint32, dest: uint16)
    ensures SortSockets(saddr, source, daddr, dest) == SortSockets(daddr, dest, saddr, source) <==>
            saddr != daddr || source == dest
  {
  }

  /** Two connections share a key exactly when they are the same, or each other's other direction and one of those. */
  lemma {:induction false} SameKeyIff(a: uint32, p: uint16, b: uint32, q: uint16, c: uint32, r: uint16, d: uint32,
        s: uint16)
    ensures SortSockets(a, p, b, q) == SortSockets(c, r, d, s) <==>
            (a, p, b, q) == (c, r, d, s) || ((a, p, b, q) == (d, s, c, r) && (a != b || p == q))
  {
  }

  /** Two ports on one address: the two directions of a connection get different keys. */
  lemma {:induction false} OneAddressTwoKeys(addr: uint32)
    ensures SortSockets(addr, 1, addr, 2) != SortSockets(addr, 2, addr, 1)
  {
    BothDirections(addr, 1, addr, 2);
  }

  class Session {
    const head: SessionHead
    const key: Key
    const queue: nat
    var next: Session?
    var prev: Session?
    var data: SD.Data

    constructor (head: SessionHead, key: Key, queue: nat)
      ensures this.head == head && this.key == key && this.queue == queue
      ensures next == null && prev == null && data == SD.Zeroed()
    {
      this.head, this.key, this.queue := head, key, queue;
      next, prev, data := null, null, SD.Zeroed();
    }
  }

  ghost predicate Distinct(s: seq<Session>)
  {
    forall i, j :: 0 <= i < j < |s| ==> s[i] != s[j]
  }

  /** The list without the sessions of a set, in order. */
  ghost function Without(l: seq<Session>, gone: set<Session>): seq<Session>
  {
    if l == [] then []
    else if l[0] in gone then Without(l[1..], gone)
    else [l[0]] + Without(l[1..], gone)
  }

  lemma {:induction false} WithoutMembers(l: seq<Session>, gone: set<Session>)
    ensures forall t :: t in Without(l, gone) <==> t in l && t !in gone
  {
    if l != [] { WithoutMembers(l[1..], gone); }
  }

  lemma {:induction false} WithoutNone(l: seq<Session>, gone: set<Session>)
    requires forall t :: t in l ==> t !in gone
    ensures Without(l, gone) == l
  {
    if l != [] { WithoutNone(l[1..], gone); }
  }

  lemma {:induction false} WithoutConcat(l: seq<Session>, m: seq<Session>, gone: set<Session>)
    ensures Without(l + m, gone) == Without(l, gone) + Without(m, gone)
  {
    if l == [] {
      assert l + m == m;
    } else {
      assert (l + m)[1..] == l[1..] + m;
      WithoutConcat(l[1..], m, gone);
    }
  }

  /** Taking one position out of a list of distinct sessions removes exactly that session. */
  lemma {:induction false} WithoutOne(l: seq<Session>, k: nat)
    requires Distinct(l) && k < |l|
    ensures Without(l, {l[k]}) == l[..k] + l[k + 1..]
  {
    assert l == l[..k] + ([l[k]] + l[k + 1..]);
    WithoutConcat(l[..k], [l[k]] + l[k + 1..], {l[k]});
    WithoutNone(l[..k], {l[k]});
    WithoutNone(l[k + 1..], {l[k]});
    assert ([l[k]] + l[k + 1..])[1..] == l[k + 1..];
  }

  class SessionHead {
    var next: Session?
    var prev: Session?
    var qlen: nat
    ghost var list: seq<Session>

    /** Both link directions, both end pointers and the length agree with one sequence. */
    ghost predicate Valid()
      reads this, list
    {
      && qlen == |list|
      && Distinct(list)
      && (list == [] ==> next == null && prev == null)
      && (list != [] ==>
        next == list[0] && prev == list[|list| - 1] && list[0].prev == null && list[|list| - 1].next == null)
      && (forall i {:trigger list[i].next} :: 0 <= i < |list| - 1 ==> list[i].next == list[i + 1])
      && (forall i {:trigger list[i].prev} :: 0 < i < |list| ==> list[i].prev == list[i - 1])
    }

    constructor ()
      ensures Valid() && list == []
    {
      next, prev, qlen, list := null, null, 0, [];
    }

    /** Links a new session behind the last one. */
    method Append(s: Session)
      requires Valid() && s !in list && s.next == null && s.prev == null
      modifies this, list, s
      ensures Valid() && list == old(list) + [s]
      ensures s.data == old(s.data) && forall t :: t in old(list) ==> t.data == old(t.data)
    {
      if qlen == 0 {
        next := s;
        prev := s;
      } else {
        s.prev := prev;
        s.prev.next := s;
        prev := s;
      }
      qlen := qlen + 1;
      list := list + [s];
    }

    /** The first session with the key, or null. */
    method Find(key: Key) returns (s: Session?)
      requires Valid()
      ensures s != null ==> s in list && s.key == key
      ensures s == null ==> forall t :: t in list ==> t.key != key
    {
      s := next;
      ghost var i := 0;
      while s != null
        invariant 0 <= i <= |list|
        invariant if i < |list| then s == list[i] else s == null
        invariant forall j :: 0 <= j < i ==> list[j].key != key
        decreases |list| - i
      {
        if s.key == key {
          return;
        }
        s := s.next;
        i := i + 1;
      }
    }

    /** Unlinks a session: only, first, last or in the middle. */
    method Remove(s: Session, ghost k: nat)
      requires Valid() && k < |list| && list[k] == s
      modifies this, list
      ensures Valid() && list == old(list)[..k] + old(list)[k + 1..]
      ensures s.next == old(s.next) && s.prev == old(s.prev)
      ensures forall t :: t in old(list) ==> t.data == old(t.data)
    {
      if s.next == null && s.prev == null {
        next := null;
        prev := null;
      }
      if s.next != null && s.prev == null {
        s.next.prev := null;
        next := s.next;
      }
      if s.next == null && s.prev != null {
        s.prev.next := null;
        prev := s.prev;
      }
      if s.next != null && s.prev != null {
        s.prev.next := s.next;
        s.next.prev := s.prev;
      }
      qlen := qlen - 1;
      list := list[..k] + list[k + 1..];
    }
  }

  /** Frees every session of a bucket exactly once, each after the walk has moved past it. */
  method FreeSessions(b: SessionHead) returns (ghost freed: seq<Session>)
    requires b.Valid()
    modifies b, b.list
    ensures b.next == null && b.prev == null && freed == old(b.list)
  {
    freed := [];
    if b.next != null {
      var cur := b.next;
      ghost var l, i := b.list, 0;
      while b.next != null
        invariant b.list == l && 0 <= i < |l| && Distinct(l)
        invariant b.next != null ==> cur == l[i] && freed == l[..if i == 0 then 0 else i - 1]
        invariant b.next == null ==> b.prev == null && freed == l
        invariant b.next != null ==> (i == 0 ==> cur.prev == null) && (i > 0 ==> cur.prev == l[i - 1])
        invariant forall j {:trigger l[j].prev} :: i < j < |l| ==> l[j].prev == l[j - 1]
        invariant forall j {:trigger l[j].next} :: i <= j < |l| ==> l[j].next == if j + 1 < |l| then l[j + 1] else null
        decreases if b.next != null then |l| - i else 0
      {
        if cur.prev != null {
          freed := freed + [cur.prev];
          cur.prev := null;
        }
        if cur.next != null {
          cur := cur.next;
          i := i + 1;
        } else {
          freed := freed + [cur];
          b.next := null;
          b.prev := null;
        }
      }
    }
  }

  // ----- Load accounting -----

  /** Sessions of the table that are assigned to worker w. */
  ghost function Load(entries: map<Key, Session>, w: nat): nat
  {
    |set k | k in entries && entries[k].queue == w|
  }

  lemma {:induction false} LoadInsert(entries: map<Key, Session>, k: Key, s: Session, w: nat)
    requires k !in entries
    ensures Load(entries[k := s], w) == Load(entries, w) + if s.queue == w then 1 else 0
  {
    var more := entries[k := s];
    var before, after := set j | j in entries && entries[j].queue == w, set j | j in more && more[j].queue == w;
    assert after == before + if s.queue == w then {k} else {};
  }

  lemma {:induction false} LoadRemove(entries: map<Key, Session>, k: Key, w: nat)
    requires k in entries
    ensures Load(entries, w) == Load(entries - {k}, w) + if entries[k].queue == w then 1 else 0
  {
    var less := entries - {k};
    var before, after := set j | j in entries && entries[j].queue == w, set j | j in less && less[j].queue == w;
    assert before == after + if entries[k].queue == w then {k} else {};
  }

  /** The first of the least loaded workers. */
  predicate LeastLoaded(c: seq<nat>, n: nat, q: nat)
    requires n <= |c|
  {
    q < n && (forall w :: 0 <= w < n ==> c[q] <= c[w]) && forall w :: 0 <= w < q ==> c[q] < c[w]
  }

  /** One more session for worker q. */
  function Bumped(c: seq<nat>, q: nat): seq<nat>
  {
    if q < |c| then c[q := c[q] + 1] else c
  }

  /** The counters of n workers after inserts that went to the given workers one after another. */
  function Counters(n: nat, picks: seq<nat>): (c: seq<nat>)
    ensures |c| == n
  {
    if picks == [] then seq(n, w => 0) else Bumped(Counters(n, picks[..|picks| - 1]), picks[|picks| - 1])
  }

  /** Every insert went to the first of the workers least loaded at that time. */
  predicate LeastLoadedPicks(n: nat, picks: seq<nat>)
  {
    picks == [] ||
    (var front, q := picks[..|picks| - 1], picks[|picks| - 1];
     LeastLoadedPicks(n, front) && LeastLoaded(Counters(n, front), n, q))
  }

  /** Everyone has had full rounds, and the first rest workers one session more. */
  predicate Shares(c: seq<nat>, n: nat, full: nat, rest: nat)
    requires n <= |c|
  {
    rest < n && forall w :: 0 <= w < n ==> c[w] == full + if w < rest then 1 else 0
  }

  lemma {:induction false} NextInTurn(b: seq<nat>, n: nat, q: nat, full: nat, rest: nat)
    requires n <= |b| && Shares(b, n, full, rest) && LeastLoaded(b, n, q)
    ensures q == rest
    ensures if rest + 1 < n then Shares(Bumped(b, q), n, full, rest + 1) else Shares(Bumped(b, q), n, full + 1, 0)
  {
    assert b[rest] == full;
    assert b[q] <= b[rest];
  }

  lemma {:induction false} DivNext(m: nat, n: nat)
    requires n > 0
    ensures if m % n + 1 < n then (m + 1) / n == m / n && (m + 1) % n == m % n + 1
            else (m + 1) / n == m / n + 1 && (m + 1) % n == 0
  {
    var full, rest := m / n, m % n;
    assert m == n * full + rest;
    if rest + 1 < n {
      Quotient(m + 1, n, full, rest + 1);
    } else {
      assert n * (full + 1) == n * full + n;
      Quotient(m + 1, n, full + 1, 0);
    }
  }

  lemma {:induction false} Quotient(a: nat, d: nat, q: nat, r: nat)
    requires 0 <= r < d && a == d * q + r
    ensures a / d == q && a % d == r
  {
    RemainderUnique(a, d, q, r);
    var e := a / d;
    assert d * e == d * q;
  }

  /** The share of each worker after m sessions dealt in turn. */
  predicate Dealt(c: seq<nat>, n: nat, m: nat)
    requires 1 <= n <= |c|
  {
    Shares(c, n, m / n, m % n)
  }

  lemma {:induction false} DealtNext(b: seq<nat>, n: nat, q: nat, m: nat)
    requires 1 <= n <= |b| && Dealt(b, n, m) && LeastLoaded(b, n, q)
    ensures Dealt(Bumped(b, q), n, m + 1)
  {
    hide Bumped, LeastLoaded, Shares;
    NextInTurn(b, n, q, m / n, m % n);
    DivNext(m, n);
  }

  /** Inserts alone serve the workers in turn: each has its share, rounded up for the first ones. */
  lemma {:induction false} ServedInTurn(n: nat, picks: seq<nat>)
    requires n >= 1 && LeastLoadedPicks(n, picks)
    ensures Dealt(Counters(n, picks), n, |picks|)
  {
    hide Bumped, LeastLoaded, Dealt;
    if picks == [] {
      DealtNone(n);
    } else {
      var front := picks[..|picks| - 1];
      ServedInTurn(n, front);
      DealtNext(Counters(n, front), n, picks[|picks| - 1], |front|);
    }
  }

  lemma {:induction false} DealtNone(n: nat)
    requires n >= 1
    ensures Dealt(seq(n, w => 0), n, 0)
  {
    Quotient(0, n, 0, 0);
  }

  lemma {:induction false} LoadsWithinOne(n: nat, picks: seq<nat>, v: nat, w: nat)
    requires v < n && w < n && LeastLoadedPicks(n, picks)
    ensures Counters(n, picks)[v] <= Counters(n, picks)[w] + 1
  {
    ServedInTurn(n, picks);
  }

  // ----- The table -----

  class Table {
    const buckets: seq<SessionHead>
    const workers: nat
    const counters: array<nat>
    ghost var entries: map<Key, Session>
    ghost var all: set<Session>

    constructor (workers: nat)
      requires 1 <= workers <= MAXWORKERS
      ensures Valid() && entries == map[] && all == {} && this.workers == workers
      ensures fresh(counters) && fresh(buckets)
    {
      var heads := BuildBuckets();
      this.workers := workers;
      buckets := heads;
      counters := new nat[MAXWORKERS](_ => 0);
      entries, all := map[], {};
    }

    /** Bucket i is linked correctly, and its sessions belong there and are the entries of their keys. */
    ghost predicate BucketOk(i: nat)
      requires i < |buckets|
      reads this, buckets, all
    {
      && (forall s :: s in buckets[i].list ==> s in all)
      && buckets[i].Valid()
      && forall s :: s in buckets[i].list ==> Belongs(s, i)
    }

    ghost predicate Belongs(s: Session, i: nat)
      requires i < |buckets|
      reads this
    {
      && s.head == buckets[i] && SessionHash(s.key) == i
      && s.key in entries && entries[s.key] == s
    }

    /** The buckets represent the map entries: one session per key, each in the bucket of its hash. */
    ghost predicate Linked()
      reads this, buckets, all
    {
      && |buckets| == SESSIONBUCKETS
      && (forall i, j :: 0 <= i < j < |buckets| ==> buckets[i] != buckets[j])
      && (forall i :: 0 <= i < |buckets| ==> BucketOk(i))
      && (forall k :: k in entries ==> Placed(k))
      && (forall s :: s in all ==> s.key in entries && entries[s.key] == s)
    }

    ghost predicate Placed(k: Key)
      requires |buckets| == SESSIONBUCKETS && k in entries
      reads this, buckets
    {
      entries[k].key == k && entries[k].queue < workers && entries[k] in buckets[SessionHash(k)].list
    }

    /** Every worker's counter is the number of its sessions. */
    ghost predicate Valid()
      reads this, buckets, all, counters
    {
      && Linked()
      && 1 <= workers <= MAXWORKERS == counters.Length
      && forall w :: 0 <= w < workers ==> counters[w] == Load(entries, w)
    }

    /** The record of every session. */
    ghost function Records(): map<Session, SD.Data>
      reads this, all
    {
      map s | s in all :: s.data
    }

    /** The map's entry, or null. */
    method GetSession(k: Key) returns (s: Session?)
      requires Valid()
      ensures s == if k in entries then entries[k] else null
      ensures s != null ==> s.key == k
    {
      hide SessionHash;
      var b := buckets[SessionHash(k)];
      assert BucketOk(SessionHash(k));
      s := b.Find(k);
    }

    /** Which worker takes the next session: the first of the least loaded. */
    method PickWorker() returns (q: nat)
      requires Valid()
      ensures LeastLoaded(counters[..], workers, q)
    {
      q := 0;
      for i := 0 to workers
        invariant q < workers && q <= i
        invariant forall w :: 0 <= w < i ==> counters[q] <= counters[w]
        invariant forall w :: 0 <= w < q ==> counters[q] < counters[w]
      {
        if counters[q] > counters[i] {
          q := i;
        }
      }
    }

    twostate predicate SessionKept(t: Session)
      reads t
    {
      t.next == old(t.next) && t.prev == old(t.prev)
    }

    twostate predicate HeadKept(b: SessionHead)
      reads b
    {
      b.next == old(b.next) && b.prev == old(b.prev) && b.qlen == old(b.qlen) && b.list == old(b.list)
    }

    /** The buckets other than h are still in order if their heads and their sessions stayed as they were. */
    twostate lemma OthersKept(h: nat)
      requires h < |buckets| && old(Linked())
      requires forall i :: 0 <= i < |buckets| && i != h ==> HeadKept(buckets[i])
      requires forall t :: t in old(all) && t.head != buckets[h] ==>
        t in all && SessionKept(t) && t.key in entries && entries[t.key] == t
      ensures forall i :: 0 <= i < |buckets| && i != h ==> BucketOk(i)
    {
      hide SessionHash;
      forall i | 0 <= i < |buckets| && i != h ensures BucketOk(i) {
        assert old(BucketOk(i)) && HeadKept(buckets[i]);
        var l := buckets[i].list;
        forall t | t in l ensures t in old(all) && t.head != buckets[h] {
          assert old(Belongs(t, i));
        }
        forall j {:trigger l[j]} | 0 <= j < |l| ensures SessionKept(l[j]) {
          assert l[j] in l;
        }
      }
    }

    /** With its bucket's list extended and its entry added, the table is linked with the session. */
    twostate lemma LinkedWith(s: Session)
      requires old(Linked()) && s !in old(all) && s.key !in old(entries) && s.queue < workers
      requires s.head == buckets[SessionHash(s.key)] && s.head.Valid()
      requires all == old(all) + {s} && entries == old(entries)[s.key := s]
      requires s.head.list == old(s.head.list) + [s]
      requires forall i :: 0 <= i < |buckets| && buckets[i] != s.head ==> HeadKept(buckets[i])
      requires forall t :: t in old(all) && t.head != s.head ==> SessionKept(t)
      ensures Linked()
    {
      hide SessionHash, SessionHead.Valid;
      var h := SessionHash(s.key);
      assert old(BucketOk(h));
      OthersKept(h);
      forall t | t in buckets[h].list ensures t in all && Belongs(t, h) {
        if t != s { assert old(Belongs(t, h)); }
      }
      forall k | k in entries ensures Placed(k) {
        if k != s.key { assert old(Placed(k)); }
      }
    }

    method Link(h: nat, s: Session)
      requires Linked() && s !in all && s.next == null && s.prev == null
      requires s.key !in entries && h == SessionHash(s.key) && s.head == buckets[h] && s.queue < workers
      modifies this, buckets[h], buckets[h].list, s
      ensures Linked() && entries == old(entries)[s.key := s] && all == old(all) + {s}
      ensures s.data == old(s.data) && forall t :: t in old(all) ==> t.data == old(t.data)
      ensures buckets[h].list == old(buckets[h].list) + [s]
      ensures forall i :: 0 <= i < |buckets| && i != h ==> buckets[i].list == old(buckets[i].list)
    {
      hide SessionHash, SessionHead.Valid, Linked;
      BucketMembers(h);
      AppendTo(h, s);
      entries := entries[s.key := s];
      all := all + {s};
      LinkedWith(s);
    }

    method AppendTo(h: nat, s: Session)
      requires Linked() && s !in all && s.next == null && s.prev == null
      requires h < |buckets| && s.head == buckets[h]
      modifies buckets[h], buckets[h].list, s
      ensures buckets[h].Valid() && buckets[h].list == old(buckets[h].list) + [s]
      ensures forall i :: 0 <= i < |buckets| && i != h ==> HeadKept(buckets[i])
      ensures forall t :: t in all && t.head != buckets[h] ==> SessionKept(t)
      ensures s.data == old(s.data) && forall t :: t in all ==> t.data == old(t.data)
    {
      hide SessionHash;
      ghost var l := buckets[h].list;
      assert BucketOk(h);
      forall t | t in l ensures t in all && t.head == buckets[h] {
        assert Belongs(t, h);
      }
      buckets[h].Append(s);
    }

    method RemoveFrom(ghost h: nat, s: Session)
      requires Linked() && h < |buckets| && s in buckets[h].list
      modifies buckets[h], buckets[h].list
      ensures buckets[h].Valid() && buckets[h].list == Without(old(buckets[h].list), {s})
      ensures forall i :: 0 <= i < |buckets| && i != h ==> HeadKept(buckets[i])
      ensures forall t :: t in all && t.head != buckets[h] ==> SessionKept(t)
      ensures forall t :: t in all ==> t.data == old(t.data)
    {
      hide SessionHash;
      ghost var l := buckets[h].list;
      assert BucketOk(h);
      forall t | t in l ensures t in all && t.head == buckets[h] {
        assert Belongs(t, h);
      }
      ghost var j :| 0 <= j < |l| && l[j] == s;
      WithoutOne(l, j);
      s.head.Remove(s, j);
    }

    /** With its bucket's list shortened and its entry dropped, the table is linked without the session. */
    twostate lemma LinkedWithout(s: Session)
      requires old(Linked()) && s in old(all) && s.head in buckets && s.head.Valid()
      requires all == old(all) - {s} && entries == old(entries) - {s.key}
      requires s.head.list == Without(old(s.head.list), {s})
      requires forall i :: 0 <= i < |buckets| && buckets[i] != s.head ==> HeadKept(buckets[i])
      requires forall t :: t in all && t.head != s.head ==> SessionKept(t)
      ensures Linked()
    {
      hide SessionHash, SessionHead.Valid;
      var h := SessionHash(s.key);
      assert old(Placed(s.key) && BucketOk(h) && Belongs(s, h));
      WithoutMembers(old(buckets[h].list), {s});
      assert forall t :: t in all ==> t.key != s.key;
      OthersKept(h);
      forall t | t in buckets[h].list ensures t in all && Belongs(t, h) {
        assert old(Belongs(t, h));
      }
      forall k | k in entries ensures Placed(k) {
        assert old(Placed(k));
      }
    }

    method Unlink(s: Session)
      requires Linked() && s in all
      modifies this, s.head, s.head.list
      ensures Linked() && entries == old(entries) - {s.key} && all == old(all) - {s}
      ensures forall t :: t in old(all) ==> t.data == old(t.data)
      ensures s.head in buckets && s.head.list == Without(old(s.head.list), {s})
      ensures forall b :: b in buckets && b != s.head ==> b.list == old(b.list)
    {
      hide SessionHash, SessionHead.Valid, Linked;
      Registered(s);
      ghost var h := SessionHash(s.key);
      RemoveFrom(h, s);
      entries := entries - {s.key};
      all := all - {s};
      LinkedWithout(s);
    }

    lemma {:induction false} BucketMembers(h: nat)
      requires Linked() && h < SESSIONBUCKETS
      ensures |buckets| == SESSIONBUCKETS && forall t :: t in buckets[h].list ==> t in all
    {
      assert BucketOk(h);
    }

    lemma {:induction false} Registered(s: Session)
      requires Linked() && s in all
      ensures |buckets| == SESSIONBUCKETS && s.head == buckets[SessionHash(s.key)] && s in s.head.list
      ensures s.key in entries && entries[s.key] == s && s.queue < workers
    {
      hide SessionHash;
      assert Placed(s.key) && BucketOk(SessionHash(s.key)) && Belongs(s, SessionHash(s.key));
    }

    /** Stores a session's record; the links do not depend on it. */
    method SetRecord(s: Session, d: SD.Data)
      requires Valid() && s in all
      modifies s`data
      ensures Valid() && Records() == old(Records())[s := d]
    {
      hide SessionHash, SessionHead.Valid, BucketOk, Belongs, Load;
      s.data := d;
      assert Linked() by {
        RecordsOnly();
      }
    }

    twostate lemma RecordsOnly()
      requires old(Linked()) && all == old(all) && entries == old(entries)
      requires forall i :: 0 <= i < |buckets| ==> HeadKept(buckets[i])
      requires forall t :: t in old(all) ==> SessionKept(t)
      ensures Linked()
    {
      hide SessionHash;
      forall i | 0 <= i < |buckets| ensures BucketOk(i) {
        assert old(BucketOk(i)) && HeadKept(buckets[i]);
        var l := buckets[i].list;
        forall t | t in l ensures Belongs(t, i) {
          assert old(Belongs(t, i));
        }
        forall j {:trigger l[j]} | 0 <= j < |l| ensures SessionKept(l[j]) {
          assert l[j] in l;
        }
      }
      forall k | k in entries ensures Placed(k) {
        assert old(Placed(k));
      }
    }

    /** Adds a session for a key that has none, assigned to a least loaded worker. */
    method InsertSession(k: Key) returns (s: Session)
      requires Valid() && k !in entries
      modifies this, buckets, all, counters
      ensures Valid() && fresh(s) && entries == old(entries)[k := s] && all == old(all) + {s}
      ensures s.key == k && s.queue < workers
      ensures Records() == old(Records())[s := SD.Zeroed()]
      ensures buckets[SessionHash(k)].list == old(buckets[SessionHash(k)].list) + [s]
      ensures forall i :: 0 <= i < |buckets| && i != SessionHash(k) ==> buckets[i].list == old(buckets[i].list)
      ensures LeastLoaded(old(counters[..]), workers, s.queue)
      ensures counters[..] == Bumped(old(counters[..]), s.queue)
    {
      hide SessionHash, Load, Linked;
      var h := SessionHash(k);
      BucketMembers(h);
      var q := PickWorker();
      s := new Session(buckets[h], k, q);
      Link(h, s);
      counters[q] := counters[q] + 1;
      forall w | 0 <= w < workers ensures counters[w] == Load(entries, w) {
        LoadInsert(old(entries), k, s, w);
      }
    }

    /** Removes a session of the table. */
    method ClearSession(s: Session)
      requires Valid() && s in all
      modifies this, buckets, all, counters
      ensures Valid() && entries == old(entries) - {s.key}
      ensures Records() == old(Records()) - {s}
      ensures s.head in buckets && s.head.list == Without(old(s.head.list), {s})
      ensures forall b :: b in buckets && b != s.head ==> b.list == old(b.list)
      ensures old(counters[..]) == Bumped(counters[..], s.queue)
    {
      hide SessionHash, Load, Linked;
      Registered(s);
      BucketMembers(SessionHash(s.key));
      Unlink(s);
      LoadRemove(old(entries), s.key, s.queue);
      counters[s.queue] := counters[s.queue] - 1;
      forall w | 0 <= w < workers ensures counters[w] == Load(entries, w) {
        LoadRemove(old(entries), s.key, w);
      }
    }
  }

  /** The session of a packet, found or, if there is none, added. */
  method Track(t: Table, saddr: uint32, source: uint16, daddr: uint32, dest: uint16) returns (s: Session)
    requires t.Valid()
    modifies t, t.buckets, t.all, t.counters
    ensures t.Valid() && fresh(t.all - old(t.all)) && s.key == SortSockets(saddr, source, daddr, dest)
    ensures var k := SortSockets(saddr, source, daddr, dest);
      t.entries == old(t.entries)[k := s] && (k in old(t.entries) ==> s == old(t.entries)[k])
  {
    hide SessionHash, Table.Linked, Load;
    var k := SortSockets(saddr, source, daddr, dest);
    var found := t.GetSession(k);
    if found == null {
      s := t.InsertSession(k);
    } else {
      s := found;
    }
  }

  /** The first of the least loaded is so among the workers running. */
  lemma {:induction false} PickRunning(c: seq<nat>, n: nat, q: nat)
    requires n <= |c| && LeastLoaded(c, n, q)
    ensures LeastLoaded(c[..n], n, q) && Bumped(c, q)[..n] == Bumped(c[..n], q)
  {
  }

  lemma {:induction false} DealtRunning(c: seq<nat>, n: nat, m: nat)
    requires 1 <= n <= |c|
    ensures Dealt(c, n, m) <==> Dealt(c[..n], n, m)
  {
  }

  /** The table has only had sessions added, each to the first of the workers least loaded at that time. */
  ghost predicate Filled(t: Table, picks: seq<nat>)
    requires t.Valid()
    reads t, t.buckets, t.all, t.counters
  {
    |picks| == |t.entries.Keys| && LeastLoadedPicks(t.workers, picks) &&
      t.counters[..t.workers] == Counters(t.workers, picks)
  }

  method ServeOne(t: Table, k: Key, ghost picks: seq<nat>) returns (ghost more: seq<nat>)
    requires t.Valid() && Filled(t, picks)
    modifies t, t.buckets, t.all, t.counters
    ensures t.Valid() && Filled(t, more) && t.entries.Keys == old(t.entries.Keys) + {k} && fresh(t.all - old(t.all))
  {
    hide SessionHash, Table.Linked, Load, LeastLoaded, Bumped;
    var found := t.GetSession(k);
    more := picks;
    if found == null {
      ghost var c, ks := t.counters[..], t.entries.Keys;
      var s := t.InsertSession(k);
      PickRunning(c, t.workers, s.queue);
      more := picks + [s.queue];
      assert more[..|picks|] == picks;
      assert t.entries.Keys == ks + {k};
    }
  }

  /**
   Sessions for any sequence of keys, in a new table, with nothing closed in between: the counters of the workers are
   those of sessions dealt in turn.
   */
  method Serve(workers: nat, keys: seq<Key>) returns (t: Table)
    requires 1 <= workers <= MAXWORKERS
    ensures fresh(t) && t.Valid() && t.workers == workers && t.entries.Keys == set k | k in keys
    ensures Dealt(t.counters[..], workers, |t.entries.Keys|)
  {
    hide Table.Valid, Dealt, Filled;
    t := new Table(workers);
    ghost var picks := [];
    FreshCounters(t);
    for i := 0 to |keys|
      invariant fresh(t) && fresh(t.counters) && fresh(t.all) && fresh(t.buckets)
      invariant t.Valid() && t.workers == workers && t.entries.Keys == (set k | k in keys[..i]) && Filled(t, picks)
    {
      picks := ServeOne(t, keys[i], picks);
      assert keys[..i + 1] == keys[..i] + [keys[i]];
    }
    assert keys[..|keys|] == keys;
    FilledDealt(t, picks);
  }

  lemma {:induction false} FilledDealt(t: Table, picks: seq<nat>)
    requires t.Valid() && Filled(t, picks)
    ensures t.workers <= t.counters.Length && Dealt(t.counters[..], t.workers, |t.entries.Keys|)
  {
    hide SessionHash, Table.Linked, Load, Dealt;
    ServedInTurn(t.workers, picks);
    DealtRunning(t.counters[..], t.workers, |picks|);
  }

  lemma {:induction false} FreshCounters(t: Table)
    requires t.Valid() && t.entries == map[]
    ensures Filled(t, [])
  {
    hide SessionHash, Table.Linked;
  }

  /** A session tracked in one direction is found again in the other. */
  method BothWays(t: Table, saddr: uint32, source: uint16, daddr: uint32, dest: uint16)
    returns (there: Session, back: Session?)
    requires t.Valid() && saddr != daddr
    modifies t, t.buckets, t.all, t.counters
    ensures t.Valid() && back == there
  {
    hide SessionHash, Table.Linked, Load;
    there := Track(t, saddr, source, daddr, dest);
    BothDirections(saddr, source, daddr, dest);
    back := t.GetSession(SortSockets(daddr, dest, saddr, source));
  }

  /** Packets of two connections are tracked in two sessions, of one connection in one. */
  method TrackTwo(t: Table, a: uint32, p: uint16, b: uint32, q: uint16, c: uint32, r: uint16, d: uint32, s: uint16)
    returns (one: Session, other: Session)
    requires t.Valid()
    modifies t, t.buckets, t.all, t.counters
    ensures t.Valid()
    ensures one == other <==> (a, p, b, q) == (c, r, d, s) || ((a, p, b, q) == (d, s, c, r) && (a != b || p == q))
  {
    hide SessionHash, Table.Linked, Load;
    one := Track(t, a, p, b, q);
    other := Track(t, c, r, d, s);
    SameKeyIff(a, p, b, q, c, r, d, s);
  }

  method BuildBuckets() returns (heads: seq<SessionHead>)
    ensures |heads| == SESSIONBUCKETS
    ensures forall i :: 0 <= i < |heads| ==> fresh(heads[i]) && heads[i].Valid() && heads[i].list == []
    ensures forall i, j :: 0 <= i < j < |heads| ==> heads[i] != heads[j]
  {
    heads := [];
    while |heads| < SESSIONBUCKETS
      invariant |heads| <= SESSIONBUCKETS
      invariant forall i :: 0 <= i < |heads| ==> fresh(heads[i]) && heads[i].Valid() && heads[i].list == []
      invariant forall i, j :: 0 <= i < j < |heads| ==> heads[i] != heads[j]
    {
      var h := new SessionHead();
      heads := heads + [h];
    }
  }
}
