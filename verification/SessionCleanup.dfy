/** Finding and removing dead sessions: the pass over the table, and what it means for a session's life. */
module SessionCleanup {
  import opened SessionData
  import opened SessionTable

  // ----- The pass -----

  /** The records after a pass over some of the sessions: the dead ones gone, the others looked at. */
  ghost function Aged(m: map<Session, Data>, checked: set<Session>): map<Session, Data>
  {
    map s | s in m && !(s in checked && Dead(m[s])) :: if s in checked then Passed(m[s]) else m[s]
  }

  ghost function DeadOnes(m: map<Session, Data>): set<Session> { set s | s in m && Dead(m[s]) }

  ghost function Elements(l: seq<Session>): set<Session> { set s | s in l }

  lemma {:induction false} AgedNone(m: map<Session, Data>)
    ensures Aged(m, {}) == m
  {
  }

  lemma {:induction false} AgedOneMore(m: map<Session, Data>, checked: set<Session>, s: Session)
    requires s in m && s !in checked
    ensures Aged(m, checked + {s}) == if Dead(m[s]) then Aged(m, checked) - {s} else Aged(m, checked)[s := Passed(m[s])]
    ensures s in Aged(m, checked) && Aged(m, checked)[s] == m[s]
  {
    hide Dead, Passed;
  }

  /** One more element of the list looked at. */
  lemma {:induction false} OneFurther(m: map<Session, Data>, l: seq<Session>, p: nat)
    requires p < |l| && Distinct(l)
    ensures Elements(l[..p + 1]) == Elements(l[..p]) + {l[p]} && l[p] !in Elements(l[..p])
    ensures Without(l[..p + 1], DeadOnes(m)) ==
      Without(l[..p], DeadOnes(m)) + if l[p] in DeadOnes(m) then [] else [l[p]]
  {
    assert l[..p + 1] == l[..p] + [l[p]];
    WithoutConcat(l[..p], [l[p]], DeadOnes(m));
    assert [l[p]][1..] == [];
  }

  /** Halfway through a bucket: the sessions before p have been looked at, the others are as they were. */
  ghost predicate Halfway(t: Table, i: nat, l: seq<Session>, m: map<Session, Data>, p: nat)
    requires i < |t.buckets|
    reads t, t.buckets, t.all
  {
    && p <= |l| && Distinct(l) && (forall s :: s in l ==> s in m)
    && t.buckets[i].list == Without(l[..p], DeadOnes(m)) + l[p..]
    && t.Records() == Aged(m, Elements(l[..p]))
  }

  /** The session looked at, and its neighbours in the list. */
  lemma {:induction false} At(t: Table, i: nat, l: seq<Session>, m: map<Session, Data>, p: nat)
    requires t.Valid() && i < |t.buckets| && Halfway(t, i, l, m, p) && p < |l|
    ensures var s := l[p];
      && s in t.all && s in m && s.data == m[s] && s.head == t.buckets[i] &&
        (forall u :: u in t.buckets[i].list ==> u in t.all)
      && s.next == (if p + 1 < |l| then l[p + 1] else null) && (p + 1 < |l| ==> l[p + 1].prev == s)
      && Without(t.buckets[i].list, {s}) == Without(l[..p], DeadOnes(m)) + l[p + 1..]
  {
    hide SessionHash, Load, Dead, Passed;
    var list, q, s := t.buckets[i].list, |Without(l[..p], DeadOnes(m))|, l[p];
    assert t.BucketOk(i);
    assert list[q] == s && list[q..] == l[p..];
    assert s in list && t.Belongs(s, i);
    if p + 1 < |l| { assert list[q + 1] == l[p + 1]; }
    WithoutOne(list, q);
    assert list[..q] == Without(l[..p], DeadOnes(m)) && list[q + 1..] == l[p + 1..];
    OneFurther(m, l, p);
    AgedOneMore(m, Elements(l[..p]), s);
  }

  /** Looks at one session: a dead one is cleared after moving on, any other one is checked for idleness. */
  method Look(t: Table, ghost i: nat, cur: Session, ghost l: seq<Session>, ghost m: map<Session, Data>, ghost p: nat)
    returns (next: Session?)
    requires t.Valid() && i < |t.buckets| && Halfway(t, i, l, m, p) && p < |l| && cur == l[p]
    modifies t, t.buckets, t.all, t.counters
    ensures t.Valid() && Halfway(t, i, l, m, p + 1)
    ensures next == (if p + 1 < |l| then l[p + 1] else null) && t.all <= old(t.all)
    ensures forall b :: b in t.buckets && b != t.buckets[i] ==> b.list == old(b.list)
  {
    hide SessionHash, Table.Valid, Passed, Aged, Without, Distinct, DeadOnes;
    At(t, i, l, m, p);
    OneFurther(m, l, p);
    AgedOneMore(m, Elements(l[..p]), cur);
    DeadMember(m, cur);
    next := cur;
    if Dead(next.data) {
      if next.next != null {
        next := next.next;
        t.ClearSession(next.prev);
      } else {
        t.ClearSession(next);
        next := null;
      }
    } else {
      t.SetRecord(next, Passed(next.data));
      next := next.next;
    }
    assert t.all == t.Records().Keys;
  }

  lemma {:induction false} DeadMember(m: map<Session, Data>, s: Session)
    requires s in m
    ensures s in DeadOnes(m) <==> Dead(m[s])
  {
  }

  /**
   One pass over a bucket. It ends, removes exactly the sessions that were dead when it began, keeps
   the others in order, and touches no other bucket.
   */
  method CleanupList(t: Table, i: nat)
    requires t.Valid() && i < |t.buckets|
    modifies t, t.buckets, t.all, t.counters
    ensures t.Valid() && t.all <= old(t.all)
    ensures t.Records() == Aged(old(t.Records()), Elements(old(t.buckets[i].list)))
    ensures t.buckets[i].list == Without(old(t.buckets[i].list), DeadOnes(old(t.Records())))
    ensures forall b :: b in t.buckets && b != t.buckets[i] ==> b.list == old(b.list)
  {
    hide SessionHash, Table.Valid, Aged, Without, DeadOnes, Elements, Distinct;
    ghost var l, m := t.buckets[i].list, t.Records();
    Beginning(t, i);
    var cur := t.buckets[i].next;
    ghost var p := 0;
    while cur != null
      invariant t.Valid() && Halfway(t, i, l, m, p)
      invariant cur == if p < |l| then l[p] else null
      invariant t.all <= old(t.all)
      invariant forall b :: b in t.buckets && b != t.buckets[i] ==> b.list == old(b.list)
      decreases |l| - p
    {
      cur := Look(t, i, cur, l, m, p);
      p := p + 1;
    }
    assert l[..p] == l && l[p..] == [];
  }

  lemma {:induction false} Beginning(t: Table, i: nat)
    requires t.Valid() && i < |t.buckets|
    ensures Halfway(t, i, t.buckets[i].list, t.Records(), 0)
    ensures t.buckets[i].next == if t.buckets[i].list != [] then t.buckets[i].list[0] else null
  {
    hide SessionHash, Load;
    assert t.BucketOk(i);
    AgedNone(t.Records());
    assert Elements(t.buckets[i].list[..0]) == {};
  }

  // ----- All buckets -----

  /** The sessions of the first n lists. */
  ghost function InFirst(lists: seq<seq<Session>>, n: nat): set<Session>
    requires n <= |lists|
  {
    if n == 0 then {} else InFirst(lists, n - 1) + Elements(lists[n - 1])
  }

  lemma {:induction false} InFirstMember(lists: seq<seq<Session>>, n: nat, s: Session)
    requires n <= |lists|
    ensures s in InFirst(lists, n) <==> exists j :: 0 <= j < n && s in lists[j]
  {
    if n > 0 { InFirstMember(lists, n - 1, s); }
  }

  lemma {:induction false} AgedTwice(m: map<Session, Data>, a: set<Session>, b: set<Session>)
    requires a !! b
    ensures Aged(Aged(m, a), b) == Aged(m, a + b)
  {
    hide Dead, Passed;
  }

  /** Whether a session not looked at yet is dead has not changed. */
  lemma {:induction false} StillDead(m: map<Session, Data>, a: set<Session>, l: seq<Session>)
    requires forall s :: s in l ==> s !in a
    ensures Without(l, DeadOnes(Aged(m, a))) == Without(l, DeadOnes(m))
  {
    hide Dead, Passed;
    if l != [] { StillDead(m, a, l[1..]); }
  }

  /** The table with the first n buckets looked at. */
  ghost predicate Through(t: Table, lists: seq<seq<Session>>, m: map<Session, Data>, n: nat)
    requires n <= |lists| == |t.buckets|
    reads t, t.buckets, t.all
  {
    && t.Records() == Aged(m, InFirst(lists, n))
    && (forall j :: 0 <= j < n ==> t.buckets[j].list == Without(lists[j], DeadOnes(m)))
    && (forall j :: n <= j < |lists| ==> t.buckets[j].list == lists[j])
  }

  ghost predicate Apart(t: Table, lists: seq<seq<Session>>)
    requires |lists| == |t.buckets|
  {
    && (forall i, j :: 0 <= i < j < |t.buckets| ==> t.buckets[i] != t.buckets[j])
    && (forall j, s :: 0 <= j < |lists| && s in lists[j] ==> s.head == t.buckets[j])
  }

  lemma {:induction false} NotYet(t: Table, lists: seq<seq<Session>>, i: nat)
    requires |lists| == |t.buckets| && Apart(t, lists) && i < |lists|
    ensures InFirst(lists, i) !! Elements(lists[i])
  {
    forall s | s in InFirst(lists, i) ensures s !in lists[i] {
      InFirstMember(lists, i, s);
      var j :| 0 <= j < i && s in lists[j];
      assert s.head == t.buckets[j] != t.buckets[i];
    }
  }

  /** Cleans one bucket of a partly cleaned table; an empty one is skipped. */
  method CleanupNext(t: Table, i: nat, ghost lists: seq<seq<Session>>, ghost m: map<Session, Data>)
    requires t.Valid() && i < |lists| == |t.buckets| && Apart(t, lists) && Through(t, lists, m, i)
    modifies t, t.buckets, t.all, t.counters
    ensures t.Valid() && Through(t, lists, m, i + 1) && t.all <= old(t.all)
  {
    hide SessionHash, Table.Valid, Aged, Without, DeadOnes;
    Beginning(t, i);
    NotYet(t, lists, i);
    AgedTwice(m, InFirst(lists, i), Elements(lists[i]));
    StillDead(m, InFirst(lists, i), lists[i]);
    if t.buckets[i].next != null {
      CleanupList(t, i);
      forall j | 0 <= j < |lists| && j != i ensures t.buckets[j].list == old(t.buckets[j].list) {
        assert t.buckets[j] in t.buckets && t.buckets[j] != t.buckets[i];
      }
    } else {
      Skipped(t.Records(), lists[i], m);
    }
  }

  lemma {:induction false} Skipped(m: map<Session, Data>, l: seq<Session>, m0: map<Session, Data>)
    requires l == []
    ensures Aged(m, Elements(l)) == m && Without(l, DeadOnes(m0)) == l
  {
    AgedNone(m);
    assert Elements(l) == {};
  }

  lemma {:induction false} AllApart(t: Table, lists: seq<seq<Session>>)
    requires t.Valid() && |lists| == |t.buckets| && forall j :: 0 <= j < |lists| ==> lists[j] == t.buckets[j].list
    ensures |t.buckets| == SESSIONBUCKETS && Apart(t, lists) && InFirst(lists, |lists|) == t.all
  {
    hide SessionHash, Load, InFirst, SessionHead.Valid;
    forall j, s | 0 <= j < |lists| && s in lists[j] ensures s in t.all && s.head == t.buckets[j] {
      assert t.BucketOk(j) && t.Belongs(s, j);
    }
    forall s | s in InFirst(lists, |lists|) ensures s in t.all {
      InFirstMember(lists, |lists|, s);
    }
    forall s | s in t.all ensures s in InFirst(lists, |lists|) {
      InFirstMember(lists, |lists|, s);
      t.Registered(s);
      assert s in lists[SessionHash(s.key)];
    }
  }

  /** A whole cleanup looks at every session once, removes exactly the dead ones and keeps the rest in order. */
  method CleanupTable(t: Table)
    requires t.Valid()
    modifies t, t.buckets, t.all, t.counters
    ensures t.Valid()
    ensures t.Records() == Aged(old(t.Records()), old(t.all))
    ensures forall i :: 0 <= i < |t.buckets| ==>
      t.buckets[i].list == Without(old(t.buckets[i].list), DeadOnes(old(t.Records())))
  {
    hide SessionHash, Table.Valid, Aged, Without, DeadOnes;
    ghost var m := t.Records();
    ghost var lists := seq(|t.buckets|, j requires 0 <= j < |t.buckets| reads t, t.buckets => t.buckets[j].list);
    AllApart(t, lists);
    AgedNone(m);
    for i := 0 to SESSIONBUCKETS
      invariant t.Valid() && t.all <= old(t.all) && Through(t, lists, m, i)
    {
      CleanupNext(t, i, lists, m);
    }
  }
}
