/** Events posted by other threads: pushed on a locked list, and moved to the event list by the
    reactor's thread. A push and the taking of the whole list are atomic. */
module CrossThread {
  import opened Seqs
  import opened Reactor

  /** rl->_qevt, newest first. */
  class Mailbox {
    var qevt: Evt?
    ghost var queued: seq<Evt>
    ghost var posted: seq<Msg>

    /** `posted` are the messages of the queued events in the order of the posts. */
    ghost predicate Valid()
      reads this, queued
    {
      Chain(qevt, queued) && Bears(queued, Reverse(posted))
    }

    constructor ()
      ensures Valid() && queued == [] && posted == []
    {
      qevt, queued, posted := null, [], [];
    }

    /** gwrl_post_evt_safely */
    method PostSafely(e: Evt)
      requires Valid() && e !in queued
      modifies this, e`next
      ensures Valid() && queued == [e] + old(queued) && posted == old(posted) + [e.msg]
    {
      if qevt != null {
        e.next := qevt;
      } else {
        e.next := null;
      }
      qevt := e;
      ReverseAppends(posted, [e.msg]);
      queued, posted := [e] + queued, posted + [e.msg];
    }
  }

  /** The links behind `xs` when its nodes have been moved, in order, to the front of `old`: each one
      points to the one moved before it, and the first of them to whatever follows. */
  ghost predicate Moved(xs: seq<Evt>, first: Evt?)
    reads xs`next
  {
    forall i {:trigger xs[i].next} :: 0 <= i < |xs| ==> xs[i].next == if i == 0 then first else xs[i - 1]
  }

  /** The part of gwrl_install_queued_events after the list has been taken. */
  method MoveAll(q: EventQueue, taken: Evt?, ghost xs: seq<Evt>)
    requires q.Valid() && Chain(taken, xs) && Apart(xs, q.pending) && Apart(xs, q.cached)
    modifies q`events, xs`next
    ensures q.events == if xs == [] then old(q.events) else Last(xs)
    ensures Moved(xs, if old(q.events) != null || |xs| <= 1 then old(q.events) else xs[1])
  {
    var evt := taken;
    ghost var i := 0;
    while evt != null
      invariant 0 <= i <= |xs| && evt == if i < |xs| then xs[i] else null
      invariant q.events == if i == 0 then old(q.events) else xs[i - 1]
      invariant forall j {:trigger xs[j].next} :: i <= j < |xs| ==> xs[j].next == if j + 1 < |xs| then xs[j + 1] else null
      invariant forall j {:trigger xs[j].next} :: 0 <= j < i ==>
                  xs[j].next == if j > 0 then xs[j - 1]
                                else if old(q.events) != null || |xs| <= 1 then old(q.events) else xs[1]
      decreases |xs| - i
    {
      var pevt := evt;
      evt := evt.next;
      if q.events != null {
        pevt.next := q.events;
      }
      q.events := pevt;
      i := i + 1;
    }
  }

  /** Moved onto a list that is not empty, or one node alone: the nodes in posting order, then the list. */
  lemma MovedIsChain(head: Evt?, xs: seq<Evt>, first: Evt?, ys: seq<Evt>)
    requires Moved(xs, first) && Chain(first, ys) && Distinct(xs) && Apart(xs, ys)
    requires head == if xs == [] then first else Last(xs)
    ensures Chain(head, Reverse(xs) + ys)
  {
    var rs := Reverse(xs);
    forall k | 0 <= k < |rs|
      ensures rs[k] == xs[|xs| - 1 - k]
    {
      ReverseAt(xs, k);
    }
    var all := rs + ys;
    assert forall x :: x in rs ==> x in xs;
    assert forall x :: x in xs ==> x !in ys;
    DistinctConcat(rs, ys);
    forall k | 0 <= k < |all|
      ensures all[k].next == if k + 1 < |all| then all[k + 1] else null
    {
      if k < |rs| {
        assert all[k] == xs[|xs| - 1 - k];
      } else {
        assert all[k] == ys[k - |rs|];
      }
    }
  }

  /** A walk along `next` from `head`. */
  ghost predicate Path(head: Evt?, es: seq<Evt>)
    reads es`next
  {
    && es != [] && es[0] == head
    && forall i {:trigger es[i].next} :: 0 <= i < |es| - 1 ==> es[i].next == es[i + 1]
  }

  lemma {:induction false} Follow(head: Evt?, xs: seq<Evt>, es: seq<Evt>, k: nat)
    requires |xs| >= 2 && Moved(xs, xs[1]) && head == Last(xs) && Path(head, es) && k < |es| && k <= |xs|
    ensures es[k] == if k < |xs| then xs[|xs| - 1 - k] else xs[1]
  {
    if k > 0 {
      Follow(head, xs, es, k - 1);
      assert es[k - 1].next == es[k] && xs[|xs| - k].next == es[k];
    }
  }

  /** Moved onto an empty list, two nodes or more form a ring: no list of nodes from the head ends. */
  lemma MovedIsRing(head: Evt?, xs: seq<Evt>, es: seq<Evt>)
    requires |xs| >= 2 && Moved(xs, xs[1]) && head == Last(xs)
    ensures !Chain(head, es)
  {
    if Path(head, es) {
      var n := |xs|;
      if |es| > n {
        Follow(head, xs, es, n);
        Follow(head, xs, es, n - 2);
        assert es[n] == es[n - 2];
      } else {
        Follow(head, xs, es, |es| - 1);
        assert es[|es| - 1].next == xs[n - |es|].next != null;
      }
    }
  }

  lemma NoList(head: Evt?, xs: seq<Evt>)
    requires |xs| >= 2 && Moved(xs, xs[1]) && head == Last(xs)
    ensures forall es :: !Chain(head, es)
  {
    forall es ensures !Chain(head, es) {
      MovedIsRing(head, xs, es);
    }
  }

  lemma MovedLists(xs: seq<Evt>, posted: seq<Msg>, ys: seq<Evt>, ms: seq<Msg>, cs: seq<Evt>)
    requires Bears(xs, Reverse(posted)) && Bears(ys, ms) && Apart(xs, cs) && Apart(ys, cs)
    ensures Bears(Reverse(xs) + ys, posted + ms) && Apart(Reverse(xs) + ys, cs)
  {
    var all := Reverse(xs) + ys;
    forall k | 0 <= k < |all|
      ensures all[k].msg == (posted + ms)[k] && forall j :: 0 <= j < |cs| ==> all[k] != cs[j]
    {
      if k < |xs| {
        ReverseAt(xs, k);
        ReverseAt(posted, |xs| - 1 - k);
        assert all[k] == xs[|xs| - 1 - k];
      } else {
        assert all[k] == ys[k - |xs|];
      }
    }
  }

  /** Move the list and account for it. */
  method MoveOnto(q: EventQueue, taken: Evt?, ghost xs: seq<Evt>, ghost posted: seq<Msg>)
    requires q.Valid() && Chain(taken, xs) && Bears(xs, Reverse(posted)) && Apart(xs, q.pending) && Apart(xs, q.cached)
    modifies q`events, q`pending, q`msgs, xs`next
    ensures old(q.pending != []) || |xs| <= 1 ==>
              q.Valid() && q.msgs == posted + old(q.msgs) && q.pending == Reverse(xs) + old(q.pending)
    ensures !(old(q.pending != []) || |xs| <= 1) ==> forall es :: !Chain(q.events, es)
  {
    ghost var first, ys := q.events, q.pending;
    MoveAll(q, taken, xs);
    assert Chain(first, ys) == old(Chain(first, ys));
    assert Bears(xs, Reverse(posted)) == old(Bears(xs, Reverse(posted))) && Bears(ys, q.msgs) == old(Bears(ys, q.msgs));
    if ys != [] || |xs| <= 1 {
      MovedIsChain(q.events, xs, first, ys);
      MovedLists(xs, posted, ys, q.msgs, q.cached);
      q.pending, q.msgs := Reverse(xs) + ys, posted + q.msgs;
    } else {
      NoList(q.events, xs);
    }
  }

  /** gwrl_install_queued_events: events posted by other threads go in front of the event list in the
      order they were posted, exactly when the list is not empty or there is only one. Two or more
      moved onto an empty list form a ring. */
  method InstallQueuedEvents(m: Mailbox, q: EventQueue)
    requires m.Valid() && q.Valid() && Apart(m.queued, q.pending) && Apart(m.queued, q.cached)
    modifies m, q`events, q`pending, q`msgs, m.queued`next
    ensures m.Valid() && m.queued == []
    ensures old(q.pending != [] || |m.queued| <= 1) ==>
              q.Valid() && q.msgs == old(m.posted) + old(q.msgs) && q.pending == Reverse(old(m.queued)) + old(q.pending)
    ensures !old(q.pending != [] || |m.queued| <= 1) ==> forall es :: !Chain(q.events, es)
  {
    var evt := m.qevt;
    ghost var xs, posted := m.queued, m.posted;
    m.qevt := null;
    m.queued, m.posted := [], [];
    MoveOnto(q, evt, xs, posted);
  }
}
