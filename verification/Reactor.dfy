/** The reactor's objects, and its events: linked lists of pending and cached nodes. */
module Reactor {
  import opened Seqs
  import opened Flags
  import TimeSpec

  datatype Kind = FileSource | TimeSource

  /** gwrlsrc with the fields of gwrlsrc_file (fd, and pfd as a slot number) and gwrlsrc_time. A
      callback of 0 is NULL. */
  class Src {
    const kind: Kind
    const fd: nat
    const ms: int
    const callback: nat
    const userdata: int
    var flags: set<Flag>
    var pfd: int
    var when: TimeSpec.Timespec
    var next: Src?

    constructor (kind: Kind, fd: nat, ms: int, callback: nat, userdata: int, flags: set<Flag>, when: TimeSpec.Timespec)
      ensures this.kind == kind && this.fd == fd && this.ms == ms && this.callback == callback
      ensures this.userdata == userdata && this.flags == flags && this.when == when && pfd == -1 && next == null
    {
      this.kind, this.fd, this.ms, this.callback, this.userdata := kind, fd, ms, callback, userdata;
      this.flags, this.when, pfd, next := flags, when, -1, null;
    }
  }

  /** What an event carries. */
  datatype Msg = Msg(callback: nat, userdata: int, src: Src?, fd: nat, flags: set<Flag>)

  const BLANK := Msg(0, 0, null, 0, {})

  /** gwrlevt */
  class Evt {
    var msg: Msg
    var next: Evt?

    constructor ()
      ensures msg == BLANK && next == null
    {
      msg, next := BLANK, null;
    }
  }

  /** The nodes from `head` along `next` are exactly `es`, null-terminated. */
  ghost predicate Chain(head: Evt?, es: seq<Evt>)
    reads es`next
  {
    && head == (if es == [] then null else es[0])
    && (forall i {:trigger es[i].next} :: 0 <= i < |es| ==> es[i].next == if i + 1 < |es| then es[i + 1] else null)
    && Distinct(es)
  }

  ghost predicate Bears(es: seq<Evt>, ms: seq<Msg>)
    reads es`msg
  {
    |es| == |ms| && forall i {:trigger es[i]} :: 0 <= i < |es| ==> es[i].msg == ms[i]
  }

  /** The event side of struct gwrl. `released` records every node given to gwrl_evt_free. */
  class EventQueue {
    var events: Evt?
    var cevents: Evt?
    var ncevents: nat
    const cacheMax: nat
    ghost var pending: seq<Evt>
    ghost var msgs: seq<Msg>
    ghost var cached: seq<Evt>
    ghost var released: seq<Evt>

    ghost predicate CacheValid()
      reads `cevents, `ncevents, `cached, cached`next
    {
      Chain(cevents, cached) && ncevents == |cached| <= cacheMax
    }

    ghost predicate Valid()
      reads `events, `cevents, `ncevents, `pending, `msgs, `cached, pending`next, pending`msg, cached`next
    {
      CacheValid() && Chain(events, pending) && Bears(pending, msgs) && Apart(pending, cached)
    }

    constructor (cacheMax: nat)
      ensures Valid() && pending == [] && cached == [] && released == [] && this.cacheMax == cacheMax
    {
      events, cevents, ncevents, this.cacheMax := null, null, 0, cacheMax;
      pending, msgs, cached, released := [], [], [], [];
    }

    /** gwrl_evt_create */
    method Create(msg: Msg) returns (e: Evt)
      requires CacheValid()
      modifies `cevents, `ncevents, `cached, cached`next, cached`msg
      ensures CacheValid() && e.msg == msg && e.next == null
      ensures old(cached) == [] ==> fresh(e) && cached == []
      ensures old(cached) != [] ==> e == old(cached)[0] && cached == old(cached)[1..]
      ensures e !in cached
    {
      if cevents != null {
        e := cevents;
        assert e == cached[0] && cached[0].next == if 1 < |cached| then cached[1] else null;
        cevents := e.next;
        ncevents := ncevents - 1;
        cached := cached[1..];
        e.next := null;
      } else {
        e := new Evt();
      }
      e.msg := msg;
    }

    /** gwrl_evt_free */
    method Free(e: Evt)
      requires CacheValid() && e !in cached
      modifies `cevents, `ncevents, `cached, `released, e
      ensures CacheValid() && released == old(released) + [e]
      ensures cached == if |old(cached)| < cacheMax then [e] + old(cached) else old(cached)
      ensures |old(cached)| < cacheMax ==> e.msg == BLANK
    {
      if ncevents < cacheMax {
        e.msg, e.next := BLANK, null;
        if cevents != null {
          e.next := cevents;
        }
        cevents := e;
        ncevents := ncevents + 1;
        cached := [e] + cached;
      }
      released := released + [e];
    }

    /** gwrl_evt_free_list */
    method FreeList(head: Evt?, ghost es: seq<Evt>)
      requires CacheValid() && Chain(head, es) && Apart(es, cached)
      modifies `cevents, `ncevents, `cached, `released, es
      ensures CacheValid() && released == old(released) + es
      ensures cached == Recycled(es, old(cached), cacheMax)
    {
      var evt := head;
      ghost var i := 0;
      while evt != null
        invariant 0 <= i <= |es| && evt == if i < |es| then es[i] else null
        invariant forall j {:trigger es[j].next} :: i <= j < |es| ==> es[j].next == if j + 1 < |es| then es[j + 1] else null
        invariant forall j, k :: i <= j < |es| && 0 <= k < |cached| ==> es[j] != cached[k]
        invariant CacheValid() && released == old(released) + es[..i]
        invariant Recycled(es[i..], cached, cacheMax) == Recycled(es, old(cached), cacheMax)
        decreases |es| - i
      {
        var nev := evt.next;
        assert es[i..][1..] == es[i + 1..] && es[..i + 1] == es[..i] + [es[i]];
        Free(evt);
        evt := nev;
        i := i + 1;
      }
    }

    /** gwrl_post_evt, which links the node only if the list is not empty. */
    method Post(e: Evt)
      requires Valid() && e !in pending && e !in cached
      requires e.next == null || pending != []
      modifies `events, `pending, `msgs, e`next
      ensures Valid() && pending == [e] + old(pending) && msgs == [e.msg] + old(msgs)
    {
      if events != null {
        e.next := events;
      }
      events := e;
      pending, msgs := [e] + pending, [e.msg] + msgs;
    }

    /** gwrl_evt_create followed by gwrl_post_evt. */
    method PostNew(m: Msg)
      requires Valid()
      modifies this, cached`next, cached`msg
      ensures Valid() && msgs == [m] + old(msgs) && released == old(released)
      ensures pending[1..] == old(pending) && (pending[0] in old(cached) || fresh(pending[0]))
      ensures cached == if old(cached) == [] then [] else old(cached)[1..]
    {
      var e := Create(m);
      Post(e);
    }
  }

  /** The cache after the nodes `es` have been freed one by one. */
  ghost function Recycled(es: seq<Evt>, cached: seq<Evt>, max: nat): seq<Evt>
    decreases |es|
  {
    if es == [] then cached
    else Recycled(es[1..], if |cached| < max then [es[0]] + cached else cached, max)
  }

  /** Freeing n events with k cached leaves min(max, k + n): the first ones freed, last on top. */
  lemma {:induction false} RecycledIs(es: seq<Evt>, cached: seq<Evt>, max: nat)
    requires |cached| <= max
    ensures var room := if |es| <= max - |cached| then |es| else max - |cached|;
            Recycled(es, cached, max) == Reverse(es[..room]) + cached
    decreases |es|
  {
    if es != [] {
      if |cached| < max {
        RecycledIs(es[1..], [es[0]] + cached, max);
        var room := if |es| <= max - |cached| then |es| else max - |cached|;
        assert es[1..][..room - 1] == es[..room][1..];
        assert Reverse(es[..room][1..]) + ([es[0]] + cached) == Reverse(es[..room]) + cached;
      } else {
        RecycledIs(es[1..], cached, max);
        assert es[..0] == [] == es[1..][..0];
      }
    }
  }

  lemma {:induction false} RecycledNodes(es: seq<Evt>, cached: seq<Evt>, max: nat)
    ensures forall e :: e in Recycled(es, cached, max) ==> e in es || e in cached
    decreases |es|
  {
    if es != [] {
      RecycledNodes(es[1..], if |cached| < max then [es[0]] + cached else cached, max);
    }
  }
}
