/** gwrl_free, after its last dispatch: every event is freed once, and the sources are handed over as
    one list or freed once each. */
module Shutdown {
  import opened Seqs
  import opened Reactor
  import opened Sources
  import CrossThread
  import QueuedSources

  lemma ChainTail(head: Evt, es: seq<Evt>)
    requires es != [] && Chain(head, es)
    ensures head == es[0] && Chain(head.next, es[1..])
  {
    assert es[0].next == if 1 < |es| then es[1] else null;
    assert forall i :: 0 <= i < |es| - 1 ==> es[1..][i].next == es[i + 1].next;
  }

  lemma SrcChainTail(head: Src, ss: seq<Src>)
    requires ss != [] && SrcChain(head, ss)
    ensures head == ss[0] && SrcChain(head.next, ss[1..]) && head !in ss[1..]
  {
    assert ss[0].next == if 1 < |ss| then ss[1] else null;
    assert forall i :: 0 <= i < |ss| - 1 ==> ss[1..][i].next == ss[i + 1].next;
  }

  lemma MoveOne<T>(done: seq<T>, rest: seq<T>, tail: seq<T>)
    requires rest != []
    ensures done + [rest[0]] + rest[1..] + tail == done + rest + tail
  {
  }

  lemma EachOnce<T>(xs: seq<T>, ys: seq<T>, zs: seq<T>)
    requires Distinct(xs) && Distinct(ys) && Distinct(zs)
    requires Apart(xs, ys) && (Apart(xs, zs) || Apart(zs, xs)) && (Apart(ys, zs) || Apart(zs, ys))
    ensures Distinct(xs + ys + zs)
  {
  }

  /** A call of gwrl_free, on its way: what has been freed, and the list for the caller if there is to
      be one (`keep`). `done` are the sources dealt with. */
  class Teardown {
    const keep: bool
    ghost var freedEvts: seq<Evt>
    ghost var freedSrcs: seq<Src>
    ghost var done: seq<Src>
    var head: Src?
    var last: Src?

    ghost predicate Valid()
      reads this, done`next
    {
      if keep then
        SrcChain(head, done) && last == (if done == [] then null else Last(done)) && freedSrcs == []
      else
        head == null && last == null && freedSrcs == done
    }

    constructor (keep: bool)
      ensures Valid() && this.keep == keep && done == [] && freedEvts == []
    {
      this.keep, head, last, done, freedEvts, freedSrcs := keep, null, null, [], [], [];
    }

    /** The pending events, and after the last of them the cached ones. */
    method FreeEvents(q: EventQueue)
      requires q.Valid()
      modifies `freedEvts, q`cevents
      ensures freedEvts == old(freedEvts) + q.pending + q.cached && q.cevents == null
    {
      var evt := q.events;
      ghost var rest, tail := q.pending, q.cached;
      if evt == null {
        evt := q.cevents;
        q.cevents := null;
        rest, tail := tail, [];
      }
      assert freedEvts + rest + tail == old(freedEvts) + q.pending + q.cached;
      while evt != null
        invariant Chain(evt, rest) && Chain(q.cevents, tail) && (rest == [] ==> tail == [])
        invariant freedEvts + rest + tail == old(freedEvts) + q.pending + q.cached
        decreases |rest| + |tail|
      {
        var del := evt;
        ChainTail(evt, rest);
        MoveOne(freedEvts, rest, tail);
        evt := evt.next;
        freedEvts := freedEvts + [del];
        rest := rest[1..];
        if evt == null {
          evt := q.cevents;
          q.cevents := null;
          assert freedEvts + rest + tail == freedEvts + tail + [];
          rest, tail := tail, [];
        }
      }
    }

    /** The events queued by other threads. */
    method FreeQueuedEvents(m: CrossThread.Mailbox)
      requires m.Valid()
      modifies `freedEvts, m`qevt
      ensures freedEvts == old(freedEvts) + m.queued && m.qevt == null
    {
      var evt := m.qevt;
      ghost var rest := m.queued;
      m.qevt := null;
      while evt != null
        invariant Chain(evt, rest) && freedEvts + rest == old(freedEvts) + m.queued && m.qevt == null
        decreases |rest|
      {
        var del := evt;
        ChainTail(evt, rest);
        MoveOne(freedEvts, rest, []);
        evt := evt.next;
        freedEvts := freedEvts + [del];
        rest := rest[1..];
      }
    }

    /** One source: appended to the list for the caller, or freed. */
    method Deliver(src: Src)
      requires Valid() && src !in done
      modifies `head, `last, `done, `freedSrcs, src`next, (if last == null then {} else {last})`next
      ensures Valid() && done == old(done) + [src]
      ensures last == (if keep then src else old(last))
    {
      if !keep {
        freedSrcs := freedSrcs + [src];
      } else {
        src.next := null;
        if head == null {
          head := src;
        }
        if last == null {
          last := src;
        } else {
          last.next := src;
          last := src;
        }
        assert forall i :: 0 <= i < |done| ==> done[i] != src;
      }
      done := done + [src];
    }

    /** All the sources of one list, in order. */
    method DeliverAll(first: Src?, ghost ss: seq<Src>)
      requires Valid() && SrcChain(first, ss) && Apart(ss, done)
      modifies `head, `last, `done, `freedSrcs, ss`next, (if last == null then {} else {last})`next
      ensures Valid() && done == old(done) + ss
      ensures last == old(last) || last in ss
    {
      var src := first;
      ghost var rest, k := ss, 0;
      while src != null
        invariant SrcChain(src, rest) && Apart(rest, done) && Valid()
        invariant k <= |ss| && rest == ss[k..] && done + rest == old(done) + ss
        invariant last == old(last) || last in ss
        decreases |rest|
      {
        var delsrc := src;
        SrcChainTail(src, rest);
        MoveOne(done, rest, []);
        src := src.next;
        rest, k := rest[1..], k + 1;
        Deliver(delsrc);
      }
    }

    /** The registered sources, by type, and then the queued ones. */
    method DeliverSources(file: Src?, timer: Src?, queued: Src?, ghost fs: seq<Src>, ghost ts: seq<Src>, ghost bs: seq<Src>)
      requires Valid() && done == []
      requires SrcChain(file, fs) && SrcChain(timer, ts) && SrcChain(queued, bs)
      requires Apart(fs, ts) && Apart(fs, bs) && Apart(ts, bs)
      modifies `head, `last, `done, `freedSrcs, fs`next, ts`next, bs`next
      ensures Valid() && done == fs + ts + bs
    {
      DeliverAll(file, fs);
      assert done == fs;
      DeliverAll(timer, ts);
      DeliverAll(queued, bs);
    }

    /** Every event is freed exactly once: pending, cached, then queued. */
    method FreeAllEvents(q: EventQueue, m: CrossThread.Mailbox)
      requires freedEvts == [] && q.Valid() && m.Valid() && Apart(m.queued, q.pending) && Apart(m.queued, q.cached)
      modifies `freedEvts, q`cevents, m`qevt
      ensures freedEvts == q.pending + q.cached + m.queued && Distinct(freedEvts)
      ensures q.cevents == null && m.qevt == null
    {
      EachOnce(q.pending, q.cached, m.queued);
      FreeEvents(q);
      FreeQueuedEvents(m);
    }

    /** gwrl_free after its last dispatch. With `keep` the caller gets one list of the registered
        sources by type and then the queued ones, in order; without it each is freed. Every event is
        freed: pending, cached, then queued. Nothing is listed or freed twice. */
    method FreeAll(q: EventQueue, files: SourceList, timers: SourceList, box: QueuedSources.SourceBox,
                   m: CrossThread.Mailbox)
      returns (sources: Src?)
      requires Valid() && done == [] && freedEvts == []
      requires q.Valid() && files.Valid() && timers.Valid() && box.Valid() && m.Valid()
      requires Apart(files.nodes, timers.nodes) && Apart(files.nodes, box.queued)
      requires Apart(timers.nodes, box.queued) && Apart(m.queued, q.pending) && Apart(m.queued, q.cached)
      modifies this, q`cevents, m`qevt, files`head, timers`head, box`qsrc
      modifies files.nodes`next, timers.nodes`next, box.queued`next
      ensures freedEvts == old(q.pending + q.cached + m.queued) && Distinct(freedEvts)
      ensures var all := old(files.nodes + timers.nodes + box.queued);
        if keep then SrcChain(sources, all) && freedSrcs == []
        else sources == null && freedSrcs == all && Distinct(freedSrcs)
      ensures q.cevents == null && m.qevt == null && files.head == null && timers.head == null && box.qsrc == null
    {
      EachOnce(files.nodes, timers.nodes, box.queued);
      FreeAllEvents(q, m);
      DeliverSources(files.head, timers.head, box.qsrc, files.nodes, timers.nodes, box.queued);
      files.head, timers.head, box.qsrc := null, null, null;
      sources := head;
    }
  }
}
