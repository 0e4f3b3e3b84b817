/** gwrl_time_gather on the heap: one walk that fires, re-arms, disables or deletes the nodes of the
    timer list, and shortens the backend's timeout. */
module TimerGather {
  import opened Seqs
  import opened Flags
  import opened TimeSpec
  import opened TimerSpec
  import opened Reactor
  import opened Sources

  ghost predicate Ticks(ss: seq<Src>, ts: seq<Timer>)
    reads ss`flags, ss`when
  {
    |ss| == |ts| && forall i {:trigger ss[i]} :: 0 <= i < |ss| ==> IsTimer(ss[i], ts[i])
  }

  ghost predicate IsTimer(s: Src, t: Timer)
    reads s`flags, s`when
  {
    s.kind == TimeSource && t == Timer(s.flags, s.ms, s.when)
  }

  /** The event of an expired timer. */
  function Expiry(s: Src): Msg { Msg(s.callback, s.userdata, s, 0, {}) }

  function Expiries(ss: seq<Src>): (ms: seq<Msg>)
    ensures |ms| == |ss|
  {
    if ss == [] then [] else [Expiry(ss[0])] + Expiries(ss[1..])
  }

  /** What the event of an expired timer tells its callback. */
  predicate ExpiryCarries(m: Msg, s: Src) {
    m.callback == s.callback && m.userdata == s.userdata && m.src == s && m.fd == 0 && m.flags == {}
  }

  lemma {:induction false} ExpiriesCarry(ss: seq<Src>, k: nat)
    requires k < |ss|
    ensures ExpiryCarries(Expiries(ss)[k], ss[k])
  {
    if k > 0 {
      ExpiriesCarry(ss[1..], k - 1);
    }
  }

  lemma ExpiriesGrow(s: Src, fired: seq<Src>, posted: bool, msgs: seq<Msg>)
    ensures Expiries((if posted then [s] else []) + fired) + msgs ==
            (if posted then [Expiry(s)] else []) + (Expiries(fired) + msgs)
  {
    if posted {
      assert ([s] + fired)[1..] == fired;
      Associates([Expiry(s)], Expiries(fired), msgs);
    } else {
      assert [] + fired == fired;
    }
  }

  /** The other timers stay as they are, and this one, if it is left, is what it comes to. */
  lemma TicksStep(w: Walk<Src>, now: Timespec)
    requires w.n < |w.ts| == |w.nodes|
    requires forall i {:trigger w.nodes[i]} :: 0 <= i < |w.ts| && i != w.n ==> IsTimer(w.nodes[i], w.ts[i])
    requires After(w.ts[w.n], now) != [] ==> IsTimer(w.nodes[w.n], After(w.ts[w.n], now)[0])
    ensures Ticks(StepWalk(w, now).nodes, StepWalk(w, now).ts)
  {
  }

  /** The reactor's part in a gather: the timer list, the event queue and the backend's timeout. */
  class Clock {
    const timers: SourceList
    const q: EventQueue
    var timeout: Timespec
    ghost var ticks: seq<Timer>

    ghost predicate Valid()
      reads this, timers, timers.nodes, q, q.pending, q.cached
    {
      timers.Valid() && Ticks(timers.nodes, ticks) && q.Valid()
    }

    constructor (q: EventQueue)
      requires q.Valid()
      ensures Valid() && this.q == q && timers.nodes == [] && timeout == NEVER && fresh(timers)
    {
      timers := new SourceList();
      this.q, timeout, ticks := q, NEVER, [];
    }

    /** Two places of the gather: an unset timeout is replaced, any other one only by a smaller. */
    method ShortenTimeout(left: Timespec)
      modifies `timeout
      ensures timeout == Shorten(old(timeout), left)
    {
      if timeout.sec == -1 && timeout.nsec == -1 {
        timeout := left;
      } else {
        var copied;
        timeout, copied := CopyIfSmaller(left, timeout);
      }
    }

    /** A relative timer without a deadline gets one. */
    method Arm(tsrc: Src, now: Timespec, ghost t: Timer)
      requires IsTimer(tsrc, t)
      modifies tsrc`when
      ensures IsTimer(tsrc, t.(when := Deadline(t, now)))
    {
      if WHENCE_ABS !in tsrc.flags && tsrc.when.sec == -1 && tsrc.when.nsec == -1 {
        tsrc.when := AddMsToTimespec(tsrc.ms, now);
      }
    }

    /** A timer that has expired: it is re-armed, or disabled, or has to go. */
    method Expire(tsrc: Src, now: Timespec, ghost t: Timer) returns (gone: bool)
      requires Fires(t, now) && IsTimer(tsrc, t.(when := Deadline(t, now)))
      modifies `timeout, tsrc`flags, tsrc`when
      ensures gone == (After(t, now) == [])
      ensures !gone ==> IsTimer(tsrc, After(t, now)[0])
      ensures timeout == if Waits(t, now) then Shorten(old(timeout), TimeLeft(t, now)) else old(timeout)
    {
      gone := false;
      if REPEAT in tsrc.flags {
        tsrc.when := AddMsToTimespec(tsrc.ms, tsrc.when);
        var timediff := SubInto(tsrc.when, now);
        ShortenTimeout(timediff);
      } else if PERSIST in tsrc.flags {
        tsrc.flags := tsrc.flags - {ENABLED};
        tsrc.when := NEVER;
      } else {
        gone := true;
      }
    }

    /** One enabled timer: its new state, its event if it fires, and the timeout. */
    method Tick(tsrc: Src, now: Timespec, ghost t: Timer) returns (posted: bool, gone: bool)
      requires q.Valid() && IsTimer(tsrc, t) && Enabled(t)
      modifies `timeout, q, q.cached, tsrc`flags, tsrc`when
      ensures posted == Fires(t, now) && gone == (After(t, now) == [])
      ensures !gone ==> IsTimer(tsrc, After(t, now)[0])
      ensures timeout == if Waits(t, now) then Shorten(old(timeout), TimeLeft(t, now)) else old(timeout)
      ensures q.Valid() && q.msgs == (if posted then [Expiry(tsrc)] else []) + old(q.msgs)
      ensures q.released == old(q.released)
    {
      posted, gone := false, false;
      Arm(tsrc, now, t);
      var timediff := SubInto(tsrc.when, now);
      if IsExpired(timediff) {
        q.PostNew(Msg(tsrc.callback, tsrc.userdata, tsrc, 0, {}));
        posted := true;
        gone := Expire(tsrc, now, t);
      } else {
        ShortenTimeout(timediff);
      }
    }

    /** One timer, enabled or not. */
    method LookAt(tsrc: Src, now: Timespec, ghost t: Timer) returns (posted: bool, gone: bool)
      requires q.Valid() && IsTimer(tsrc, t)
      modifies `timeout, q, q.cached, tsrc`flags, tsrc`when
      ensures posted == Fires(t, now) && gone == (After(t, now) == [])
      ensures !gone ==> IsTimer(tsrc, After(t, now)[0])
      ensures timeout == if Waits(t, now) then Shorten(old(timeout), TimeLeft(t, now)) else old(timeout)
      ensures q.Valid() && q.msgs == (if posted then [Expiry(tsrc)] else []) + old(q.msgs)
      ensures q.released == old(q.released)
    {
      posted, gone := false, false;
      if ENABLED in tsrc.flags {
        posted, gone := Tick(tsrc, now, t);
      }
    }

    /** In the middle of the walk `w`; `prev`, if it is set, is the node in front of `tsrc`. */
    ghost predicate Walking(tsrc: Src?, prev: Src?, w: Walk<Src>, msgs0: seq<Msg>)
      reads `timeout, timers, timers.nodes, q, q.pending, q.cached
    {
      && timers.Valid() && timers.nodes == w.nodes && Ticks(w.nodes, w.ts) && q.Valid() && w.n <= |w.ts|
      && tsrc == (if w.n < |w.ts| then w.nodes[w.n] else null)
      && (prev != null ==> w.n > 0 && prev == w.nodes[w.n - 1])
      && timeout == w.timeout && q.msgs == Expiries(w.fired) + msgs0
    }

    /** A timer that has to go is unlinked: past its predecessor if that is known, else at the head or
        by search. */
    method Drop(tsrc: Src, prev: Src?, ghost n: nat) returns (after: Src?)
      requires timers.Valid() && n < |timers.nodes| && tsrc == timers.nodes[n]
      requires prev != null ==> n > 0 && prev == timers.nodes[n - 1]
      modifies timers, timers.nodes`next
      ensures timers.Valid() && timers.nodes == old(timers.nodes[..n] + timers.nodes[n + 1..])
      ensures after == if n + 1 < |old(timers.nodes)| then old(timers.nodes[n + 1]) else null
    {
      assert timers.nodes[n].next == if n + 1 < |timers.nodes| then timers.nodes[n + 1] else null;
      WithoutAt(timers.nodes, n);
      after := tsrc.next;
      timers.Delete(tsrc, prev);
    }

    /** The part of a turn that looks at the timer. */
    method Visit(tsrc: Src, prev: Src?, now: Timespec, ghost w: Walk<Src>, ghost msgs0: seq<Msg>)
      returns (posted: bool, gone: bool, ghost v: Walk<Src>)
      requires Walking(tsrc, prev, w, msgs0) && w.n < |w.ts|
      modifies `timeout, q, q.cached, tsrc`flags, tsrc`when
      ensures posted == Fires(w.ts[w.n], now) && v == StepWalk(w, now)
      ensures v.nodes == if gone then w.nodes[..w.n] + w.nodes[w.n + 1..] else w.nodes
      ensures v.n == if gone then w.n else w.n + 1
      ensures |v.ts| == |v.nodes| && Ticks(v.nodes, v.ts) && timeout == v.timeout
      ensures timers.Valid() && timers.nodes == w.nodes
      ensures q.Valid() && q.msgs == Expiries(v.fired) + msgs0 && q.released == old(q.released)
    {
      v := StepWalk(w, now);
      ghost var n := w.n;
      assert forall i :: 0 <= i < |w.ts| && i != n ==> w.nodes[i] != tsrc;
      assert IsTimer(w.nodes[n], w.ts[n]);
      posted, gone := LookAt(tsrc, now, w.ts[n]);
      ExpiriesGrow(tsrc, w.fired, posted, msgs0);
      assert forall i {:trigger w.nodes[i]} :: 0 <= i < |w.ts| && i != n ==> IsTimer(w.nodes[i], w.ts[i]);
      TicksStep(w, now);
    }

    /** The part of a turn that moves on, unlinking the node if it has to go. */
    method MoveOn(tsrc: Src, prev: Src?, gone: bool, ghost n: nat, ghost n': nat, ghost nodes: seq<Src>)
      returns (tsrc': Src?, prev': Src?)
      requires timers.Valid() && n < |timers.nodes| && tsrc == timers.nodes[n]
      requires prev != null ==> n > 0 && prev == timers.nodes[n - 1]
      requires nodes == if gone then timers.nodes[..n] + timers.nodes[n + 1..] else timers.nodes
      requires n' == if gone then n else n + 1
      modifies timers, timers.nodes`next
      ensures timers.Valid() && timers.nodes == nodes && n' <= |nodes|
      ensures tsrc' == (if n' < |nodes| then nodes[n'] else null)
      ensures prev' != null ==> n' > 0 && prev' == nodes[n' - 1]
    {
      if gone {
        tsrc' := Drop(tsrc, prev, n);
        prev' := null;
      } else {
        assert timers.nodes[n].next == if n + 1 < |timers.nodes| then timers.nodes[n + 1] else null;
        prev', tsrc' := tsrc, tsrc.next;
      }
    }

    /** One turn of the walk. */
    method Step(tsrc: Src, prev: Src?, now: Timespec, ghost w: Walk<Src>, ghost msgs0: seq<Msg>)
      returns (tsrc': Src?, prev': Src?, posted: bool, ghost v: Walk<Src>)
      requires Walking(tsrc, prev, w, msgs0) && w.n < |w.ts|
      modifies `timeout, q, q.cached, timers, timers.nodes
      ensures posted == Fires(w.ts[w.n], now) && v == StepWalk(w, now)
      ensures Walking(tsrc', prev', v, msgs0)
      ensures q.released == old(q.released)
    {
      var gone;
      posted, gone, v := Visit(tsrc, prev, now, w, msgs0);
      label Visited:
      tsrc', prev' := MoveOn(tsrc, prev, gone, w.n, v.n, v.nodes);
      assert Ticks(v.nodes, v.ts) == old@Visited(Ticks(v.nodes, v.ts)) && q.Valid() == old@Visited(q.Valid());
    }

    /** The walk from `w0` has come to `w`. */
    ghost predicate Gathering(tsrc: Src?, prev: Src?, posted: bool, w: Walk<Src>, msgs0: seq<Msg>,
                              w0: Walk<Src>, now: Timespec)
      reads `timeout, timers, timers.nodes, q, q.pending, q.cached
    {
      && Walking(tsrc, prev, w, msgs0) && w0.n <= |w0.ts| == |w0.nodes|
      && FinishWalk(w, now) == FinishWalk(w0, now)
      && posted == (w.fired != [])
      && forall i :: 0 <= i < |timers.nodes| ==> timers.nodes[i] in w0.nodes
    }

    method Turn(tsrc: Src, prev: Src?, posted: bool, now: Timespec, ghost w: Walk<Src>, ghost msgs0: seq<Msg>,
                ghost w0: Walk<Src>)
      returns (tsrc': Src?, prev': Src?, posted': bool, ghost w': Walk<Src>)
      requires Gathering(tsrc, prev, posted, w, msgs0, w0, now) && w.n < |w.ts|
      modifies `timeout, q, q.cached, timers, timers.nodes
      ensures Gathering(tsrc', prev', posted', w', msgs0, w0, now)
      ensures |w'.ts| - w'.n < |w.ts| - w.n && q.released == old(q.released)
    {
      var fired;
      StepKeeps(w, now, w0.nodes);
      tsrc', prev', fired, w' := Step(tsrc, prev, now, w, msgs0);
      posted' := posted || fired;
    }

    method GatherLoop(now: Timespec, ghost w0: Walk<Src>, ghost msgs0: seq<Msg>)
      returns (posted: bool, ghost w: Walk<Src>)
      requires Valid() && w0 == Walk(0, timers.nodes, ticks, timeout, []) && msgs0 == q.msgs
      modifies `timeout, q, timers, timers.nodes, (set e: Evt {:trigger e.next} | true)
      ensures timers.Valid() && Ticks(timers.nodes, w.ts) && q.Valid() && q.released == old(q.released)
      ensures timers.nodes == w.nodes && timeout == w.timeout && q.msgs == Expiries(w.fired) + msgs0
      ensures posted == (w.fired != []) && w == FinishWalk(w0, now)
    {
      w := w0;
      assert Expiries(w0.fired) + msgs0 == msgs0;
      var tsrc, prev;
      tsrc, prev, posted := timers.head, null, false;
      while tsrc != null
        invariant Gathering(tsrc, prev, posted, w, msgs0, w0, now)
        invariant q.released == old(q.released)
        decreases |w.ts| - w.n
      {
        tsrc, prev, posted, w := Turn(tsrc, prev, posted, now, w, msgs0, w0);
      }
    }

    /** The whole walk, in terms of the list at its start. */
    method GatherTimers(now: Timespec, ghost ss: seq<Src>, ghost ts: seq<Timer>) returns (posted: bool)
      requires Valid() && ss == timers.nodes && ts == ticks
      modifies `timeout, q, timers, timers.nodes, (set e: Evt {:trigger e.next} | true)
      ensures timers.Valid() && q.Valid() && q.released == old(q.released)
      ensures timers.nodes == Survivors(ss, ts, now) && Ticks(timers.nodes, Afters(ts, now))
      ensures q.msgs == Expiries(Reverse(FiredOf(ss, ts, now))) + old(q.msgs)
      ensures (if posted then ZERO else timeout) == SleepTime(ts, now, old(timeout))
    {
      WalkMeans(ss, ts, now, timeout);
      ghost var w;
      posted, w := GatherLoop(now, Walk(0, ss, ts, timeout, []), q.msgs);
    }

    /** gwrl_time_gather at `now`: the list keeps, in order, the nodes of the timers that survive; each
        timer that fires has one event, in the reverse order of the walk; and the timeout is the time
        the backend may sleep. */
    method Gather(now: Timespec)
      requires Valid()
      modifies this, q, timers, timers.nodes, (set e: Evt {:trigger e.next} | true)
      ensures Valid()
      ensures timers.nodes == Survivors(old(timers.nodes), old(ticks), now) && ticks == Afters(old(ticks), now)
      ensures q.msgs == Expiries(Reverse(FiredOf(old(timers.nodes), old(ticks), now))) + old(q.msgs)
      ensures timeout == SleepTime(old(ticks), now, old(timeout))
      ensures q.released == old(q.released)
    {
      var posted := GatherTimers(now, timers.nodes, ticks);
      ticks := Afters(ticks, now);
      if posted {
        timeout := ZERO;
      }
    }
  }

  lemma WalkMeans(ss: seq<Src>, ts: seq<Timer>, now: Timespec, timeout: Timespec)
    requires |ss| == |ts|
    ensures var w := FinishWalk(Walk(0, ss, ts, timeout, []), now);
      && w.nodes == Survivors(ss, ts, now) && w.ts == Afters(ts, now)
      && w.fired == Reverse(FiredOf(ss, ts, now))
      && SleepTime(ts, now, timeout) == (if w.fired != [] then ZERO else w.timeout)
  {
    WalkIs(ss, ts, now, timeout);
    FiredSame(ss, ts, now);
  }

  lemma {:induction false} FiredSame(ss: seq<Src>, ts: seq<Timer>, now: Timespec)
    requires |ss| == |ts|
    ensures |FiredOf(ts, ts, now)| == |FiredOf(ss, ts, now)|
    decreases |ts|
  {
    if ts != [] {
      FiredSame(ss[..|ss| - 1], ts[..|ts| - 1], now);
    }
  }
}
