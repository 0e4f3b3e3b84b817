/** Parts of a turn of gwrl_run put together: timers registered, enabled and disabled, a gather of the
    timers followed by a dispatch, and a gather of the files with its posts. */
module EventLoop {
  import opened Seqs
  import opened Flags
  import opened TimeSpec
  import opened TimerSpec
  import opened TimerLife
  import opened Reactor
  import opened TimerGather
  import Dispatch
  import Poll

  function TimerOf(s: Src): Timer
    reads s`flags, s`when
  {
    Timer(s.flags, s.ms, s.when)
  }

  /** gwrl_src_add of a timer. With `reg` the timers so far in the order of registration, the list
      is its reverse before and after. */
  method Register(clock: Clock, src: Src, ghost reg: seq<Src>, ghost ts: seq<Timer>)
    requires clock.Valid() && src.kind == TimeSource && src !in clock.timers.nodes
    requires src.next == null || clock.timers.nodes != []
    requires clock.timers.nodes == Reverse(reg) && clock.ticks == Reverse(ts)
    modifies clock`ticks, clock.timers, src`next
    ensures clock.Valid()
    ensures clock.timers.nodes == Reverse(reg + [src]) && clock.ticks == Reverse(ts + [TimerOf(src)])
  {
    ReverseAppends(reg, [src]);
    ReverseAppends(ts, [TimerOf(src)]);
    assert Reverse([src]) == [src] && Reverse([TimerOf(src)]) == [TimerOf(src)];
    clock.timers.Add(src);
    clock.ticks := [TimerOf(src)] + clock.ticks;
  }

  /** gwrl_src_enable of a timer at `now`: a relative one gets a new deadline. */
  function Reenabled(t: Timer, now: Timespec): Timer {
    t.(flags := t.flags + {ENABLED}, when := if WHENCE_ABS in t.flags then t.when else AddMs(t.ms, now))
  }

  method TurnOn(src: Src, now: Timespec)
    modifies src`flags, src`when
    ensures src.flags == old(src.flags) + {ENABLED}
    ensures src.when == if WHENCE_ABS in old(src.flags) then old(src.when) else AddMs(src.ms, now)
  {
    src.flags := src.flags + {ENABLED};
    if WHENCE_ABS !in src.flags {
      src.when := AddMsToTimespec(src.ms, now);
    }
  }

  method Enable(clock: Clock, src: Src, now: Timespec, ghost k: nat)
    requires clock.Valid() && k < |clock.timers.nodes| && clock.timers.nodes[k] == src
    modifies clock`ticks, src`flags, src`when
    ensures clock.Valid() && clock.ticks == old(clock.ticks)[k := Reenabled(old(clock.ticks)[k], now)]
  {
    assert IsTimer(src, clock.ticks[k]);
    TurnOn(src, now);
    clock.ticks := clock.ticks[k := Reenabled(clock.ticks[k], now)];
  }

  method Disable(clock: Clock, src: Src, ghost k: nat)
    requires clock.Valid() && k < |clock.timers.nodes| && clock.timers.nodes[k] == src
    modifies clock`ticks, src`flags
    ensures clock.Valid()
    ensures clock.ticks == old(clock.ticks)[k := old(clock.ticks)[k].(flags := old(clock.ticks)[k].flags - {ENABLED})]
  {
    assert IsTimer(src, clock.ticks[k]);
    src.flags := src.flags - {ENABLED};
    clock.ticks := clock.ticks[k := clock.ticks[k].(flags := clock.ticks[k].flags - {ENABLED})];
  }

  /** A relative timer enabled at `at` fires in a gather at `now` exactly if ms have gone by. */
  lemma EnabledTimerFires(t: Timer, at: Timespec, now: Timespec)
    requires WHENCE_ABS !in t.flags && t.ms >= 0 && Normal(at) && at.sec >= 0 && Normal(now)
    ensures Fires(Reenabled(t, at), now) <==> Nanos(at) + t.ms * NANOS_PER_MS <= Nanos(now)
  {
    AddMsIsExact(t.ms, at);
    NormalIsNotNever(Reenabled(t, at).when);
    FiresIffDue(Reenabled(t, at), now);
  }

  /** Over any gathers after a timer that does not repeat has been enabled: it fires exactly if one of them is
      not before its deadline, which is its own if it is absolute and otherwise ms from then. */
  lemma EnabledOneShotFires(t: Timer, at: Timespec, nows: seq<Timespec>)
    requires REPEAT !in t.flags && t.when.nsec < NANOS && t.ms >= 0 && Normal(at) && at.sec >= 0 && AllNormal(nows)
    ensures var deadline := if WHENCE_ABS in t.flags then Nanos(t.when) else Nanos(at) + t.ms * NANOS_PER_MS;
      Firings(Reenabled(t, at), nows) == if Reached(deadline, nows) then 1 else 0
  {
    AddMsIsExact(t.ms, at);
    OneShotFiresIff(Reenabled(t, at), nows);
  }

  /** Enabling changes flag and deadline; disabling undoes it but for the deadline, and the timer then stays
      as it is over any gathers. */
  lemma DisabledAgain(t: Timer, at: Timespec, nows: seq<Timespec>)
    requires ENABLED !in t.flags
    ensures var u := Reenabled(t, at); var v := u.(flags := u.flags - {ENABLED});
      v == t.(when := u.when) && Live(v, nows) == [v] && Firings(v, nows) == 0
  {
    var u := Reenabled(t, at);
    assert u.flags - {ENABLED} == t.flags;
    DisabledStays(u.(flags := u.flags - {ENABLED}), nows);
  }

  /** A gather at `now`, in terms of the order of registration: the events stand in that order at the
      front of the list, and the timers that stay keep their order. */
  method GatherInOrder(clock: Clock, now: Timespec, ghost reg: seq<Src>, ghost ts: seq<Timer>)
    requires clock.Valid() && |reg| == |ts| && clock.timers.nodes == Reverse(reg) && clock.ticks == Reverse(ts)
    modifies clock, clock.q, clock.timers, clock.timers.nodes, (set e: Evt {:trigger e.next} | true)
    ensures clock.Valid() && clock.timers.nodes == Reverse(Survivors(reg, ts, now))
    ensures clock.q.msgs == Expiries(FiredOf(reg, ts, now)) + old(clock.q.msgs)
  {
    RegistrationOrder(reg, ts, now);
    clock.Gather(now);
  }

  /** These are calls for these sources, in this order: each event carries its source's own callback and
      userdata, and no descriptor or flags. */
  predicate CallsFor(ss: seq<Src>, calls: seq<Dispatch.Call>) {
    && |ss| == |calls|
    && forall i {:trigger calls[i]} :: 0 <= i < |ss| ==> ExpiryCarries(calls[i].msg, ss[i])
  }

  /** Those of the sources that have a callback. */
  function WithCallback(ss: seq<Src>): seq<Src> {
    if ss == [] then []
    else WithCallback(ss[..|ss| - 1]) + (if Last(ss).callback != 0 then [Last(ss)] else [])
  }

  /** The callbacks made for a batch of timer events are those of the timers that have one. */
  lemma {:induction false} MadeFor(ss: seq<Src>, calls: seq<Dispatch.Call>)
    requires CallsFor(ss, calls)
    ensures CallsFor(WithCallback(ss), Dispatch.Made(calls))
    decreases |ss|
  {
    if ss != [] {
      var n := |ss| - 1;
      assert forall i :: 0 <= i < n ==> calls[..n][i] == calls[i];
      MadeFor(ss[..n], calls[..n]);
      assert calls[n] == Last(calls);
    }
  }

  lemma {:induction false} MsgsAt(calls: seq<Dispatch.Call>, k: nat)
    requires k < |calls|
    ensures Dispatch.Msgs(calls)[k] == calls[k].msg
    decreases |calls|
  {
    if k < |calls| - 1 {
      MsgsAt(calls[..|calls| - 1], k);
    }
  }

  /** A batch of the events of timers that have expired. */
  lemma ExpiredBatch(ss: seq<Src>, calls: seq<Dispatch.Call>)
    requires Dispatch.Msgs(calls) == Expiries(ss)
    ensures CallsFor(ss, calls)
  {
    forall i {:trigger calls[i]} | 0 <= i < |calls|
      ensures ExpiryCarries(calls[i].msg, ss[i])
    {
      MsgsAt(calls, i);
      ExpiriesCarry(ss, i);
    }
  }

  lemma {:induction false} FirstRound(start: seq<Msg>, rounds: seq<seq<Dispatch.Call>>)
    requires Dispatch.Rounds(start, rounds) && rounds != []
    ensures Dispatch.IsRound(start, rounds[0])
    ensures Dispatch.Made(rounds[0]) <= Dispatch.AllMade(rounds)
    decreases |rounds|
  {
    var before := rounds[..|rounds| - 1];
    if |rounds| > 1 {
      FirstRound(start, before);
      assert before[0] == rounds[0];
    } else {
      assert Last(rounds) == rounds[0] && before == [];
    }
  }

  /** The timers `fired` make up the first batch, if there is any, and of those that have a callback it is
      called before anything else. */
  predicate CalledFirst(fired: seq<Src>, rounds: seq<seq<Dispatch.Call>>, made: seq<Dispatch.Call>) {
    if fired == [] then rounds == [] && made == []
    else
      && rounds != [] && CallsFor(fired, rounds[0])
      && |WithCallback(fired)| <= |made| && CallsFor(WithCallback(fired), made[..|WithCallback(fired)|])
  }

  lemma ExpiredBatchFirst(fired: seq<Src>, rounds: seq<seq<Dispatch.Call>>, made: seq<Dispatch.Call>)
    requires fired != [] && rounds != [] && Dispatch.Msgs(rounds[0]) == Expiries(fired)
    requires Dispatch.Made(rounds[0]) <= made
    ensures CalledFirst(fired, rounds, made)
  {
    ExpiredBatch(fired, rounds[0]);
    MadeFor(fired, rounds[0]);
  }

  lemma ExpiredFirst(fired: seq<Src>, rounds: seq<seq<Dispatch.Call>>, left: seq<Msg>)
    requires Dispatch.Dispatched(Expiries(fired), rounds, left)
    ensures CalledFirst(fired, rounds, Dispatch.AllMade(rounds))
  {
    if fired != [] {
      assert |Expiries(fired)| == |fired|;
      FirstRound(Expiries(fired), rounds);
      ExpiredBatchFirst(fired, rounds, Dispatch.AllMade(rounds));
    }
  }

  /** A gather at `now` and a dispatch: the timers that are due are called in the order they were
      registered, before anything their callbacks post. */
  method GatherAndDispatch(clock: Clock, loop: Dispatch.Loop, now: Timespec, ghost reg: seq<Src>, ghost ts: seq<Timer>)
    returns (ghost rounds: seq<seq<Dispatch.Call>>)
    requires clock.Valid() && clock.q == loop.q && loop.q.msgs == []
    requires |reg| == |ts| && clock.timers.nodes == Reverse(reg) && clock.ticks == Reverse(ts)
    modifies clock, loop, loop.q, clock.timers, clock.timers.nodes, (set e: Evt {:trigger e.next} | true)
    ensures loop.made == old(loop.made) + Dispatch.AllMade(rounds)
    ensures Dispatch.Dispatched(Expiries(FiredOf(reg, ts, now)), rounds, loop.q.msgs)
    ensures CalledFirst(FiredOf(reg, ts, now), rounds, loop.made[|old(loop.made)|..])
  {
    GatherInOrder(clock, now, reg, ts);
    assert loop.q.Valid() && loop.q.msgs == Expiries(FiredOf(reg, ts, now));
    ghost var taken;
    rounds, taken := loop.Dispatch();
    ExpiredFirst(FiredOf(reg, ts, now), rounds, loop.q.msgs);
    assert loop.made[|old(loop.made)|..] == Dispatch.AllMade(rounds);
  }

  /** The posts of a gather of the files. */
  method PostGathered(index: Poll.PollIndex, q: EventQueue, posts: seq<Msg>, ghost seen: nat, ghost broken: bool,
                      ghost ss: seq<Src>, ghost fl: seq<set<Flag>>, ghost ready: seq<set<Poll.Bit>>)
    requires q.Valid() && index.Valid() && index.Gathered(seen, broken, ss, fl, ready)
    modifies q, (set e: Evt {:trigger e.next} | true)
    ensures q.Valid() && index.Valid() && index.Gathered(seen, broken, ss, fl, ready)
    ensures q.msgs == Reverse(posts) + old(q.msgs)
  {
    Poll.PostAll(q, posts);
    assert index.Valid() == old(index.Valid());
    assert index.Gathered(seen, broken, ss, fl, ready) == old(index.Gathered(seen, broken, ss, fl, ready));
  }

  /** gwrl_bkd_gather with its posts: the events of the slots gone through stand in front of those there
      were, last slot first. All slots are gone through, up to one that is broken, if poll says that any are
      ready. */
  method GatherReady(index: Poll.PollIndex, q: EventQueue, res: int, ready: seq<set<Poll.Bit>>, ghost fl: seq<set<Flag>>)
    returns (ghost seen: nat, ghost broken: bool)
    requires index.Valid() && q.Valid() && |ready| == index.nfds == |fl|
    requires forall j :: 0 <= j < index.nfds ==> fl[j] == index.slotted[j].flags
    modifies index`nfds, index`slotted, index.fds, index.files.nodes`pfd, index.files.nodes`flags
    modifies q, (set e: Evt {:trigger e.next} | true)
    ensures index.Valid() && q.Valid() && index.Gathered(seen, broken, old(index.slotted), fl, ready)
    ensures if res <= 0 then seen == 0 else broken || seen == |ready|
    ensures q.msgs == Reverse(Poll.News(old(index.slotted)[..seen], fl[..seen], ready[..seen])) + old(q.msgs)
  {
    var posts;
    posts, seen, broken := index.GatherSlots(res, ready, fl);
    assert q.Valid() == old(q.Valid());
    PostGathered(index, q, posts, seen, broken, old(index.slotted), fl, ready);
  }
}
