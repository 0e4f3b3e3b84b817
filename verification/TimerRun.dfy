/** Runs of gathers on the heap: each timer lives and fires as it does by itself, whatever the others do. */
module TimerRun {
  import opened Seqs
  import opened TimeSpec
  import opened TimerSpec
  import opened Reactor
  import opened TimerGather

  /** The timers left after gathers at the times `nows`. */
  function AllLive(ts: seq<Timer>, nows: seq<Timespec>): seq<Timer>
    decreases |ts|
  {
    if ts == [] then [] else AllLive(ts[..|ts| - 1], nows) + Live(Last(ts), nows)
  }

  /** Of `xs`, those whose timers are left. */
  function LiveOf<T>(xs: seq<T>, ts: seq<Timer>, nows: seq<Timespec>): seq<T>
    requires |xs| == |ts|
    decreases |ts|
  {
    if ts == [] then []
    else LiveOf(xs[..|xs| - 1], ts[..|ts| - 1], nows) + (if Live(Last(ts), nows) != [] then [Last(xs)] else [])
  }

  /** The timer is left after `nows` and fires at `now`. */
  predicate FiresNext(t: Timer, nows: seq<Timespec>, now: Timespec) {
    var live := Live(t, nows); live != [] && Fires(live[0], now)
  }

  function NextOf<T>(xs: seq<T>, ts: seq<Timer>, nows: seq<Timespec>, now: Timespec): seq<T>
    requires |xs| == |ts|
    decreases |ts|
  {
    if ts == [] then []
    else NextOf(xs[..|xs| - 1], ts[..|ts| - 1], nows, now) + (if FiresNext(Last(ts), nows, now) then [Last(xs)] else [])
  }

  lemma {:induction false} AtMostOne(t: Timer, nows: seq<Timespec>)
    ensures |Live(t, nows)| <= 1
    decreases |nows|
  {
    if nows != [] {
      AtMostOne(t, nows[..|nows| - 1]);
    }
  }

  lemma {:induction false} SameNumber<T>(xs: seq<T>, ts: seq<Timer>, nows: seq<Timespec>)
    requires |xs| == |ts|
    ensures |LiveOf(xs, ts, nows)| == |AllLive(ts, nows)|
    decreases |ts|
  {
    if ts != [] {
      AtMostOne(Last(ts), nows);
      SameNumber(xs[..|xs| - 1], ts[..|ts| - 1], nows);
    }
  }

  lemma {:induction false} NoneGone(ts: seq<Timer>)
    ensures AllLive(ts, []) == ts
    decreases |ts|
  {
    if ts != [] {
      var before, t := ts[..|ts| - 1], Last(ts);
      NoneGone(before);
      assert AllLive(ts, []) == before + [t] by {
        assert Live(t, []) == [t];
      }
    }
  }

  lemma {:induction false} NothingYet<T>(xs: seq<T>, ts: seq<Timer>)
    requires |xs| == |ts|
    ensures LiveOf(xs, ts, []) == xs && AllLive(ts, []) == ts
    decreases |ts|
  {
    NoneGone(ts);
    if ts != [] {
      NothingYet(xs[..|xs| - 1], ts[..|ts| - 1]);
      assert LiveOf(xs, ts, []) == xs[..|xs| - 1] + [Last(xs)] by {
        assert Live(Last(ts), []) == [Last(ts)];
      }
    }
  }

  lemma {:induction false} AftersAppend(ts: seq<Timer>, us: seq<Timer>, now: Timespec)
    ensures Afters(ts + us, now) == Afters(ts, now) + Afters(us, now)
    decreases |us|
  {
    if us == [] {
      assert ts + us == ts;
    } else {
      AftersAppend(ts, us[..|us| - 1], now);
      assert (ts + us)[..|ts + us| - 1] == ts + us[..|us| - 1];
      Associates(Afters(ts, now), Afters(us[..|us| - 1], now), After(Last(us), now));
    }
  }

  /** One timer's part in a gather of the timers left. */
  lemma GatherOne<T>(x: T, t: Timer, nows: seq<Timespec>, now: Timespec)
    ensures var live := Live(t, nows);
      && |live| <= 1
      && var xs := if live != [] then [x] else [];
         && Afters(live, now) == Live(t, nows + [now])
         && Survivors(xs, live, now) == (if Live(t, nows + [now]) != [] then [x] else [])
         && FiredOf(xs, live, now) == (if FiresNext(t, nows, now) then [x] else [])
  {
    AtMostOne(t, nows);
    assert (nows + [now])[..|nows|] == nows;
    var live := Live(t, nows);
    if live != [] {
      OneTimer(x, live[0], now);
      assert live == [live[0]];
    }
  }

  /** A gather of the timers left after others: what is left then, and what fires. */
  lemma {:induction false} GatherLive<T>(xs: seq<T>, ts: seq<Timer>, nows: seq<Timespec>, now: Timespec)
    requires |xs| == |ts|
    ensures |LiveOf(xs, ts, nows)| == |AllLive(ts, nows)|
    ensures Afters(AllLive(ts, nows), now) == AllLive(ts, nows + [now])
    ensures Survivors(LiveOf(xs, ts, nows), AllLive(ts, nows), now) == LiveOf(xs, ts, nows + [now])
    ensures FiredOf(LiveOf(xs, ts, nows), AllLive(ts, nows), now) == NextOf(xs, ts, nows, now)
    decreases |ts|
  {
    SameNumber(xs, ts, nows);
    if ts != [] {
      var xs', ts', x, t := xs[..|xs| - 1], ts[..|ts| - 1], Last(xs), Last(ts);
      GatherLive(xs', ts', nows, now);
      GatherOne(x, t, nows, now);
      var ys := if Live(t, nows) != [] then [x] else [];
      FiredAppends(LiveOf(xs', ts', nows), AllLive(ts', nows), ys, Live(t, nows), now);
      AftersAppend(AllLive(ts', nows), Live(t, nows), now);
      SurvivorsAppend(LiveOf(xs', ts', nows), AllLive(ts', nows), ys, Live(t, nows), now);
    }
  }

  // ---- How often each timer fires ----

  lemma {:induction false} OncePerGather<T>(xs: seq<T>, ts: seq<Timer>, nows: seq<Timespec>, now: Timespec, k: nat)
    requires |xs| == |ts| && k < |ts| && Distinct(xs)
    ensures multiset(NextOf(xs, ts, nows, now))[xs[k]] == if FiresNext(ts[k], nows, now) then 1 else 0
    decreases |ts|
  {
    var xs', ts' := xs[..|xs| - 1], ts[..|ts| - 1];
    if k < |ts| - 1 {
      OncePerGather(xs', ts', nows, now, k);
    } else {
      NextAreOf(xs', ts', nows, now);
      assert xs[k] !in NextOf(xs', ts', nows, now);
    }
  }

  lemma {:induction false} NextAreOf<T>(xs: seq<T>, ts: seq<Timer>, nows: seq<Timespec>, now: Timespec)
    requires |xs| == |ts|
    ensures forall x :: x in NextOf(xs, ts, nows, now) ==> x in xs
    decreases |ts|
  {
    if ts != [] {
      NextAreOf(xs[..|xs| - 1], ts[..|ts| - 1], nows, now);
    }
  }

  lemma {:induction false} ExpiriesCount(ss: seq<Src>, s: Src)
    ensures multiset(Expiries(ss))[Expiry(s)] == multiset(ss)[s]
  {
    if ss != [] {
      ExpiriesCount(ss[1..], s);
      assert ss == [ss[0]] + ss[1..];
    }
  }

  /** What one more gather posts for timer k. */
  lemma OneMoreGather(ss: seq<Src>, ts: seq<Timer>, nows: seq<Timespec>, now: Timespec, k: nat)
    requires |ss| == |ts| && k < |ts| && Distinct(ss)
    ensures |LiveOf(ss, ts, nows)| == |AllLive(ts, nows)|
    ensures var posts := Expiries(Reverse(FiredOf(LiveOf(ss, ts, nows), AllLive(ts, nows), now)));
      Firings(ts[k], nows + [now]) == Firings(ts[k], nows) + multiset(posts)[Expiry(ss[k])]
  {
    GatherLive(ss, ts, nows, now);
    var fired := NextOf(ss, ts, nows, now);
    OncePerGather(ss, ts, nows, now, k);
    ExpiriesCount(Reverse(fired), ss[k]);
    ReverseKeeps(fired);
    assert (nows + [now])[..|nows|] == nows;
  }

  // ---- Runs ----

  /** The state of a clock. */
  datatype Moment = Moment(nodes: seq<Src>, ticks: seq<Timer>, timeout: Timespec, msgs: seq<Msg>)

  /** What one gather does, after the timeout has been reset. */
  predicate GatheredOnce(was: Moment, m: Moment, now: Timespec) {
    && |was.nodes| == |was.ticks|
    && m.nodes == Survivors(was.nodes, was.ticks, now) && m.ticks == Afters(was.ticks, now)
    && m.msgs == Expiries(Reverse(FiredOf(was.nodes, was.ticks, now))) + was.msgs
    && m.timeout == SleepTime(was.ticks, now, NEVER)
  }

  /** After the gathers `nows`, from `start`: each timer is left as Live says, in the same order, and has
      posted as many events as Firings says; the backend may sleep as long as SleepTime says of the timers
      before the last gather. */
  predicate Gathered(start: Moment, m: Moment, nows: seq<Timespec>) {
    && |start.nodes| == |start.ticks|
    && m.nodes == LiveOf(start.nodes, start.ticks, nows) && m.ticks == AllLive(start.ticks, nows)
    && (forall k {:trigger start.ticks[k]} :: 0 <= k < |start.ticks| ==>
          multiset(m.msgs)[Expiry(start.nodes[k])] ==
          multiset(start.msgs)[Expiry(start.nodes[k])] + Firings(start.ticks[k], nows))
    && (nows != [] ==> m.timeout == SleepTime(AllLive(start.ticks, nows[..|nows| - 1]), Last(nows), NEVER))
  }

  lemma GatheredNothing(m: Moment)
    requires |m.nodes| == |m.ticks|
    ensures Gathered(m, m, [])
  {
    NothingYet(m.nodes, m.ticks);
  }

  lemma GatheredNext(start: Moment, was: Moment, m: Moment, nows: seq<Timespec>, now: Timespec)
    requires Distinct(start.nodes) && Gathered(start, was, nows) && GatheredOnce(was, m, now)
    ensures Gathered(start, m, nows + [now])
  {
    GatherLive(start.nodes, start.ticks, nows, now);
    assert (nows + [now])[..|nows|] == nows;
    forall k {:trigger start.ticks[k]} | 0 <= k < |start.ticks|
      ensures multiset(m.msgs)[Expiry(start.nodes[k])] ==
              multiset(start.msgs)[Expiry(start.nodes[k])] + Firings(start.ticks[k], nows + [now])
    {
      OneMoreGather(start.nodes, start.ticks, nows, now, k);
    }
  }

  lemma {:induction false} SurvivorsAreOf<T>(xs: seq<T>, ts: seq<Timer>, now: Timespec)
    requires |xs| == |ts|
    ensures forall x :: x in Survivors(xs, ts, now) ==> x in xs
    decreases |ts|
  {
    if ts != [] {
      SurvivorsAreOf(xs[..|xs| - 1], ts[..|ts| - 1], now);
    }
  }

  ghost function At(clock: Clock): Moment
    reads clock, clock.timers, clock.q
  {
    Moment(clock.timers.nodes, clock.ticks, clock.timeout, clock.q.msgs)
  }

  /** One gather of a run; gwrl_run resets the timeout first. */
  method GatherOnce(clock: Clock, now: Timespec, ghost ss: seq<Src>)
    requires clock.Valid() && forall s :: s in clock.timers.nodes ==> s in ss
    modifies clock, clock.q, clock.timers, ss, (set e: Evt {:trigger e.next} | true)
    ensures clock.Valid() && GatheredOnce(old(At(clock)), At(clock), now)
    ensures forall s :: s in clock.timers.nodes ==> s in ss
  {
    SurvivorsAreOf(clock.timers.nodes, clock.ticks, now);
    assert forall i :: 0 <= i < |clock.timers.nodes| ==> clock.timers.nodes[i] in clock.timers.nodes;
    clock.timeout := NEVER;
    clock.Gather(now);
  }

  /** Any number of gathers on the heap, with what they post left on the event list. */
  method GatherRun(clock: Clock, nows: seq<Timespec>)
    requires clock.Valid()
    modifies clock, clock.q, clock.timers, clock.timers.nodes, (set e: Evt {:trigger e.next} | true)
    ensures clock.Valid() && Gathered(old(At(clock)), At(clock), nows)
  {
    ghost var ss, start, done := clock.timers.nodes, At(clock), [];
    GatheredNothing(start);
    for i := 0 to |nows|
      invariant done == nows[..i] && clock.Valid() && Gathered(start, At(clock), done)
      invariant forall s :: s in clock.timers.nodes ==> s in ss
    {
      ghost var was := At(clock);
      GatherOnce(clock, nows[i], ss);
      GatheredNext(start, was, At(clock), done, nows[i]);
      TakeOneMore(nows, i);
      done := done + [nows[i]];
    }
    assert nows[..|nows|] == nows;
  }
}
