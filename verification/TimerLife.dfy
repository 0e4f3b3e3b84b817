/** One timer by itself, over any run of gathers: what its flags and its deadline make of it. */
module TimerLife {
  import opened Seqs
  import opened Flags
  import opened TimeSpec
  import opened TimerSpec

  /** The deadline is set: that of an absolute timer always is. */
  predicate Armed(t: Timer) {
    t.when.nsec < NANOS && (WHENCE_ABS in t.flags || t.when != NEVER)
  }

  /** Some gather is not before the time. */
  predicate Reached(nanos: int, nows: seq<Timespec>) {
    exists i :: 0 <= i < |nows| && nanos <= Nanos(nows[i])
  }

  lemma ReachedGrows(nanos: int, nows: seq<Timespec>)
    requires nows != []
    ensures Reached(nanos, nows) <==> Reached(nanos, nows[..|nows| - 1]) || nanos <= Nanos(Last(nows))
  {
    var before := nows[..|nows| - 1];
    if Reached(nanos, nows) {
      var i :| 0 <= i < |nows| && nanos <= Nanos(nows[i]);
      assert i < |before| ==> before[i] == nows[i];
    }
    if Reached(nanos, before) {
      var i :| 0 <= i < |before| && nanos <= Nanos(before[i]);
      assert nows[i] == before[i];
    }
  }

  /** A run of gathers with the last one apart. */
  lemma OneMoreGather(t: Timer, nows: seq<Timespec>)
    requires nows != []
    ensures var before, now := nows[..|nows| - 1], Last(nows); var was := Live(t, before);
      && Live(t, nows) == (if was == [] then [] else After(was[0], now))
      && Firings(t, nows) == Firings(t, before) + (if was != [] && Fires(was[0], now) then 1 else 0)
  {
  }

  /** A disabled timer of any kind stays as it is and never fires. */
  lemma {:induction false} DisabledStays(t: Timer, nows: seq<Timespec>)
    requires ENABLED !in t.flags
    ensures Live(t, nows) == [t] && Firings(t, nows) == 0
    decreases |nows|
  {
    if nows != [] {
      DisabledStays(t, nows[..|nows| - 1]);
    }
  }

  /** A gather of a timer whose deadline is set. */
  lemma ArmedGather(t: Timer, now: Timespec)
    requires ENABLED in t.flags && Armed(t) && Normal(now)
    ensures Fires(t, now) <==> Nanos(t.when) <= Nanos(now)
    ensures !Fires(t, now) ==> After(t, now) == [t]
  {
    FiresIffDue(t, now);
  }

  /** A one-shot or persistent timer: it fires if and only if some gather is not before its deadline, and
      until then it stays as it is. What it is afterwards FiresAtMostOnce says. */
  lemma {:induction false} OneShotFiresIff(t: Timer, nows: seq<Timespec>)
    requires ENABLED in t.flags && REPEAT !in t.flags && Armed(t) && AllNormal(nows)
    ensures Firings(t, nows) == (if Reached(Nanos(t.when), nows) then 1 else 0)
    ensures !Reached(Nanos(t.when), nows) ==> Live(t, nows) == [t]
    decreases |nows|
  {
    FiresAtMostOnce(t, nows);
    if nows != [] {
      var before := nows[..|nows| - 1];
      OneShotFiresIff(t, before);
      ReachedGrows(Nanos(t.when), nows);
      OneMoreGather(t, nows);
      assert Normal(nows[|nows| - 1]);
      if !Reached(Nanos(t.when), before) {
        ArmedGather(t, Last(nows));
      }
    }
  }

  /** The timer with the deadline that its first gather gives it. */
  function ArmedAt(t: Timer, now: Timespec): Timer { t.(when := AddMs(t.ms, now)) }

  /** A relative timer without a deadline goes the way of one that has the deadline of its first gather. */
  lemma {:induction false} FirstGatherDecides(t: Timer, nows: seq<Timespec>)
    requires ENABLED in t.flags && WHENCE_ABS !in t.flags && t.when == NEVER && t.ms >= 0
    requires nows != [] && AllNormal(nows)
    ensures var u := ArmedAt(t, nows[0]);
      && Normal(u.when) && Nanos(u.when) == Nanos(nows[0]) + t.ms * NANOS_PER_MS
      && Live(t, nows) == Live(u, nows) && Firings(t, nows) == Firings(u, nows)
    decreases |nows|
  {
    var u := ArmedAt(t, nows[0]);
    AddMsIsExact(t.ms, nows[0]);
    NormalIsNotNever(u.when);
    OneMoreGather(t, nows);
    OneMoreGather(u, nows);
    if |nows| > 1 {
      FirstGatherDecides(t, nows[..|nows| - 1]);
    } else {
      assert Last(nows) == nows[0];
    }
  }

  /** A relative one-shot or persistent timer without a deadline fires if and only if some gather is ms after
      the first one or later. Until then nothing about it changes but the deadline it has been given. */
  lemma FreshOneShotFiresIff(t: Timer, nows: seq<Timespec>)
    requires ENABLED in t.flags && REPEAT !in t.flags && WHENCE_ABS !in t.flags && t.when == NEVER && t.ms >= 0
    requires nows != [] && AllNormal(nows)
    ensures var deadline := Nanos(nows[0]) + t.ms * NANOS_PER_MS;
      && Firings(t, nows) == (if Reached(deadline, nows) then 1 else 0)
      && (!Reached(deadline, nows) ==>
            var live := Live(t, nows);
            live != [] && live == [t.(when := live[0].when)] && Normal(live[0].when) && Nanos(live[0].when) == deadline)
  {
    FirstGatherDecides(t, nows);
    NormalIsNotNever(ArmedAt(t, nows[0]).when);
    OneShotFiresIff(ArmedAt(t, nows[0]), nows);
  }

  /** An interval timer fires in a gather if and only if as many intervals after its first deadline as it has
      fired before have gone by. */
  lemma IntervalFiresIff(t: Timer, nows: seq<Timespec>, now: Timespec)
    requires ENABLED in t.flags && REPEAT in t.flags && t.ms >= 0 && Normal(t.when) && AllNormal(nows + [now])
    ensures var due := Nanos(t.when) + Firings(t, nows) * (t.ms * NANOS_PER_MS);
      Firings(t, nows + [now]) == Firings(t, nows) + if due <= Nanos(now) then 1 else 0
  {
    assert forall i :: 0 <= i < |nows| ==> nows[i] == (nows + [now])[i];
    assert (nows + [now])[|nows|] == now;
    IntervalDoesNotDrift(t, nows);
    var live := Live(t, nows);
    NormalIsNotNever(live[0].when);
    ArmedGather(live[0], now);
    OneMoreGather(t, nows + [now]);
    assert (nows + [now])[..|nows|] == nows;
  }

  /** The same for a relative one without a deadline, whose first deadline is ms after its first gather. */
  lemma FreshIntervalFiresIff(t: Timer, nows: seq<Timespec>, now: Timespec)
    requires ENABLED in t.flags && REPEAT in t.flags && WHENCE_ABS !in t.flags && t.when == NEVER && t.ms >= 0
    requires AllNormal(nows + [now]) && nows != []
    ensures var due := Nanos(nows[0]) + (Firings(t, nows) + 1) * (t.ms * NANOS_PER_MS);
      Firings(t, nows + [now]) == Firings(t, nows) + if due <= Nanos(now) then 1 else 0
  {
    assert forall i :: 0 <= i < |nows| ==> nows[i] == (nows + [now])[i];
    var u, n, step := ArmedAt(t, nows[0]), Firings(t, nows), t.ms * NANOS_PER_MS;
    FirstGatherDecides(t, nows);
    FirstGatherDecides(t, nows + [now]);
    Multiples(n, step);
    IntervalFiresIff(u, nows, now);
    assert Nanos(u.when) + n * step == Nanos(nows[0]) + (n + 1) * step;
  }

  /** A one-shot of one second, looked at after 0 and after 1.5 seconds: the second gather finds it due. */
  lemma OneShotOfASecond(t: Timer)
    requires t == Timer({ENABLED}, 1000, NEVER)
    ensures Firings(t, [Timespec(0, 0), Timespec(1, 500_000_000)]) == 1
    ensures Live(t, [Timespec(0, 0), Timespec(1, 500_000_000)]) == []
  {
    var nows := [Timespec(0, 0), Timespec(1, 500_000_000)];
    FreshOneShotFiresIff(t, nows);
    FiresAtMostOnce(t, nows);
    assert Nanos(nows[0]) + t.ms * NANOS_PER_MS <= Nanos(nows[1]);
  }
}
