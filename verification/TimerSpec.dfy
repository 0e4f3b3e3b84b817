/** gwrl_time_gather on values: what happens to each timer, and how long the backend may sleep. */
module TimerSpec {
  import opened Seqs
  import opened Flags
  import opened TimeSpec

  datatype Timer = Timer(flags: set<Flag>, ms: int, when: Timespec)

  /** Nanoseconds below a second; holds of NEVER too, and of whatever AddMs makes. */
  predicate Sound(t: Timer) { t.when.nsec < NANOS }

  predicate Enabled(t: Timer) { ENABLED in t.flags }

  /** The deadline: a relative timer that has none gets one ms after now. */
  function Deadline(t: Timer, now: Timespec): Timespec {
    if WHENCE_ABS !in t.flags && t.when == NEVER then AddMs(t.ms, now) else t.when
  }

  /** The timer fires in a gather at `now`. */
  predicate Fires(t: Timer, now: Timespec) {
    Enabled(t) && IsExpired(Sub(Deadline(t, now), now))
  }

  /** The timer after the gather; an empty sequence when it is deleted. */
  function After(t: Timer, now: Timespec): seq<Timer> {
    if !Enabled(t) then [t]
    else if !Fires(t, now) then [t.(when := Deadline(t, now))]
    else if REPEAT in t.flags then [t.(when := AddMs(t.ms, Deadline(t, now)))]
    else if PERSIST in t.flags then [t.(flags := t.flags - {ENABLED}, when := NEVER)]
    else []
  }

  /** The timer asks to be looked at again. */
  predicate Waits(t: Timer, now: Timespec) {
    Enabled(t) && (Fires(t, now) ==> REPEAT in t.flags)
  }

  function TimeLeft(t: Timer, now: Timespec): Timespec {
    Sub(if Fires(t, now) then AddMs(t.ms, Deadline(t, now)) else Deadline(t, now), now)
  }

  /** The timeout so far, shortened to `left` if that is less; NEVER counts as unset. */
  function Shorten(timeout: Timespec, left: Timespec): Timespec {
    if timeout == NEVER || Compare(left, timeout) == First then left else timeout
  }

  /** Of `xs`, the elements whose timers satisfy the gather's test. */
  function FiredOf<T>(xs: seq<T>, ts: seq<Timer>, now: Timespec): seq<T>
    requires |xs| == |ts|
    decreases |ts|
  {
    if ts == [] then []
    else FiredOf(xs[..|xs| - 1], ts[..|ts| - 1], now) + (if Fires(Last(ts), now) then [Last(xs)] else [])
  }

  function Survivors<T>(xs: seq<T>, ts: seq<Timer>, now: Timespec): seq<T>
    requires |xs| == |ts|
    decreases |ts|
  {
    if ts == [] then []
    else Survivors(xs[..|xs| - 1], ts[..|ts| - 1], now) + (if After(Last(ts), now) != [] then [Last(xs)] else [])
  }

  function Afters(ts: seq<Timer>, now: Timespec): seq<Timer>
    decreases |ts|
  {
    if ts == [] then [] else Afters(ts[..|ts| - 1], now) + After(Last(ts), now)
  }

  /** The timeout after the list has been walked. */
  function Timeout(ts: seq<Timer>, now: Timespec, timeout: Timespec): Timespec
    decreases |ts|
  {
    if ts == [] then timeout
    else
      var before := Timeout(ts[..|ts| - 1], now, timeout);
      if Waits(Last(ts), now) then Shorten(before, TimeLeft(Last(ts), now)) else before
  }

  /** The timeout left for the backend: none at all once an event has been posted. */
  function SleepTime(ts: seq<Timer>, now: Timespec, timeout: Timespec): Timespec {
    if FiredOf(ts, ts, now) != [] then ZERO else Timeout(ts, now, timeout)
  }

  // ---- Firing means being due ----

  lemma FiresIffDue(t: Timer, now: Timespec)
    requires Sound(t) && Normal(now)
    ensures Fires(t, now) <==> Enabled(t) && Nanos(Deadline(t, now)) <= Nanos(now)
    ensures Deadline(t, now).nsec < NANOS
  {
    ExpiredIffDue(Deadline(t, now), now);
  }

  lemma AfterIsSound(t: Timer, now: Timespec)
    requires Sound(t) && Normal(now)
    ensures forall u :: u in After(t, now) ==> Sound(u) && u.ms == t.ms
  {
  }

  lemma {:induction false} AftersAreSound(ts: seq<Timer>, now: Timespec)
    requires Normal(now) && forall t :: t in ts ==> Sound(t)
    ensures forall u :: u in Afters(ts, now) ==> Sound(u)
    decreases |ts|
  {
    if ts != [] {
      AftersAreSound(ts[..|ts| - 1], now);
      AfterIsSound(Last(ts), now);
    }
  }

  // ---- The sleep bound ----

  /** `d` is the least time left over the enabled timers, all of which have time left. */
  predicate IsBound(d: Timespec, ts: seq<Timer>, now: Timespec) {
    && Normal(d) && Nanos(d) > 0
    && (exists i :: 0 <= i < |ts| && Enabled(ts[i]) && Nanos(Deadline(ts[i], now)) == Nanos(now) + Nanos(d))
    && (forall i :: 0 <= i < |ts| && Enabled(ts[i]) ==> Nanos(Deadline(ts[i], now)) >= Nanos(now) + Nanos(d))
  }

  predicate NoneEnabled(ts: seq<Timer>) { forall i :: 0 <= i < |ts| ==> !Enabled(ts[i]) }

  lemma ShortenBound(ts: seq<Timer>, t: Timer, now: Timespec, d: Timespec)
    requires Normal(now) && Sound(t) && Enabled(t) && !Fires(t, now)
    requires if NoneEnabled(ts) then d == NEVER else IsBound(d, ts, now)
    ensures IsBound(Shorten(d, TimeLeft(t, now)), ts + [t], now)
  {
    var left, r := TimeLeft(t, now), Shorten(d, TimeLeft(t, now));
    var all := ts + [t];
    FiresIffDue(t, now);
    SubIsExact(Deadline(t, now), now);
    assert Normal(left) && Nanos(left) > 0;
    if !NoneEnabled(ts) {
      CompareIsOrder(left, d);
    }
    if r == left {
      assert all[|ts|] == t;
    } else {
      var i :| 0 <= i < |ts| && Enabled(ts[i]) && Nanos(Deadline(ts[i], now)) == Nanos(now) + Nanos(d);
      assert all[i] == ts[i];
    }
    forall i | 0 <= i < |all| && Enabled(all[i])
      ensures Nanos(Deadline(all[i], now)) >= Nanos(now) + Nanos(r)
    {
      if i < |ts| {
        assert all[i] == ts[i];
      }
    }
  }

  lemma {:induction false} TimeoutIsBound(ts: seq<Timer>, now: Timespec)
    requires Normal(now) && (forall i :: 0 <= i < |ts| ==> Sound(ts[i]) && !Fires(ts[i], now))
    ensures if NoneEnabled(ts) then Timeout(ts, now, NEVER) == NEVER else IsBound(Timeout(ts, now, NEVER), ts, now)
    decreases |ts|
  {
    if ts != [] {
      var before, t := ts[..|ts| - 1], Last(ts);
      TimeoutIsBound(before, now);
      assert ts == before + [t];
      assert Sound(ts[|ts| - 1]) && !Fires(ts[|ts| - 1], now);
      if Enabled(t) {
        ShortenBound(before, t, now, Timeout(before, now, NEVER));
        assert Enabled(ts[|ts| - 1]);
      } else {
        assert forall i :: 0 <= i < |before| ==> before[i] == ts[i];
        if !NoneEnabled(before) {
          var d := Timeout(before, now, NEVER);
          var i :| 0 <= i < |before| && Enabled(before[i]) && Nanos(Deadline(before[i], now)) == Nanos(now) + Nanos(d);
          assert Enabled(ts[i]) && Nanos(Deadline(ts[i], now)) == Nanos(now) + Nanos(d);
          assert IsBound(d, ts, now);
        }
      }
    }
  }

  lemma {:induction false} FiredNone(ts: seq<Timer>, now: Timespec)
    ensures FiredOf(ts, ts, now) == [] <==> forall i :: 0 <= i < |ts| ==> !Fires(ts[i], now)
    decreases |ts|
  {
    if ts != [] {
      FiredNone(ts[..|ts| - 1], now);
      assert forall i :: 0 <= i < |ts| - 1 ==> ts[..|ts| - 1][i] == ts[i];
      assert Last(ts) == ts[|ts| - 1];
    }
  }

  /** The timeout given to the backend: zero if an event was posted, none if no timer is enabled, and
      otherwise exactly the time to the nearest deadline. The three never coincide. */
  lemma SleepIsExact(ts: seq<Timer>, now: Timespec)
    requires Normal(now) && forall i :: 0 <= i < |ts| ==> Sound(ts[i])
    ensures var d := SleepTime(ts, now, NEVER);
      && (d == ZERO <==> exists i :: 0 <= i < |ts| && Fires(ts[i], now))
      && (d == NEVER <==> NoneEnabled(ts))
      && (d != ZERO && d != NEVER ==> IsBound(d, ts, now))
  {
    FiredNone(ts, now);
    if FiredOf(ts, ts, now) == [] {
      TimeoutIsBound(ts, now);
    } else {
      var i :| 0 <= i < |ts| && Fires(ts[i], now);
      assert Enabled(ts[i]);
    }
  }

  // ---- A timer over a run of gathers ----

  /** The timer after gathers at the times `nows`, and how often it fired. */
  function Live(t: Timer, nows: seq<Timespec>): seq<Timer>
    decreases |nows|
  {
    if nows == [] then [t]
    else
      var before := Live(t, nows[..|nows| - 1]);
      if before == [] then [] else After(before[0], Last(nows))
  }

  function Firings(t: Timer, nows: seq<Timespec>): nat
    decreases |nows|
  {
    if nows == [] then 0
    else
      var before := Live(t, nows[..|nows| - 1]);
      Firings(t, nows[..|nows| - 1]) + (if before != [] && Fires(before[0], Last(nows)) then 1 else 0)
  }

  predicate AllNormal(nows: seq<Timespec>) {
    forall i :: 0 <= i < |nows| ==> Normal(nows[i]) && nows[i].sec >= 0
  }

  predicate Forward(nows: seq<Timespec>) {
    forall i, j :: 0 <= i < j < |nows| ==> Nanos(nows[i]) <= Nanos(nows[j])
  }

  lemma IntervalStep(u: Timer, now: Timespec)
    requires Enabled(u) && REPEAT in u.flags && u.ms >= 0 && Normal(u.when) && Normal(now)
    ensures var a := After(u, now);
      && a != [] && a == [u.(when := a[0].when)] && Normal(a[0].when)
      && Nanos(a[0].when) == Nanos(u.when) + (if Fires(u, now) then u.ms * NANOS_PER_MS else 0)
  {
    NormalIsNotNever(u.when);
    AddMsIsExact(u.ms, u.when);
  }

  /** A new relative timer: the first gather sets its deadline, ms from then. */
  lemma FirstGatherArms(t: Timer, now: Timespec)
    requires Enabled(t) && REPEAT in t.flags && WHENCE_ABS !in t.flags && t.when == NEVER
    requires t.ms >= 0 && Normal(now)
    ensures var a := After(t, now);
      && a != [] && a == [t.(when := a[0].when)] && Normal(a[0].when)
      && Nanos(a[0].when) == Nanos(now) + t.ms * NANOS_PER_MS
    ensures Fires(t, now) <==> t.ms == 0
  {
    AddMsIsExact(t.ms, now);
    FiresIffDue(t, now);
  }

  lemma Multiples(n: int, step: int)
    ensures (n + 1) * step == n * step + step
  {
  }

  /** Interval timers do not drift: however late the gathers were, after n firings the deadline is n
      intervals after the first one. */
  lemma {:induction false} IntervalDoesNotDrift(t: Timer, nows: seq<Timespec>)
    requires Enabled(t) && REPEAT in t.flags && t.ms >= 0 && Normal(t.when) && AllNormal(nows)
    ensures var live := Live(t, nows);
      && live != [] && live == [t.(when := live[0].when)] && Normal(live[0].when)
      && Nanos(live[0].when) == Nanos(t.when) + Firings(t, nows) * (t.ms * NANOS_PER_MS)
    decreases |nows|
  {
    if nows != [] {
      IntervalDoesNotDrift(t, nows[..|nows| - 1]);
      assert nows[|nows| - 1] == Last(nows);
      IntervalStep(Live(t, nows[..|nows| - 1])[0], Last(nows));
      Multiples(Firings(t, nows[..|nows| - 1]), t.ms * NANOS_PER_MS);
    }
  }

  /** No firing comes before its deadline, so all the intervals between the first firing and the
      last fit between the first deadline and now. */
  lemma {:induction false} FiringsAreBounded(t: Timer, nows: seq<Timespec>)
    requires Enabled(t) && REPEAT in t.flags && t.ms >= 0 && Normal(t.when)
    requires AllNormal(nows) && Forward(nows) && nows != []
    ensures Firings(t, nows) > 0 ==>
              Nanos(t.when) + (Firings(t, nows) - 1) * (t.ms * NANOS_PER_MS) <= Nanos(Last(nows))
    decreases |nows|
  {
    var before := nows[..|nows| - 1];
    var n := Firings(t, before);
    IntervalDoesNotDrift(t, before);
    var u := Live(t, before)[0];
    assert nows[|nows| - 1] == Last(nows);
    FiresIffDue(u, Last(nows));
    if Fires(u, Last(nows)) {
      assert Firings(t, nows) - 1 == n;
    } else if before != [] {
      FiringsAreBounded(t, before);
      assert Nanos(nows[|nows| - 2]) <= Nanos(nows[|nows| - 1]);
    }
  }

  /** A timer that does not repeat fires at most once; after that it is gone, or disabled if it is
      persistent, until it is enabled again. */
  lemma {:induction false} FiresAtMostOnce(t: Timer, nows: seq<Timespec>)
    requires REPEAT !in t.flags
    ensures Firings(t, nows) <= 1
    ensures Firings(t, nows) == 1 ==>
              Live(t, nows) == if PERSIST in t.flags then [t.(flags := t.flags - {ENABLED}, when := NEVER)] else []
    ensures Firings(t, nows) == 0 ==> Live(t, nows) != [] && Live(t, nows) == [t.(when := Live(t, nows)[0].when)]
    decreases |nows|
  {
    if nows != [] {
      FiresAtMostOnce(t, nows[..|nows| - 1]);
    }
  }

  // ---- The order of the timers that fire together ----

  lemma {:induction false} FiredAppends<T>(xs: seq<T>, ts: seq<Timer>, ys: seq<T>, us: seq<Timer>, now: Timespec)
    requires |xs| == |ts| && |ys| == |us|
    ensures FiredOf(xs + ys, ts + us, now) == FiredOf(xs, ts, now) + FiredOf(ys, us, now)
    decreases |us|
  {
    if us == [] {
      assert xs + ys == xs && ts + us == ts;
    } else {
      var ys', us' := ys[..|ys| - 1], us[..|us| - 1];
      FiredAppends(xs, ts, ys', us', now);
      assert (xs + ys)[..|xs + ys| - 1] == xs + ys' && (ts + us)[..|ts + us| - 1] == ts + us';
      Associates(FiredOf(xs, ts, now), FiredOf(ys', us', now), if Fires(Last(us), now) then [Last(ys)] else []);
    }
  }

  lemma {:induction false} SurvivorsAppend<T>(xs: seq<T>, ts: seq<Timer>, ys: seq<T>, us: seq<Timer>, now: Timespec)
    requires |xs| == |ts| && |ys| == |us|
    ensures Survivors(xs + ys, ts + us, now) == Survivors(xs, ts, now) + Survivors(ys, us, now)
    decreases |us|
  {
    if us == [] {
      assert xs + ys == xs && ts + us == ts;
    } else {
      var ys', us' := ys[..|ys| - 1], us[..|us| - 1];
      SurvivorsAppend(xs, ts, ys', us', now);
      assert (xs + ys)[..|xs + ys| - 1] == xs + ys' && (ts + us)[..|ts + us| - 1] == ts + us';
      Associates(Survivors(xs, ts, now), Survivors(ys', us', now), if After(Last(us), now) != [] then [Last(ys)] else []);
    }
  }

  /** gwrl_src_add puts new timers in front, so the list is in reverse order of registration; the
      gather walks it from the front and gwrl_post_evt puts each event in front of the others. The two
      reversals cancel: timers that expire together are dispatched in the order of registration, and
      those that stay keep their order. */
  lemma {:induction false} RegistrationOrder<T>(xs: seq<T>, ts: seq<Timer>, now: Timespec)
    requires |xs| == |ts|
    ensures Reverse(FiredOf(Reverse(xs), Reverse(ts), now)) == FiredOf(xs, ts, now)
    ensures Survivors(Reverse(xs), Reverse(ts), now) == Reverse(Survivors(xs, ts, now))
    decreases |xs|
  {
    if xs != [] {
      var x, t, xs', ts' := xs[0], ts[0], xs[1..], ts[1..];
      RegistrationOrder(xs', ts', now);
      assert xs == [x] + xs' && ts == [t] + ts';
      FiredAppends([x], [t], xs', ts', now);
      FiredAppends(Reverse(xs'), Reverse(ts'), [x], [t], now);
      OneTimer(x, t, now);
      ReverseAppends(FiredOf(Reverse(xs'), Reverse(ts'), now), FiredOf([x], [t], now));
      SurvivorsAppend([x], [t], xs', ts', now);
      SurvivorsAppend(Reverse(xs'), Reverse(ts'), [x], [t], now);
      ReverseAppends(Survivors([x], [t], now), Survivors(xs', ts', now));
    }
  }

  lemma OneTimer<T>(x: T, t: Timer, now: Timespec)
    ensures Reverse(FiredOf([x], [t], now)) == FiredOf([x], [t], now)
    ensures Reverse(Survivors([x], [t], now)) == Survivors([x], [t], now)
  {
    assert [x][..0] == [] && [t][..0] == [];
    assert [x][1..] == [] && Reverse([x]) == Reverse([]) + [x];
  }

  // ---- The walk over the list, one timer at a time ----

  /** The walk at the n-th timer: the list as it is now, the timeout so far, and the timers that have
      fired, newest first. */
  datatype Walk<T> = Walk(n: nat, nodes: seq<T>, ts: seq<Timer>, timeout: Timespec, fired: seq<T>)

  function StepWalk<T>(w: Walk<T>, now: Timespec): Walk<T>
    requires w.n < |w.ts| == |w.nodes|
  {
    var n, t := w.n, w.ts[w.n];
    var timeout := if Waits(t, now) then Shorten(w.timeout, TimeLeft(t, now)) else w.timeout;
    var fired := (if Fires(t, now) then [w.nodes[n]] else []) + w.fired;
    if After(t, now) == [] then
      Walk(n, w.nodes[..n] + w.nodes[n + 1..], w.ts[..n] + w.ts[n + 1..], timeout, fired)
    else
      Walk(n + 1, w.nodes, w.ts[n := After(t, now)[0]], timeout, fired)
  }

  function FinishWalk<T>(w: Walk<T>, now: Timespec): Walk<T>
    requires w.n <= |w.ts| == |w.nodes|
    decreases |w.ts| - w.n
  {
    if w.n == |w.ts| then w else FinishWalk(StepWalk(w, now), now)
  }

  lemma StepKeeps<T>(w: Walk<T>, now: Timespec, xs: seq<T>)
    requires w.n < |w.ts| == |w.nodes| && forall i :: 0 <= i < |w.nodes| ==> w.nodes[i] in xs
    ensures var v := StepWalk(w, now); forall i :: 0 <= i < |v.nodes| ==> v.nodes[i] in xs
    ensures (StepWalk(w, now).fired != []) == (Fires(w.ts[w.n], now) || w.fired != [])
  {
    var v := StepWalk(w, now);
    forall i | 0 <= i < |v.nodes|
      ensures v.nodes[i] in xs
    {
      assert v.nodes[i] == w.nodes[if |v.nodes| == |w.nodes| || i < w.n then i else i + 1];
    }
  }

  /** The walk, after the first k timers of the list it started with. */
  function WalkAt<T>(xs: seq<T>, ts: seq<Timer>, k: nat, now: Timespec, timeout: Timespec): Walk<T>
    requires k <= |xs| == |ts|
  {
    Walk(|Afters(ts[..k], now)|, Survivors(xs[..k], ts[..k], now) + xs[k..], Afters(ts[..k], now) + ts[k..],
         Timeout(ts[..k], now, timeout), Reverse(FiredOf(xs[..k], ts[..k], now)))
  }

  lemma {:induction false} SameLength<T>(xs: seq<T>, ts: seq<Timer>, now: Timespec)
    requires |xs| == |ts|
    ensures |Survivors(xs, ts, now)| == |Afters(ts, now)|
    decreases |ts|
  {
    if ts != [] {
      SameLength(xs[..|xs| - 1], ts[..|ts| - 1], now);
    }
  }

  /** A list with a processed front part, seen around its next element. */
  lemma Around<T>(done: seq<T>, xs: seq<T>, k: nat)
    requires k < |xs|
    ensures var n, all := |done|, done + xs[k..];
      && n < |all| && all[n] == xs[k]
      && all[..n] + all[n + 1..] == done + xs[k + 1..]
      && all == done + [xs[k]] + xs[k + 1..]
      && forall y :: all[n := y] == done + [y] + xs[k + 1..]
  {
  }

  /** The functions of the list, one timer further. */
  lemma OneMore<T>(xs: seq<T>, ts: seq<Timer>, k: nat, now: Timespec, timeout: Timespec)
    requires k < |xs| == |ts|
    ensures Survivors(xs[..k + 1], ts[..k + 1], now) ==
              Survivors(xs[..k], ts[..k], now) + (if After(ts[k], now) == [] then [] else [xs[k]])
    ensures Afters(ts[..k + 1], now) == Afters(ts[..k], now) + After(ts[k], now)
    ensures Timeout(ts[..k + 1], now, timeout) ==
              (var before := Timeout(ts[..k], now, timeout);
               if Waits(ts[k], now) then Shorten(before, TimeLeft(ts[k], now)) else before)
    ensures Reverse(FiredOf(xs[..k + 1], ts[..k + 1], now)) ==
              (if Fires(ts[k], now) then [xs[k]] else []) + Reverse(FiredOf(xs[..k], ts[..k], now))
  {
    assert xs[..k + 1][..k] == xs[..k] && ts[..k + 1][..k] == ts[..k];
    assert Last(xs[..k + 1]) == xs[k] && Last(ts[..k + 1]) == ts[k];
    var f := FiredOf(xs[..k], ts[..k], now);
    if Fires(ts[k], now) {
      ReverseAppends(f, [xs[k]]);
      assert Reverse([xs[k]]) == [xs[k]];
    } else {
      assert f + [] == f && [] + Reverse(f) == Reverse(f);
    }
  }

  lemma WalkGoesOn<T>(xs: seq<T>, ts: seq<Timer>, k: nat, now: Timespec, timeout: Timespec)
    requires k < |xs| == |ts|
    ensures var w := WalkAt(xs, ts, k, now, timeout);
      w.n < |w.ts| == |w.nodes| && StepWalk(w, now) == WalkAt(xs, ts, k + 1, now, timeout)
  {
    SameLength(xs[..k], ts[..k], now);
    OneMore(xs, ts, k, now, timeout);
    var done, dts := Survivors(xs[..k], ts[..k], now), Afters(ts[..k], now);
    Around(done, xs, k);
    Around(dts, ts, k);
    assert done + [] == done && dts + [] == dts;
    assert After(ts[k], now) == [] || After(ts[k], now) == [After(ts[k], now)[0]];
  }

  lemma {:induction false} WalkEnds<T>(xs: seq<T>, ts: seq<Timer>, k: nat, now: Timespec, timeout: Timespec)
    requires k <= |xs| == |ts|
    ensures var w, e := WalkAt(xs, ts, k, now, timeout), WalkAt(xs, ts, |xs|, now, timeout);
      w.n <= |w.ts| == |w.nodes| && FinishWalk(w, now) == e
    decreases |xs| - k
  {
    SameLength(xs[..k], ts[..k], now);
    if k < |xs| {
      WalkGoesOn(xs, ts, k, now, timeout);
      WalkEnds(xs, ts, k + 1, now, timeout);
    }
  }

  /** The whole walk: the survivors in order, each fired timer once, and the shortened timeout. */
  lemma WalkIs<T>(xs: seq<T>, ts: seq<Timer>, now: Timespec, timeout: Timespec)
    requires |xs| == |ts|
    ensures var e := FinishWalk(Walk(0, xs, ts, timeout, []), now);
      && e.nodes == Survivors(xs, ts, now) && e.ts == Afters(ts, now)
      && e.timeout == Timeout(ts, now, timeout) && e.fired == Reverse(FiredOf(xs, ts, now))
  {
    WalkEnds(xs, ts, 0, now, timeout);
    assert [] + xs[0..] == xs && [] + ts[0..] == ts;
    assert xs[..|xs|] == xs && ts[..|xs|] == ts;
    assert Survivors(xs, ts, now) + [] == Survivors(xs, ts, now) && Afters(ts, now) + [] == Afters(ts, now);
  }
}
