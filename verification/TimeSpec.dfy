/** Timespec arithmetic: carry and borrow loops over seconds and nanoseconds, against integer
    nanoseconds. */
module TimeSpec {

  const NANOS := 1_000_000_000
  const NANOS_PER_MS := 1_000_000

  datatype Timespec = Timespec(sec: int, nsec: int)

  /** sec_min and nsec_min: no time at all. */
  const NEVER := Timespec(-1, -1)

  const ZERO := Timespec(0, 0)

  function Nanos(t: Timespec): int { t.sec * NANOS + t.nsec }

  predicate Normal(t: Timespec) { 0 <= t.nsec < NANOS }

  /** Division and remainder that truncate toward zero, as in C. */
  function Quotient(a: int, b: int): int
    requires b > 0
  {
    if a >= 0 then a / b else -(-a / b)
  }

  function Remainder(a: int, b: int): (r: int)
    requires b > 0
    ensures -b < r < b && (a >= 0 ==> r >= 0) && (a <= 0 ==> r <= 0)
  {
    if a >= 0 then a % b else -(-a % b)
  }

  lemma Truncation(a: int, b: int)
    requires b > 0
    ensures a == Quotient(a, b) * b + Remainder(a, b)
  {
    if a < 0 {
      assert -a == -a / b * b + -a % b;
    }
  }

  /** A time that is never NEVER, whatever produced it. */
  lemma NormalIsNotNever(t: Timespec)
    requires Normal(t)
    ensures t != NEVER
  {
  }

  // ---- The functions of time.c; the loops are in the methods below ----

  function FromMs(ms: int): Timespec {
    Timespec(Quotient(ms, 1000), 1_000_000 * Remainder(ms, 1000))
  }

  function ToMs(t: Timespec): int {
    t.sec * 1000 + Quotient(t.nsec, 1_000_000)
  }

  function AddMs(ms: int, t: Timespec): Timespec {
    if ms == 0 then t
    else
      var nsec := t.nsec + 1_000_000 * Remainder(ms, 1000);
      var carry := if nsec < NANOS then 0 else nsec / NANOS;
      Timespec(t.sec + Quotient(ms, 1000) + carry, nsec - carry * NANOS)
  }

  function Sub(a: Timespec, b: Timespec): Timespec {
    var nsec := a.nsec - b.nsec;
    var borrow := if nsec >= 0 then 0 else (-nsec + NANOS - 1) / NANOS;
    Timespec(a.sec - b.sec - borrow, nsec + borrow * NANOS)
  }

  datatype Smaller = First | Second | Neither

  /** gwtm_timespec_cmp: which of the two is smaller. */
  function Compare(a: Timespec, b: Timespec): Smaller {
    if a.sec < b.sec then First
    else if a.sec == b.sec && a.nsec < b.nsec then First
    else if a.sec == b.sec && a.nsec == b.nsec then Neither
    else Second
  }

  /** gwtm_timespec_is_expired, of a time difference. */
  predicate IsExpired(d: Timespec) {
    d.sec < 0 || (d.sec <= 0 && d.nsec <= 0)
  }

  /** gwtm_ms_to_timespec */
  method MsToTimespec(ms: int) returns (t: Timespec)
    ensures t == FromMs(ms)
  {
    t := Timespec(Quotient(ms, 1000), 1_000_000 * Remainder(ms, 1000));
    if t.nsec >= NANOS {
      t := Timespec(t.sec + 1, t.nsec - NANOS);
    }
  }

  /** gwtm_timespec_to_ms */
  method TimespecToMs(t: Timespec) returns (ms: int)
    ensures ms == ToMs(t)
  {
    if t.sec == 0 && t.nsec == 0 {
      return 0;
    }
    ms := t.sec * 1000;
    ms := ms + Quotient(t.nsec, 1_000_000);
  }

  /** gwtm_add_ms_to_timespec */
  method AddMsToTimespec(ms: int, t: Timespec) returns (r: Timespec)
    ensures r == AddMs(ms, t)
  {
    r := t;
    if ms == 0 {
      return;
    }
    r := Timespec(r.sec + Quotient(ms, 1000), r.nsec + 1_000_000 * Remainder(ms, 1000));
    ghost var start := r;
    ghost var carried := 0;
    while r.nsec >= NANOS
      invariant carried >= 0 && r == Timespec(start.sec + carried, start.nsec - carried * NANOS)
      invariant carried > 0 ==> r.nsec >= 0
      decreases r.nsec
    {
      r := Timespec(r.sec + 1, r.nsec - NANOS);
      carried := carried + 1;
    }
  }

  /** gwtm_timespec_sub_into */
  method SubInto(a: Timespec, b: Timespec) returns (into: Timespec)
    ensures into == Sub(a, b)
  {
    into := Timespec(a.sec - b.sec, a.nsec - b.nsec);
    ghost var start := into;
    ghost var borrowed := 0;
    while into.nsec < 0
      invariant borrowed >= 0 && into == Timespec(start.sec - borrowed, start.nsec + borrowed * NANOS)
      invariant borrowed > 0 ==> into.nsec < NANOS
      decreases -into.nsec
    {
      into := Timespec(into.sec - 1, into.nsec + NANOS);
      borrowed := borrowed + 1;
    }
  }

  /** gwtm_timespec_copy_if_smaller: the lesser of two normal times, and whether that is the source and
      not the other one. Times that are not normal are compared as Compare does. */
  method CopyIfSmaller(source: Timespec, update: Timespec) returns (updated: Timespec, copied: bool)
    ensures updated == source || updated == update
    ensures Normal(source) && Normal(update) ==>
              && (copied <==> Nanos(source) < Nanos(update))
              && Nanos(updated) <= Nanos(source) && Nanos(updated) <= Nanos(update)
    ensures !(Normal(source) && Normal(update)) ==>
              copied == (Compare(source, update) == First) && updated == if copied then source else update
  {
    var smaller := Compare(source, update);
    if smaller == First {
      return source, true;
    }
    return update, false;
  }

  // ---- What they mean in nanoseconds ----

  /** Milliseconds and back, for any sign. */
  lemma MsRoundTrip(ms: int)
    ensures Nanos(FromMs(ms)) == ms * NANOS_PER_MS && ToMs(FromMs(ms)) == ms
    ensures Normal(FromMs(ms)) <==> ms >= 0 || Remainder(ms, 1000) == 0
  {
    Truncation(ms, 1000);
  }

  /** Addition is exact for any number of milliseconds; the result is normal unless a negative amount
      takes more nanoseconds than there are. */
  lemma AddMsIsExact(ms: int, t: Timespec)
    ensures Nanos(AddMs(ms, t)) == Nanos(t) + ms * NANOS_PER_MS
    ensures Normal(t) ==> (Normal(AddMs(ms, t)) <==> t.nsec + NANOS_PER_MS * Remainder(ms, 1000) >= 0)
  {
    Truncation(ms, 1000);
  }

  lemma SubIsExact(a: Timespec, b: Timespec)
    ensures Nanos(Sub(a, b)) == Nanos(a) - Nanos(b)
    ensures a.nsec - b.nsec < NANOS <==> Normal(Sub(a, b))
  {
  }

  lemma CompareIsOrder(a: Timespec, b: Timespec)
    requires Normal(a) && Normal(b)
    ensures Compare(a, b) == First <==> Nanos(a) < Nanos(b)
    ensures Compare(a, b) == Second <==> Nanos(a) > Nanos(b)
    ensures Compare(a, b) == Neither <==> a == b
  {
  }

  /** A timer has expired exactly when its time is not after now. */
  lemma ExpiredIffDue(when: Timespec, now: Timespec)
    requires when.nsec - now.nsec < NANOS
    ensures IsExpired(Sub(when, now)) <==> Nanos(when) <= Nanos(now)
  {
    SubIsExact(when, now);
  }

  // ---- The time poll sleeps ----

  /** The conversion of an int64_t argument to poll's int. */
  function ToInt32(ms: int): int {
    (ms + 0x8000_0000) % 0x1_0000_0000 - 0x8000_0000
  }

  /** gwrl_bkd_gather: the timeout given to poll. A negative one waits for ever. */
  method PollTimeout(timeout: Timespec, nosleep: bool) returns (arg: int)
    ensures arg == if timeout == NEVER then (if nosleep then 0 else -1)
                   else if ToMs(timeout) < 0 && nosleep then 0 else ToInt32(ToMs(timeout))
  {
    var ms;
    if timeout.sec == -1 && timeout.nsec == -1 {
      ms := -1;
    } else {
      ms := TimespecToMs(timeout);
    }
    if ms < 0 && nosleep {
      ms := 0;
    }
    arg := ToInt32(ms);
  }

  /** The milliseconds as an int: those of the lower half keep their sign. */
  lemma Int32Parts(ms: nat)
    ensures ms % 0x1_0000_0000 < 0x8000_0000 ==> 0 <= ToInt32(ms) <= ms && (ToInt32(ms) == ms <==> ms < 0x8000_0000)
    ensures ms % 0x1_0000_0000 >= 0x8000_0000 ==> ToInt32(ms) < 0 && ms >= 0x8000_0000
  {
    var q, r := ms / 0x1_0000_0000, ms % 0x1_0000_0000;
    assert ms == q * 0x1_0000_0000 + r;
  }

  /** For a deadline `left` away, poll never sleeps past it exactly when the milliseconds keep their
      sign as an int, and wakes less than one millisecond early exactly when they fit one. */
  lemma SleepBound(left: Timespec)
    requires Normal(left) && left.sec >= 0
    ensures var arg := ToInt32(ToMs(left));
      && (0 <= arg && arg * NANOS_PER_MS <= Nanos(left) <==> ToMs(left) % 0x1_0000_0000 < 0x8000_0000)
      && (0 <= arg && 0 <= Nanos(left) - arg * NANOS_PER_MS < NANOS_PER_MS <==> ToMs(left) < 0x8000_0000)
  {
    var ms := ToMs(left);
    assert ms * NANOS_PER_MS <= Nanos(left) < (ms + 1) * NANOS_PER_MS;
    Int32Parts(ms);
  }

  /** A timer 25 days ahead: poll is told to wait for ever. */
  lemma TwentyFiveDays()
    ensures ToInt32(ToMs(Timespec(25 * 86400, 0))) < 0
  {
  }
}
