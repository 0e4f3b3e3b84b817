/** Write events, told from the calls and answers of a run alone. */
module InterestSpec {
  import opened Seqs
  import opened WriteSpec
  import opened CallbackSpec
  import opened ReportSpec
  import opened SessionSpec
  import SyncSpec

  /** A writable event answers a connect. */
  predicate Answers(e: Event) { e.Drained? || e.Woken? }

  /** The write call puts something on the queue, or tries to. */
  predicate Queues(e: Event) {
    match e
    case Submitted(_, NotTried(_)) => true
    case Submitted(_, Tried(r)) => r.err.Again? || r.err.WouldBlock?
    case _ => false
  }

  /** The drain ended with an error that errorcb was told of. */
  predicate Stops(e: Event, h: Handlers) {
    e.Drained? && h.errorcb && e.turns != [] && Last(e.turns).r.err.OtherError?
  }

  /** The event switches write events on, if it leaves anything to write. */
  predicate Resumes(e: Event) {
    Queues(e) || e.Connecting? || (e.Drained? && Queued(e.turns) != [])
  }

  /** The event leaves write events to what is queued or connected. */
  predicate Settles(e: Event) { Queues(e) || e.Connecting? || e.Drained? }

  /** A connect has been made since the last writable event. */
  predicate ConnectWaits(events: seq<Event>) { WaitsAt(events, |events|) }

  /** The same after n of the events. */
  predicate WaitsAt(events: seq<Event>, n: nat)
    requires n <= |events|
  {
    exists k {:trigger events[k]} :: 0 <= k < n && events[k].Connecting? && Unanswered(events, k + 1, n)
  }

  predicate Unanswered(events: seq<Event>, k: nat, n: nat)
    requires n <= |events|
  {
    forall j {:trigger events[j]} :: k <= j < n ==> !Answers(events[j])
  }

  /** A drain was stopped by an error, and nothing has switched write events on since. */
  predicate Stopped(events: seq<Event>, h: Handlers) {
    exists k {:trigger events[k]} :: 0 <= k < |events| && Stops(events[k], h) && NotResumed(events, k + 1)
  }

  predicate NotResumed(events: seq<Event>, k: nat) {
    forall j {:trigger events[j]} :: k <= j < |events| ==> !Resumes(events[j])
  }

  /** A connect was answered while there was no didwritecb, and nothing has been queued, connected or drained
      since. */
  predicate AnsweredIdly(events: seq<Event>) {
    exists k {:trigger events[k]} ::
      0 <= k < |events| && events[k].Woken? && WaitsAt(events, k) && Unsettled(events, k + 1)
  }

  predicate Unsettled(events: seq<Event>, k: nat) {
    forall j {:trigger events[j]} :: k <= j < |events| ==> !Settles(events[j])
  }

  lemma WaitsBefore(events: seq<Event>, n: nat, k: nat)
    requires k <= n <= |events|
    ensures WaitsAt(events[..n], k) <==> WaitsAt(events, k)
  {
    var before := events[..n];
    assert forall j :: 0 <= j < n ==> before[j] == events[j];
    if WaitsAt(events, k) {
      var i :| 0 <= i < k && events[i].Connecting? && Unanswered(events, i + 1, k);
      assert before[i].Connecting? && Unanswered(before, i + 1, k);
    }
    if WaitsAt(before, k) {
      var i :| 0 <= i < k && before[i].Connecting? && Unanswered(before, i + 1, k);
      assert events[i].Connecting? && Unanswered(events, i + 1, k);
    }
  }

  lemma LastConnect(events: seq<Event>)
    requires events != []
    ensures ConnectWaits(events) <==>
            Last(events).Connecting? || (!Answers(Last(events)) && ConnectWaits(events[..|events| - 1]))
  {
    var n := |events| - 1;
    assert events[n] == Last(events);
    WaitsBefore(events, n, n);
    if WaitsAt(events, n) && !Answers(events[n]) {
      var k :| 0 <= k < n && events[k].Connecting? && Unanswered(events, k + 1, n);
      assert events[k].Connecting? && Unanswered(events, k + 1, n + 1);
    }
    if events[n].Connecting? {
      assert Unanswered(events, n + 1, n + 1);
    }
  }

  lemma LastStop(events: seq<Event>, h: Handlers)
    requires events != []
    ensures Stopped(events, h) <==>
            Stops(Last(events), h) || (!Resumes(Last(events)) && Stopped(events[..|events| - 1], h))
  {
    var n := |events| - 1;
    var before := events[..n];
    assert events[n] == Last(events) && forall j :: 0 <= j < n ==> before[j] == events[j];
    if Stopped(before, h) && !Resumes(Last(events)) {
      var k :| 0 <= k < n && Stops(before[k], h) && NotResumed(before, k + 1);
      assert Stops(events[k], h) && NotResumed(events, k + 1);
    }
    if Stops(Last(events), h) {
      assert Stops(events[n], h) && NotResumed(events, n + 1);
    }
  }

  lemma StillIdle(events: seq<Event>)
    requires events != [] && AnsweredIdly(events[..|events| - 1]) && !Settles(Last(events))
    ensures AnsweredIdly(events)
  {
    var n := |events| - 1;
    var before := events[..n];
    assert forall j :: 0 <= j < n ==> before[j] == events[j];
    var k :| 0 <= k < n && before[k].Woken? && WaitsAt(before, k) && Unsettled(before, k + 1);
    WaitsBefore(events, n, k);
    assert events[k].Woken? && Unsettled(events, k + 1);
  }

  lemma UnsettledBefore(events: seq<Event>, n: nat, k: nat)
    requires n <= |events| && Unsettled(events, k)
    ensures Unsettled(events[..n], k)
  {
    forall j {:trigger events[..n][j]} | k <= j < n
      ensures !Settles(events[..n][j])
    {
      assert events[..n][j] == events[j];
    }
  }

  lemma IdleSince(events: seq<Event>, k: nat)
    requires k < |events| - 1 && events[k].Woken? && WaitsAt(events, k) && Unsettled(events, k + 1)
    ensures AnsweredIdly(events[..|events| - 1]) && !Settles(Last(events))
  {
    var n := |events| - 1;
    WaitsBefore(events, n, k);
    UnsettledBefore(events, n, k + 1);
    assert events[..n][k] == events[k] && events[n] == Last(events);
  }

  lemma IdleBefore(events: seq<Event>)
    requires AnsweredIdly(events)
    ensures events != []
    ensures var e, before := Last(events), events[..|events| - 1];
      !Settles(e) && (AnsweredIdly(before) || (e.Woken? && ConnectWaits(before)))
  {
    var n := |events| - 1;
    var k :| 0 <= k < |events| && events[k].Woken? && WaitsAt(events, k) && Unsettled(events, k + 1);
    if k < n {
      IdleSince(events, k);
    } else {
      WaitsBefore(events, n, n);
    }
  }

  lemma LastAnswered(events: seq<Event>)
    requires events != []
    ensures var e, before := Last(events), events[..|events| - 1];
      AnsweredIdly(events) <==> !Settles(e) && (AnsweredIdly(before) || (e.Woken? && ConnectWaits(before)))
  {
    var n, e, before := |events| - 1, Last(events), events[..|events| - 1];
    if AnsweredIdly(events) {
      IdleBefore(events);
    }
    if AnsweredIdly(before) && !Settles(e) {
      StillIdle(events);
    }
    if e.Woken? && ConnectWaits(before) {
      WaitsBefore(events, n, n);
      assert events[n].Woken? && WaitsAt(events, n) && Unsettled(events, n + 1);
    }
  }

  /** What the flags of the session are, told from the events. */
  ghost predicate ToldByEvents(s: Session, events: seq<Event>, h: Handlers) {
    && (s.awaiting <==> ConnectWaits(events)) && (s.needless <==> AnsweredIdly(events))
    && (s.parked <==> s.pending != [] && Stopped(events, h))
  }

  /** How a drain ends, by its last turn. */
  lemma StopsIs(s: Session, e: Event, h: Handlers)
    requires e.Drained? && Possible(s, e, h)
    ensures var f := RunFlow(s.pending, e.turns, e.tail, h);
      && (f.d.stop <==> Stops(e, h)) && (f.added != [] <==> Queued(e.turns) != [])
      && (f.d.stop ==> f.d.todo != []) && (s.pending == [] ==> f.d.todo + f.added == [])
  {
    WhereTheyGo(s.pending, e.turns, e.tail, h);
    FlowOfNothing(e.turns, e.tail, h);
    if e.turns != [] {
      var before, g, t := FlowUnfolds(s.pending, e.turns, e.tail, h);
      TurnReports(g, t, e.tail, h);
      StepParts(g, t, e.tail, h);
    }
  }

  lemma OneMoreEvent(events: seq<Event>, e: Event, h: Handlers)
    ensures ConnectWaits(events + [e]) <==> e.Connecting? || (!Answers(e) && ConnectWaits(events))
    ensures Stopped(events + [e], h) <==> Stops(e, h) || (!Resumes(e) && Stopped(events, h))
    ensures AnsweredIdly(events + [e]) <==>
            !Settles(e) && (AnsweredIdly(events) || (e.Woken? && ConnectWaits(events)))
  {
    assert (events + [e])[..|events|] == events && Last(events + [e]) == e;
    LastConnect(events + [e]);
    LastStop(events + [e], h);
    LastAnswered(events + [e]);
  }

  /** The flags after an event, by what was to be told before it. */
  ghost predicate FlagsAfter(s: Session, e: Event, h: Handlers, waits: bool, stopped: bool, idle: bool)
    requires Possible(s, e, h)
  {
    var a := After(s, e, h);
    && (a.awaiting <==> e.Connecting? || (!Answers(e) && waits))
    && (a.needless <==> !Settles(e) && (idle || (e.Woken? && waits)))
    && (a.parked <==> a.pending != [] && (Stops(e, h) || (!Resumes(e) && stopped)))
  }

  lemma FlagsAfterDrain(s: Session, e: Event, h: Handlers, waits: bool, stopped: bool, idle: bool)
    requires e.Drained? && Possible(s, e, h) && (s.parked <==> s.pending != [] && stopped)
    ensures FlagsAfter(s, e, h, waits, stopped, idle)
  {
    StopsIs(s, e, h);
  }

  lemma FlagsAfterCall(s: Session, e: Event, h: Handlers, waits: bool, stopped: bool, idle: bool)
    requires !e.Drained? && Possible(s, e, h) && (s.parked <==> s.pending != [] && stopped)
    requires (s.awaiting <==> waits) && (s.needless <==> idle)
    ensures FlagsAfter(s, e, h, waits, stopped, idle)
  {
    if e.Submitted? && e.attempt.Tried? {
      SyncSpec.SyncQueues(e.it, e.attempt.r);
    }
  }

  lemma {:induction false} FlagsAreTold(callback: bool, events: seq<Event>, h: Handlers)
    requires PossibleRun(callback, events, h)
    ensures ToldByEvents(RunSession(callback, events, h), events, h)
    decreases |events|
  {
    if events != [] {
      var before, e := events[..|events| - 1], Last(events);
      var s := RunSession(callback, before, h);
      FlagsAreTold(callback, before, h);
      OneMoreEvent(before, e, h);
      assert before + [e] == events;
      if e.Drained? {
        FlagsAfterDrain(s, e, h, ConnectWaits(before), Stopped(before, h), AnsweredIdly(before));
      } else {
        FlagsAfterCall(s, e, h, ConnectWaits(before), Stopped(before, h), AnsweredIdly(before));
      }
    }
  }

  /** Over any run, write events are on exactly while there is something to write and no error has stopped the
      drain, or a connect waits for its answer, or it was answered with nobody to shut them off. */
  lemma InterestIsTold(callback: bool, events: seq<Event>, h: Handlers)
    requires PossibleRun(callback, events, h)
    ensures var s := RunSession(callback, events, h);
      s.wr <==> (s.pending != [] && !Stopped(events, h)) || ConnectWaits(events) || AnsweredIdly(events)
  {
    FlagsAreTold(callback, events, h);
    InterestMirrorsQueue(callback, events, h);
  }

  /** After a connect write events stay on until a writable event. */
  lemma OnAfterConnect(callback: bool, events: seq<Event>, h: Handlers, k: nat)
    requires PossibleRun(callback, events, h) && k < |events| && events[k].Connecting?
    requires forall j {:trigger events[j]} :: k < j < |events| ==> !events[j].Drained? && !events[j].Woken?
    ensures RunSession(callback, events, h).wr
  {
    assert Unanswered(events, k + 1, |events|);
    InterestIsTold(callback, events, h);
  }
}
