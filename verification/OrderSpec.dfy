/** Exactly when the stream order holds over a run. Bytes are told apart by being distinct: what is out
    of place once stays so. */
module OrderSpec {
  import opened Seqs
  import opened WriteSpec
  import opened CallbackSpec
  import opened FlowOrder
  import opened SessionSpec
  import SyncSpec

  /** Every item holds a byte. */
  predicate Solid(items: seq<Item>) {
    forall i :: 0 <= i < |items| ==> items[i].data != []
  }

  /** Every item queued by a callback does. */
  predicate SolidRun(events: seq<Event>)
    decreases |events|
  {
    events == [] ||
    (SolidRun(events[..|events| - 1]) && (Last(events).Drained? ==> Solid(Queued(Last(events).turns))))
  }

  lemma SolidStream(items: seq<Item>)
    requires items != [] && Solid(items)
    ensures Stream(items) != []
  {
    assert |Wire(items[0])| == |items[0].data|;
  }

  // ---- Clean runs submit and take the same bytes ----

  lemma DrainCounts<T>(accepted: seq<T>, sent: seq<T>, todo: seq<T>, added: seq<T>, pending: seq<T>, strayed: seq<T>,
                       lost: seq<T>, direct: seq<T>, took: seq<T>)
    requires took + todo == pending + strayed && multiset(sent) == multiset(took) + multiset(direct)
    ensures multiset((accepted + sent) + (todo + added)) + multiset(lost) ==
            multiset(accepted + pending) + multiset(direct + (added + (strayed + lost)))
  {
    assert multiset(took) + multiset(todo) == multiset(pending) + multiset(strayed) by {
      assert multiset(took + todo) == multiset(pending + strayed);
    }
    assert multiset((accepted + sent) + (todo + added)) ==
           multiset(accepted) + (multiset(took) + multiset(todo)) + multiset(direct) + multiset(added);
  }

  /** Every byte submitted in a clean drain, and no other, is taken, pending or lost by its callback. */
  lemma CleanDrainCounts(s: Session, e: Event, h: Handlers)
    requires e.Drained? && Possible(s, e, h) && CleanEvent(e, h)
    ensures multiset(Streamed(After(s, e, h))) + multiset(Stream(RunFlow(s.pending, e.turns, e.tail, h).lost)) ==
            multiset(Streamed(s)) + multiset(Stream(Brought(e)))
  {
    var f := RunFlow(s.pending, e.turns, e.tail, h);
    var strayed := BroughtParts(s, e, h);
    FlowIsDrain(s.pending, e.turns, e.tail, h);
    DrainConserves(f.given, Replies(e.turns), h);
    StreamAppends(s.pending, strayed);
    StreamAppends(f.d.todo, f.added);
    SentCounts(s.pending, e.turns, e.tail, h);
    DrainCounts(s.accepted, f.sent, Stream(f.d.todo), Stream(f.added), Stream(s.pending), Stream(strayed),
                Stream(f.lost), Stream(f.direct), f.d.accepted);
  }

  lemma CleanEventCounts(s: Session, e: Event, h: Handlers)
    requires Possible(s, e, h) && CleanEvent(e, h)
    ensures multiset(Streamed(After(s, e, h))) <= multiset(Streamed(s)) + multiset(Stream(Brought(e)))
  {
    if e.Drained? {
      CleanDrainCounts(s, e, h);
    } else {
      SubmitStream(s, e, h);
    }
  }

  lemma {:induction false} CleanRunOwnBytes(callback: bool, events: seq<Event>, h: Handlers)
    requires PossibleRun(callback, events, h) && CleanRun(events, h)
    ensures multiset(Streamed(RunSession(callback, events, h))) <= multiset(SubmittedStream(events))
    decreases |events|
  {
    if events != [] {
      var before := events[..|events| - 1];
      CleanRunOwnBytes(callback, before, h);
      CleanEventCounts(RunSession(callback, before, h), Last(events), h);
    }
  }

  // ---- An unclean answer loses a byte for good ----

  lemma OnlyThere<T>(accepted: seq<T>, given: seq<T>, direct: seq<T>, added: seq<T>, whole: seq<T>, o: T)
    requires Distinct(whole) && o in given
    requires multiset(accepted) + multiset(given) + multiset(direct) + multiset(added) <= multiset(whole)
    ensures o in whole && o !in accepted && o !in direct && o !in added
  {
    AtMostOnce(whole, o);
    assert o in multiset(given);
    assert o in multiset(whole) && o !in multiset(accepted) && o !in multiset(direct) && o !in multiset(added);
  }

  lemma WholeHolds<T>(accepted: seq<T>, pending: seq<T>, strayed: seq<T>, direct: seq<T>, added: seq<T>, lost: seq<T>,
                      sub: seq<T>)
    requires multiset(accepted + pending) <= multiset(sub)
    ensures var whole := sub + (direct + (added + (strayed + lost)));
      && multiset(accepted) + multiset(pending + strayed) + multiset(direct) + multiset(added) <= multiset(whole)
      && multiset(pending + strayed) <= multiset(whole)
  {
    var whole := sub + (direct + (added + (strayed + lost)));
    var part := multiset(accepted) + multiset(pending + strayed) + multiset(direct) + multiset(added);
    assert multiset(accepted + pending) == multiset(accepted) + multiset(pending);
    assert multiset(whole) + multiset(accepted + pending) == part + multiset(lost) + multiset(sub);
  }

  lemma UncleanDrainLoses(s: Session, e: Event, h: Handlers, sub: seq<Octet>) returns (o: Octet)
    requires e.Drained? && Possible(s, e, h) && !CleanEvent(e, h)
    requires multiset(Streamed(s)) <= multiset(sub) && Distinct(sub + Stream(Brought(e)))
    ensures o in sub + Stream(Brought(e)) && Gone(After(s, e, h), o)
  {
    var f := RunFlow(s.pending, e.turns, e.tail, h);
    var strayed := BroughtParts(s, e, h);
    var whole := sub + Stream(Brought(e));
    StreamAppends(s.pending, strayed);
    WholeHolds(s.accepted, Stream(s.pending), Stream(strayed), Stream(f.direct), Stream(f.added), Stream(f.lost), sub);
    DistinctBelow(Stream(f.given), whole);
    FlowIsDrain(s.pending, e.turns, e.tail, h);
    o := LostStaysLost(f.given, Replies(e.turns), h);
    OnlyThere(s.accepted, Stream(f.given), Stream(f.direct), Stream(f.added), whole, o);
    SentIsFrom(s.pending, e.turns, e.tail, h, o);
    StreamAppends(f.d.todo, f.added);
  }

  /** The first byte that a synchronous attempt leaves. */
  lemma UncleanAttemptLoses(s: Session, e: Event, h: Handlers, sub: seq<Octet>) returns (o: Octet)
    requires e.Submitted? && e.attempt.Tried? && Possible(s, e, h) && !CleanEvent(e, h)
    requires multiset(Streamed(s)) <= multiset(sub) && Distinct(sub + Stream(Brought(e)))
    ensures o in sub + Stream(Brought(e)) && Gone(After(s, e, h), o)
  {
    var it, w := e.it, e.attempt.r.written;
    StreamOfOne(it);
    o := Wire(it)[w];
    assert o in Wire(it);
    DistinctParts(sub, Wire(it));
    DistinctBelow(Streamed(s), sub);
    assert o !in s.accepted by {
      assert o in s.accepted ==> o in Streamed(s);
    }
    assert forall i :: 0 <= i < w ==> Wire(Front(it, w))[i] == Wire(it)[i];
    assert o !in Wire(Front(it, w));
    SyncSpec.SyncQueuesTaken(it, e.attempt.r);
    assert s.pending + SyncSpec.SyncResult(it, e.attempt.r).queued == SyncSpec.SyncResult(it, e.attempt.r).queued;
  }

  /** Any byte of a write that is linked to no list. */
  lemma UnlinkedLoses(s: Session, e: Event, h: Handlers, sub: seq<Octet>) returns (o: Octet)
    requires e.Submitted? && e.attempt.NotTried? && Possible(s, e, h) && !CleanEvent(e, h)
    requires multiset(Streamed(s)) <= multiset(sub) && Distinct(sub + Stream(Brought(e)))
    ensures o in sub + Stream(Brought(e)) && Gone(After(s, e, h), o)
  {
    StreamOfOne(e.it);
    o := Wire(e.it)[0];
    assert o in Wire(e.it);
    DistinctParts(sub, Wire(e.it));
    DistinctBelow(Streamed(s), sub);
    assert Gone(s, o) by {
      assert o in s.accepted || o in Stream(s.pending) ==> o in Streamed(s);
    }
  }

  lemma UncleanEventLoses(s: Session, e: Event, h: Handlers, sub: seq<Octet>) returns (o: Octet)
    requires Possible(s, e, h) && !CleanEvent(e, h)
    requires multiset(Streamed(s)) <= multiset(sub) && Distinct(sub + Stream(Brought(e)))
    ensures o in sub + Stream(Brought(e)) && Gone(After(s, e, h), o)
  {
    if e.Drained? {
      o := UncleanDrainLoses(s, e, h, sub);
    } else if e.attempt.NotTried? {
      o := UnlinkedLoses(s, e, h, sub);
    } else {
      o := UncleanAttemptLoses(s, e, h, sub);
    }
  }

  lemma {:induction false} UncleanRunLoses(callback: bool, events: seq<Event>, h: Handlers) returns (o: Octet)
    requires PossibleRun(callback, events, h) && !CleanRun(events, h) && Distinct(SubmittedStream(events))
    ensures o in SubmittedStream(events) && Gone(RunSession(callback, events, h), o)
    decreases |events|
  {
    var before, e := events[..|events| - 1], Last(events);
    var s := RunSession(callback, before, h);
    DistinctParts(SubmittedStream(before), Stream(Brought(e)));
    if CleanRun(before, h) {
      CleanRunOwnBytes(callback, before, h);
      o := UncleanEventLoses(s, e, h, SubmittedStream(before));
    } else {
      o := UncleanRunLoses(callback, before, h);
      EventBringsNothing(s, e, h, o);
    }
  }

  // ---- A disorderly drain puts bytes out of order for good ----

  lemma BehindAll<T>(front: seq<T>, last: seq<T>, a: T, b: T)
    requires Distinct(front + last) && a in last && b !in last
    ensures Astray(front + last, a, b)
  {
    var all := front + last;
    var k :| 0 <= k < |last| && last[k] == a;
    assert all[|front| + k] == a;
    forall i, j | 0 <= i < j < |all|
      ensures !(all[i] == a && all[j] == b)
    {
      if all[i] == a {
        assert i == |front| + k;
        assert all[j] == last[j - |front|];
      }
    }
  }

  lemma InOrderThere<T>(x: seq<T>, y: seq<T>, a: T, b: T)
    requires a in x && b in y
    ensures !Astray(x + y, a, b)
  {
    var i :| 0 <= i < |x| && x[i] == a;
    var j :| 0 <= j < |y| && y[j] == b;
    assert (x + y)[i] == a && (x + y)[|x| + j] == b;
  }

  lemma BehindTheRest<T>(sub: seq<T>, direct: seq<T>, added: seq<T>, rest: seq<T>, front: seq<T>)
    requires added != [] && rest != [] && Distinct(sub + (direct + (added + rest))) && Distinct(front + added)
    ensures !Astray(sub + (direct + (added + rest)), added[0], rest[0]) && Astray(front + added, added[0], rest[0])
  {
    var x := sub + (direct + added);
    assert sub + (direct + (added + rest)) == x + rest;
    assert forall i :: 0 <= i < |added| ==> x[|sub| + |direct| + i] == added[i];
    DistinctParts(x, rest);
    InOrderThere(x, rest, added[0], rest[0]);
    assert rest[0] in rest;
    BehindAll(front, added, added[0], rest[0]);
  }

  /** The first of the items queued is behind the others, or these are gone. */
  lemma QueuedAstray(s: Session, e: Event, h: Handlers, sub: seq<Octet>) returns (a: Octet, b: Octet)
    requires e.Drained? && Possible(s, e, h) && e.tail != Unset && |Queued(e.turns)| > 1 && Solid(Queued(e.turns))
    requires Distinct(sub + Stream(Brought(e))) && Distinct(Streamed(After(s, e, h)))
    ensures !Astray(sub + Stream(Brought(e)), a, b) && Astray(Streamed(After(s, e, h)), a, b)
  {
    var f := RunFlow(s.pending, e.turns, e.tail, h);
    var strayed := BroughtParts(s, e, h);
    SolidParts(f.added, strayed, f.lost, Queued(e.turns));
    a, b := Stream(f.added)[0], (Stream(strayed) + Stream(f.lost))[0];
    StreamAppends(f.d.todo, f.added);
    var front := (s.accepted + f.sent) + Stream(f.d.todo);
    Associates(s.accepted + f.sent, Stream(f.d.todo), Stream(f.added));
    BehindTheRest(sub, Stream(f.direct), Stream(f.added), Stream(strayed) + Stream(f.lost), front);
  }

  lemma SolidParts(added: seq<Item>, strayed: seq<Item>, lost: seq<Item>, queued: seq<Item>)
    requires queued == added + (strayed + lost) && |added| == 1 < |queued| && Solid(queued)
    ensures Stream(added) != [] && Stream(strayed) + Stream(lost) != []
  {
    var rest := strayed + lost;
    assert added[0] == queued[0] && forall i :: 0 <= i < |rest| ==> rest[i] == queued[|added| + i];
    StreamAppends(strayed, lost);
    SolidStream(added);
    SolidStream(rest);
  }

  /** A byte written directly is before one that was waiting, or that one is gone. */
  lemma DirectAstray(s: Session, e: Event, h: Handlers, sub: seq<Octet>) returns (a: Octet, b: Octet)
    requires e.Drained? && Possible(s, e, h) && CleanEvent(e, h) && !InTurn(s.pending, e.turns, e.tail, h)
    requires multiset(Streamed(s)) <= multiset(sub) && Distinct(sub + Stream(Brought(e)))
    requires Distinct(Streamed(After(s, e, h)))
    ensures !Astray(sub + Stream(Brought(e)), a, b) && Astray(Streamed(After(s, e, h)), a, b)
  {
    var f := RunFlow(s.pending, e.turns, e.tail, h);
    var strayed := BroughtParts(s, e, h);
    DistinctBelow(Streamed(s) + Stream(Brought(e)), sub + Stream(Brought(e)));
    Associates(s.accepted, Stream(s.pending), Stream(Brought(e)));
    a, b := OvertakenBytes(s.pending, e.turns, e.tail, h, s.accepted);
    assert a in multiset(Streamed(s)) && a in multiset(sub);
    InOrderThere(sub, Stream(Brought(e)), a, b);
    PrecedesStays(s.accepted + f.sent, Stream(f.d.todo + f.added), b, a);
    PrecedesIsAstray(Streamed(After(s, e, h)), b, a);
  }

  lemma DisorderlyEvent(s: Session, e: Event, h: Handlers, sub: seq<Octet>) returns (a: Octet, b: Octet)
    requires Possible(s, e, h) && CleanEvent(e, h) && !OrderlyEvent(s, e, h)
    requires e.Drained? ==> Solid(Queued(e.turns))
    requires multiset(Streamed(s)) <= multiset(sub) && Distinct(sub + Stream(Brought(e)))
    ensures !Astray(sub + Stream(Brought(e)), a, b) && Astray(Streamed(After(s, e, h)), a, b)
  {
    CleanEventCounts(s, e, h);
    DistinctBelow(Streamed(After(s, e, h)), sub + Stream(Brought(e)));
    if !InTurn(s.pending, e.turns, e.tail, h) {
      a, b := DirectAstray(s, e, h, sub);
    } else {
      a, b := QueuedAstray(s, e, h, sub);
    }
  }

  /** A clean event puts its own bytes among the others and leaves these as they were. */
  lemma CleanEventKeeps(s: Session, e: Event, h: Handlers)
    requires Possible(s, e, h) && CleanEvent(e, h)
    requires forall o :: o in Streamed(s) ==> o !in Stream(Brought(e))
    ensures Sans(Streamed(After(s, e, h)), Stream(Brought(e))) == Streamed(s)
  {
    var x := Stream(Brought(e));
    SansNone(Streamed(s), x);
    if e.Drained? {
      DrainKeeps(s, e, h);
    } else {
      SubmitStream(s, e, h);
      SansAppends(Streamed(s), x, x);
      SansAll(x, x);
    }
  }

  lemma TookOthers<T>(took: seq<T>, todo: seq<T>, pending: seq<T>, strayed: seq<T>, x: seq<T>)
    requires took + todo == pending + strayed
    requires (forall o :: o in strayed ==> o in x) && (forall o :: o in pending ==> o !in x)
    ensures Sans(took, x) + Sans(todo, x) == pending
  {
    SansAppends(took, todo, x);
    SansAppends(pending, strayed, x);
    SansAll(strayed, x);
    SansNone(pending, x);
  }

  lemma KeepsOthers<T>(accepted: seq<T>, sent: seq<T>, took: seq<T>, todo: seq<T>, added: seq<T>, pending: seq<T>,
                       x: seq<T>)
    requires Sans(sent, x) == Sans(took, x) && Sans(took, x) + Sans(todo, x) == pending
    requires (forall o :: o in added ==> o in x) && (forall o :: o in accepted ==> o !in x)
    ensures Sans((accepted + sent) + (todo + added), x) == accepted + pending
  {
    SansAppends(accepted + sent, todo + added, x);
    SansAppends(accepted, sent, x);
    SansAppends(todo, added, x);
    SansAll(added, x);
    SansNone(accepted, x);
    Associates(accepted, Sans(took, x), Sans(todo, x));
    assert Sans(todo, x) + [] == Sans(todo, x);
  }

  lemma DrainKeeps(s: Session, e: Event, h: Handlers)
    requires e.Drained? && Possible(s, e, h) && CleanEvent(e, h)
    requires forall o :: o in Streamed(s) ==> o !in Stream(Brought(e))
    ensures Sans(Streamed(After(s, e, h)), Stream(Brought(e))) == Streamed(s)
  {
    var f, x := RunFlow(s.pending, e.turns, e.tail, h), Stream(Brought(e));
    var strayed := BroughtParts(s, e, h);
    FlowIsDrain(s.pending, e.turns, e.tail, h);
    DrainConserves(f.given, Replies(e.turns), h);
    StreamAppends(s.pending, strayed);
    StreamAppends(f.d.todo, f.added);
    SentSans(s.pending, e.turns, e.tail, h, x);
    TookOthers(f.d.accepted, Stream(f.d.todo), Stream(s.pending), Stream(strayed), x);
    KeepsOthers(s.accepted, f.sent, f.d.accepted, Stream(f.d.todo), Stream(f.added), Stream(s.pending), x);
  }

  lemma {:induction false} DisorderlyRun(callback: bool, events: seq<Event>, h: Handlers) returns (a: Octet, b: Octet)
    requires PossibleRun(callback, events, h) && CleanRun(events, h) && !OrderlyRun(callback, events, h)
    requires SolidRun(events) && Distinct(SubmittedStream(events))
    ensures !Astray(SubmittedStream(events), a, b) && Astray(Streamed(RunSession(callback, events, h)), a, b)
    ensures b in SubmittedStream(events) && a in SubmittedStream(events)
    decreases |events|
  {
    var before, e := events[..|events| - 1], Last(events);
    var s, sub := RunSession(callback, before, h), SubmittedStream(before);
    DistinctParts(sub, Stream(Brought(e)));
    CleanRunOwnBytes(callback, before, h);
    if OrderlyRun(callback, before, h) {
      a, b := DisorderlyEvent(s, e, h, sub);
    } else {
      a, b := DisorderlyRun(callback, before, h);
      LaterStays(s, e, h, sub, a, b);
    }
  }

  lemma LaterStays(s: Session, e: Event, h: Handlers, sub: seq<Octet>, a: Octet, b: Octet)
    requires Possible(s, e, h) && CleanEvent(e, h) && a in sub && b in sub
    requires multiset(Streamed(s)) <= multiset(sub) && Distinct(sub + Stream(Brought(e)))
    requires !Astray(sub, a, b) && Astray(Streamed(s), a, b)
    ensures !Astray(sub + Stream(Brought(e)), a, b) && Astray(Streamed(After(s, e, h)), a, b)
  {
    var x := Stream(Brought(e));
    DistinctParts(sub, x);
    DistinctBelow(Streamed(s), sub);
    CleanEventKeeps(s, e, h);
    AstrayStays(Streamed(After(s, e, h)), x, a, b);
    var i, j :| 0 <= i < j < |sub| && sub[i] == a && sub[j] == b;
    assert (sub + x)[i] == a && (sub + x)[j] == b;
  }

  /** Exactly when the stream order holds over a run: every answer in every drain was clean, every synchronous
      attempt taken whole, and wrqlast usable for every write queued from outside a drain; in every drain
      the callbacks queued one item at most or wrqlast was null when the queue was detached; and no callback
      wrote bytes directly while others were waiting. */
  lemma StreamOrderIff(callback: bool, events: seq<Event>, h: Handlers)
    requires PossibleRun(callback, events, h) && SolidRun(events) && Distinct(SubmittedStream(events))
    ensures Streamed(RunSession(callback, events, h)) == SubmittedStream(events) <==>
            CleanRun(events, h) && OrderlyRun(callback, events, h)
  {
    if !CleanRun(events, h) {
      var o := UncleanRunLoses(callback, events, h);
    } else if !OrderlyRun(callback, events, h) {
      var a, b := DisorderlyRun(callback, events, h);
    } else {
      StreamOrder(callback, events, h);
    }
  }
}
