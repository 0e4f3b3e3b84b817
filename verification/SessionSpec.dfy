/** A connection's writes over any number of calls and drains, on values. */
module SessionSpec {
  import opened Seqs
  import opened WriteSpec
  import opened CallbackSpec
  import opened FlowOrder
  import SyncSpec

  /** The synchronous attempt of a write call: not made, or made and answered. If it is not made the item
      is queued; `usable` says whether it is linked to the queue by that, which depends on wrqlast. */
  datatype Attempt = NotTried(usable: bool) | Tried(r: Reply)

  /** gwpr_write and its kin with one item; gwpr_connect; or a writable event. With a didwritecb that is a
      drain, begun with wrqlast as `tail` says; without one it only answers a pending connect. */
  datatype Event =
    | Submitted(it: Item, attempt: Attempt)
    | Connecting
    | Drained(turns: seq<Turn>, tail: Tail)
    | Woken

  /** `wr`: write events are on. `parked`: an error handed to errorcb ended a drain that left items
      queued, and nothing has switched write events on since. `awaiting`: a connect has not been answered.
      `needless`: it was answered without a didwritecb, so nothing shut write events off.
      `callback`: didwritecb is set; any write sets it. `lost`: items queued that are on no list.
      `stranded`: an item was linked to a node on no list, which may be in use elsewhere. What the next call
      does is not said. */
  datatype Session = Session(pending: seq<Item>, accepted: seq<Octet>, calls: seq<Callback>, lost: seq<Item>,
                             wr: bool, parked: bool, awaiting: bool, needless: bool, callback: bool, stranded: bool)

  /** `callback`: the user has installed a didwritecb before the first write. */
  function Start(callback: bool): Session {
    Session([], [], [], [], false, false, false, false, callback, false)
  }

  /** wrqlast can be unusable only with a single node in the queue. */
  ghost predicate Possible(s: Session, e: Event, h: Handlers) {
    !s.stranded &&
    match e
    case Drained(turns, tail) =>
      s.callback && LegalFlow(s.pending, turns, tail, h) && Finished(RunFlow(s.pending, turns, tail, h).d)
    case Submitted(it, NotTried(usable)) => !usable ==> |s.pending| == 1
    case Submitted(it, Tried(r)) => s.pending == [] && Legal(it, r)
    case Woken => !s.callback
    case _ => true
  }

  /** gwpr_asynchronous_write for each of the items, with a usable wrqlast. */
  function Queue(s: Session, items: seq<Item>): Session {
    if items == [] then s
    else s.(pending := s.pending + items, wr := true, parked := false, needless := false)
  }

  ghost function After(s: Session, e: Event, h: Handlers): Session
    requires Possible(s, e, h)
  {
    match e
    case Submitted(it, NotTried(usable)) =>
      if usable then Queue(s, [it]).(callback := true)
      else s.(lost := s.lost + [it], wr := true, parked := false, needless := false, callback := true, stranded := true)
    case Submitted(it, Tried(r)) =>
      Queue(s, SyncSpec.SyncResult(it, r).queued)
      .(accepted := s.accepted + Wire(Front(it, r.written)), callback := true)
    case Connecting => s.(wr := true, parked := false, awaiting := true, needless := false)
    case Drained(turns, tail) =>
      var f := RunFlow(s.pending, turns, tail, h);
      var pending := f.d.todo + f.added;
      s.(pending := pending, accepted := s.accepted + f.sent, calls := s.calls + f.d.calls,
         lost := s.lost + f.lost,
         wr := (s.wr || f.added != []) && pending != [] && !f.d.stop,
         parked := pending != [] && (f.d.stop || (s.parked && f.added == [])),
         awaiting := false, needless := false)
    case Woken => s.(awaiting := false, needless := s.awaiting || s.needless)
  }

  ghost predicate PossibleRun(callback: bool, events: seq<Event>, h: Handlers)
    decreases |events|, 0
  {
    events == [] ||
    (&& PossibleRun(callback, events[..|events| - 1], h)
     && Possible(RunSession(callback, events[..|events| - 1], h), Last(events), h))
  }

  ghost function RunSession(callback: bool, events: seq<Event>, h: Handlers): Session
    requires PossibleRun(callback, events, h)
    decreases |events|, 1
  {
    if events == [] then Start(callback)
    else After(RunSession(callback, events[..|events| - 1], h), Last(events), h)
  }

  lemma SessionExtends(callback: bool, events: seq<Event>, e: Event, h: Handlers)
    requires PossibleRun(callback, events, h) && Possible(RunSession(callback, events, h), e, h)
    ensures PossibleRun(callback, events + [e], h)
    ensures RunSession(callback, events + [e], h) == After(RunSession(callback, events, h), e, h)
  {
    assert (events + [e])[..|events|] == events;
  }

  /** The items one event submits, in the order of the calls. */
  function Brought(e: Event): seq<Item> {
    match e
    case Submitted(it, _) => [it]
    case Drained(turns, _) => Asked(turns)
    case _ => []
  }

  /** Every byte given to a write call, in the order of the calls. */
  function SubmittedStream(events: seq<Event>): seq<Octet>
    decreases |events|
  {
    if events == [] then [] else SubmittedStream(events[..|events| - 1]) + Stream(Brought(Last(events)))
  }

  function Streamed(s: Session): seq<Octet> { s.accepted + Stream(s.pending) }

  /** Nothing is lost: the answers of a drain are clean; a synchronous attempt is taken whole; and a write
      that is queued, unless it is empty, finds wrqlast usable. */
  predicate CleanEvent(e: Event, h: Handlers) {
    match e
    case Drained(turns, _) => AllClean(Replies(turns), h)
    case Submitted(it, NotTried(usable)) => usable || it.data == []
    case Submitted(it, Tried(r)) => r.written == |it.data|
    case _ => true
  }

  /** The callbacks of a drain write in order: those that queue, as QueueKeptIff has it; and none writes
      directly while bytes of the list being drained are waiting. */
  ghost predicate OrderlyEvent(s: Session, e: Event, h: Handlers)
    requires Possible(s, e, h)
  {
    e.Drained? ==> (e.tail == Unset || |Queued(e.turns)| <= 1) && InTurn(s.pending, e.turns, e.tail, h)
  }

  predicate CleanRun(events: seq<Event>, h: Handlers)
    decreases |events|
  {
    events == [] || (CleanRun(events[..|events| - 1], h) && CleanEvent(Last(events), h))
  }

  ghost predicate OrderlyRun(callback: bool, events: seq<Event>, h: Handlers)
    requires PossibleRun(callback, events, h)
    decreases |events|
  {
    events == [] ||
    (var before := events[..|events| - 1];
     && OrderlyRun(callback, before, h)
     && OrderlyEvent(RunSession(callback, before, h), Last(events), h))
  }

  // ---- What an event does to the stream ----

  lemma SameStream<T>(accepted: seq<T>, sent: seq<T>, todo: seq<T>, added: seq<T>, pending: seq<T>, direct: seq<T>)
    requires sent + todo == pending + direct
    ensures (accepted + sent) + (todo + added) == (accepted + pending) + (direct + added)
  {
    assert (accepted + sent) + (todo + added) == (accepted + (sent + todo)) + added;
  }

  /** A clean and orderly drain adds what its callbacks wrote at the end of the stream. */
  lemma OrderlyDrainStream(s: Session, e: Event, h: Handlers)
    requires e.Drained? && Possible(s, e, h) && CleanEvent(e, h) && OrderlyEvent(s, e, h)
    ensures Streamed(After(s, e, h)) == Streamed(s) + Stream(Brought(e))
  {
    var f := RunFlow(s.pending, e.turns, e.tail, h);
    OrderlyFlow(s.pending, e.turns, e.tail, h);
    QueueKeptIff(s.pending, e.turns, e.tail, h);
    DirectFirst(s.pending, e.turns, e.tail, h);
    StreamAppends(f.d.todo, f.added);
    StreamAppends(f.direct, f.added);
    SameStream(s.accepted, f.sent, Stream(f.d.todo), Stream(f.added), Stream(s.pending), Stream(f.direct));
  }

  lemma SubmitStream(s: Session, e: Event, h: Handlers)
    requires !e.Drained? && Possible(s, e, h) && CleanEvent(e, h)
    ensures Streamed(After(s, e, h)) == Streamed(s) + Stream(Brought(e))
  {
    if e.Submitted? {
      StreamOfOne(e.it);
      assert Streamed(s) + [] == Streamed(s);
      if e.attempt.Tried? {
        assert Front(e.it, e.attempt.r.written) == e.it;
        SyncSpec.SyncQueuesTaken(e.it, e.attempt.r);
      }
      StreamAppends(s.pending, [e.it]);
      Associates(s.accepted, Stream(s.pending), Wire(e.it));
    }
  }

  lemma OrderlyEventKeeps(s: Session, e: Event, h: Handlers)
    requires Possible(s, e, h) && CleanEvent(e, h) && OrderlyEvent(s, e, h)
    ensures Streamed(After(s, e, h)) == Streamed(s) + Stream(Brought(e))
  {
    if e.Drained? {
      OrderlyDrainStream(s, e, h);
    } else {
      SubmitStream(s, e, h);
    }
  }

  /** Over any interleaving of writes, writable events and writes made in did-write callbacks: what the
      kernel took, followed by what is pending, is what was submitted, in the order of the calls, if every
      answer was clean, every write queued from outside a drain found wrqlast usable, and every drain was
      orderly. */
  lemma {:induction false} StreamOrder(callback: bool, events: seq<Event>, h: Handlers)
    requires PossibleRun(callback, events, h) && CleanRun(events, h) && OrderlyRun(callback, events, h)
    ensures Streamed(RunSession(callback, events, h)) == SubmittedStream(events)
    decreases |events|
  {
    if events != [] {
      var before := events[..|events| - 1];
      StreamOrder(callback, before, h);
      OrderlyEventKeeps(RunSession(callback, before, h), Last(events), h);
    }
  }

  // ---- What the kernel and wrqlast have to do with it ----

  /** What wrqlast was found to be on the way. */
  function Marks(e: Event): seq<Mark> {
    match e
    case Submitted(_, NotTried(usable)) => [Queueing(usable)]
    case Drained(_, tail) => [Detaching(tail)]
    case _ => []
  }

  function MarksOf(events: seq<Event>): seq<Mark> {
    if events == [] then [] else MarksOf(events[..|events| - 1]) + Marks(Last(events))
  }

  /** The answers in the event are those the kernel gave to the calls `ts`. */
  ghost predicate Witnessed(s: Session, e: Event, ts: seq<Trial>, h: Handlers)
    requires Possible(s, e, h)
  {
    match e
    case Submitted(it, Tried(r)) => Attempts(it, ts, r)
    case Drained(turns, tail) => Answered(s.pending, turns, tail, h, ts)
    case _ => ts == []
  }

  /** The calls `ts` are those made in the run, event by event. */
  ghost predicate WitnessedRun(callback: bool, events: seq<Event>, ts: seq<Trial>, h: Handlers)
    requires PossibleRun(callback, events, h)
    decreases |events|
  {
    if events == [] then ts == []
    else
      var before := events[..|events| - 1];
      exists k :: 0 <= k <= |ts| && WitnessedRun(callback, before, ts[..k], h)
                  && Witnessed(RunSession(callback, before, h), Last(events), ts[k..], h)
  }

  /** A run goes on by one event. */
  lemma RunGoesOn(callback: bool, events: seq<Event>, e: Event, was: seq<Trial>, now: seq<Trial>, h: Handlers)
    requires PossibleRun(callback, events, h) && Possible(RunSession(callback, events, h), e, h) && was <= now
    requires WitnessedRun(callback, events, was, h)
    requires Witnessed(RunSession(callback, events, h), e, now[|was|..], h)
    ensures PossibleRun(callback, events + [e], h) && WitnessedRun(callback, events + [e], now, h)
    ensures RunSession(callback, events + [e], h) == After(RunSession(callback, events, h), e, h)
    ensures MarksOf(events + [e]) == MarksOf(events) + Marks(e)
  {
    SessionExtends(callback, events, e, h);
    assert (events + [e])[..|events|] == events;
    assert now[..|was|] == was;
  }

  // ---- Write interest ----

  lemma {:induction false} FlowOfNothing(turns: seq<Turn>, tail: Tail, h: Handlers)
    ensures LegalFlow([], turns, tail, h) <==> turns == []
    decreases |turns|
  {
    if turns != [] {
      FlowOfNothing(turns[..|turns| - 1], tail, h);
    }
  }

  ghost predicate InterestRight(s: Session) {
    && (s.wr <==> (s.pending != [] && !s.parked) || s.awaiting || s.needless)
    && (s.parked ==> s.pending != [] && !s.awaiting)
    && (s.needless ==> s.pending == [])
    && (!s.callback ==> s.pending == [])
  }

  lemma InterestKept(s: Session, e: Event, h: Handlers)
    requires InterestRight(s) && Possible(s, e, h)
    ensures InterestRight(After(s, e, h))
  {
    if e.Drained? {
      FlowOfNothing(e.turns, e.tail, h);
    }
  }

  /** Write events are on exactly while there is something to write that no error has parked, or a
      connect to answer, or one was answered with no didwritecb to shut them off. */
  lemma {:induction false} InterestMirrorsQueue(callback: bool, events: seq<Event>, h: Handlers)
    requires PossibleRun(callback, events, h)
    ensures InterestRight(RunSession(callback, events, h))
    decreases |events|
  {
    if events != [] {
      var before := events[..|events| - 1];
      InterestMirrorsQueue(callback, before, h);
      InterestKept(RunSession(callback, before, h), Last(events), h);
    }
  }

  // ---- A byte that is gone stays gone ----

  lemma {:induction false} DrainBringsNothing(items: seq<Item>, replies: seq<Reply>, h: Handlers, o: Octet)
    requires LegalRun(items, replies, h) && o !in Stream(items)
    ensures var d := RunDrain(items, replies, h); o !in d.accepted && o !in Stream(d.todo)
    decreases |replies|
  {
    if replies != [] {
      var d, r := DrainUnfolds(items, replies, h);
      DrainBringsNothing(items, replies[..|replies| - 1], h, o);
      StepBringsNothing(d, r, h, o);
    }
  }

  predicate Gone(s: Session, o: Octet) { o !in s.accepted && o !in Stream(s.pending) }

  /** What the callbacks of a drain wrote, by where it went: straight to the kernel, to the new queue, onto
      the list being drained, or nowhere. */
  lemma BroughtParts(s: Session, e: Event, h: Handlers) returns (strayed: seq<Item>)
    requires e.Drained? && Possible(s, e, h)
    ensures var f := RunFlow(s.pending, e.turns, e.tail, h);
      && f.given == s.pending + strayed
      && Stream(Brought(e)) == Stream(f.direct) + (Stream(f.added) + (Stream(strayed) + Stream(f.lost)))
      && Queued(e.turns) == f.added + (strayed + f.lost)
      && (e.tail != Unset && |Queued(e.turns)| > 1 ==> |f.added| == 1)
  {
    var f := RunFlow(s.pending, e.turns, e.tail, h);
    WhereTheyGo(s.pending, e.turns, e.tail, h);
    DirectFirst(s.pending, e.turns, e.tail, h);
    strayed := f.given[|s.pending|..];
    assert f.given == s.pending + strayed;
    assert e.tail == Unset ==> f.added + ([] + []) == f.added;
    StreamAppends(f.direct, Queued(e.turns));
    StreamAppends(f.added, strayed + f.lost);
    StreamAppends(strayed, f.lost);
  }

  /** A byte that is neither taken nor pending stays so until it is submitted. */
  lemma EventBringsNothing(s: Session, e: Event, h: Handlers, o: Octet)
    requires Possible(s, e, h) && Gone(s, o) && o !in Stream(Brought(e))
    ensures Gone(After(s, e, h), o)
  {
    match e
    case Submitted(it, NotTried(_)) =>
      StreamAppends(s.pending, [it]);
      StreamOfOne(it);
    case Submitted(it, Tried(r)) =>
      StreamOfOne(it);
      SyncSpec.SyncQueuesTaken(it, r);
      WireSplits(it, r.written);
      StreamAppends(s.pending, SyncSpec.SyncResult(it, r).queued);
    case Drained(turns, tail) =>
      var f := RunFlow(s.pending, turns, tail, h);
      var strayed := BroughtParts(s, e, h);
      FlowIsDrain(s.pending, turns, tail, h);
      StreamAppends(s.pending, strayed);
      DrainBringsNothing(f.given, Replies(turns), h, o);
      SentIsFrom(s.pending, turns, tail, h, o);
      StreamAppends(f.d.todo, f.added);
    case _ =>
  }
}
