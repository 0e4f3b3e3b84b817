/** Whole runs of one connection on the heap: the linked queue behaves like the session on values. */
module WriteRun {
  import opened Seqs
  import opened Flags
  import opened WriteSpec
  import opened CallbackSpec
  import opened AnswerSpec
  import opened SessionSpec
  import InterestSpec
  import OrderSpec
  import ReportSpec
  import opened WriteQueue
  import opened WriteLine
  import opened WriteRecord
  import opened WritePath
  import SyncSpec

  /** A call of gwpr_write, gwpr_send or gwpr_sendto, or a writable event. `taken` says that a
      synchronous write, if one is tried, is taken whole by the kernel; the callbacks of a drain queue
      up to `allowance` items. */
  datatype Action = Submit(op: WriteOp, peer: int, data: seq<Byte>, taken: bool) | Writable(allowance: nat)

  /** The event is an outcome of the action in this state: a synchronous attempt is made only with nothing
      queued. */
  ghost predicate Outcome(a: Action, e: Event, s: Session) {
    match a
    case Submit(op, peer, data, taken) =>
      && e.Submitted? && SameWire(e.it, op, peer, data)
      && if s.pending == [] && taken then e.attempt == Tried(Reply(|data|, NoError)) else e.attempt.NotTried?
    case Writable(allowance) => e.Drained? && |Queued(e.turns)| <= allowance
  }

  ghost predicate Outcomes(actions: seq<Action>, events: seq<Event>, h: Handlers)
    decreases |events|
  {
    events == [] ||
    (var before := events[..|events| - 1];
     && |events| <= |actions| && Outcomes(actions, before, h)
     && PossibleRun(true, before, h) && Outcome(actions[|before|], Last(events), RunSession(true, before, h)))
  }

  lemma OutcomesGrow(actions: seq<Action>, events: seq<Event>, e: Event, h: Handlers)
    requires Outcomes(actions, events, h) && |events| < |actions| && PossibleRun(true, events, h)
    requires Outcome(actions[|events|], e, RunSession(true, events, h))
    ensures Outcomes(actions, events + [e], h)
  {
    assert (events + [e])[..|events|] == events;
  }

  /** The session state a connection is in, with a didwritecb and no connect under way. */
  ghost function Here(c: Conn): Session
    reads c, c.kernel
  {
    Start(true).(pending := c.line.items, accepted := c.kernel.accepted, calls := c.calls, lost := c.missed,
                 wr := WR in c.flags)
  }

  /** The connection has come where the session has come with these events, whose answers are those the
      kernel gave and in which wrqlast was what the connection found; `lost` says that the last of them left its
      item on no list. */
  ghost predicate Follows(c: Conn, events: seq<Event>, lost: bool)
    reads c, c.kernel
  {
    && PossibleRun(true, events, c.h)
    && RunSession(true, events, c.h).(parked := false) == Here(c).(stranded := lost)
    && c.marks == MarksOf(events) && WitnessedRun(true, events, c.kernel.trials, c.h)
  }

  ghost predicate Mirrors(c: Conn, events: seq<Event>)
    reads c, c.kernel, c.pr, c.pr.cached, c.wq, c.line.nodes, c.line.bufs
  {
    c.Valid() && Follows(c, events, false)
  }

  /** The item of the last event is on no list: only the tail pointer has moved away from the single node of
      the queue. */
  ghost predicate Stranded(c: Conn, events: seq<Event>)
    reads c, c.kernel, c.wq, c.line.nodes, c.line.bufs
  {
    && Follows(c, events, true) && c.wq.queued == c.line.nodes && Held(c.wq.wrq, c.line)
    && |c.line.nodes| == 1 && c.wq.wrqlast != null && Off(c.wq.wrqlast, c.line.nodes)
  }

  lemma FollowsOn(c: Conn, events: seq<Event>, e: Event, was: seq<Trial>)
    requires PossibleRun(true, events, c.h) && WitnessedRun(true, events, was, c.h) && was <= c.kernel.trials
    requires Possible(RunSession(true, events, c.h), e, c.h)
    requires Witnessed(RunSession(true, events, c.h), e, c.kernel.trials[|was|..], c.h)
    requires c.marks == MarksOf(events) + Marks(e)
    requires var s := After(RunSession(true, events, c.h), e, c.h);
      s.(parked := false) == Here(c).(stranded := s.stranded)
    ensures Follows(c, events + [e], After(RunSession(true, events, c.h), e, c.h).stranded)
  {
    RunGoesOn(true, events, e, was, c.kernel.trials, c.h);
  }

  /** A synchronous attempt that is taken whole. */
  lemma TakenIs(s: Session, it: Item, h: Handlers)
    requires s.pending == [] && !s.stranded && s.callback
    ensures var e := Submitted(it, Tried(Reply(|it.data|, NoError)));
      && Possible(s, e, h) && Marks(e) == []
      && After(s, e, h) == s.(accepted := s.accepted + Wire(it))
  {
    assert Front(it, |it.data|) == it;
    SyncSpec.SyncQueuesTaken(it, Reply(|it.data|, NoError));
  }

  lemma TakenFollows(c: Conn, events: seq<Event>, it: Item, was: seq<Trial>, s: Session)
    requires PossibleRun(true, events, c.h) && s == RunSession(true, events, c.h)
    requires WitnessedRun(true, events, was, c.h)
    requires s.pending == [] && !s.stranded && s.callback && c.marks == MarksOf(events)
    requires was <= c.kernel.trials && Took(it, c.kernel.trials[|was|..], |it.data|)
    requires s.(parked := false, accepted := s.accepted + Wire(it)) == Here(c)
    ensures Follows(c, events + [Submitted(it, Tried(Reply(|it.data|, NoError)))], false)
  {
    TakenIs(s, it, c.h);
    assert c.marks + [] == c.marks;
    FollowsOn(c, events, Submitted(it, Tried(Reply(|it.data|, NoError))), was);
  }

  lemma QueuedFollows(c: Conn, events: seq<Event>, it: Item, usable: bool, s: Session)
    requires PossibleRun(true, events, c.h) && s == RunSession(true, events, c.h) && !s.stranded && s.callback
    requires WitnessedRun(true, events, c.kernel.trials, c.h) && (usable || |s.pending| == 1)
    requires c.marks == MarksOf(events) + [Queueing(usable)] && !s.needless
    requires if usable then s.(parked := false, pending := s.pending + [it], wr := true) == Here(c)
             else s.(parked := false, lost := s.lost + [it], wr := true) == Here(c)
    ensures Follows(c, events + [Submitted(it, NotTried(usable))], !usable)
  {
    assert c.kernel.trials[|c.kernel.trials|..] == [];
    FollowsOn(c, events, Submitted(it, NotTried(usable)), c.kernel.trials);
  }

  /** Data in a buffer of its own is written synchronously. */
  method TakeData(c: Conn, op: WriteOp, peer: int, data: seq<Byte>) returns (ghost it: Item)
    requires c.Valid() && c.wq.wrq == null
    modifies c, c.kernel, c.pr, c.wq, (set q: Wrq {:trigger q.next} | true)
    ensures SameWire(it, op, peer, data) && c.Valid() && c.line == old(c.line) && c.missed == old(c.missed)
    ensures c.marks == old(c.marks) && c.flags == old(c.flags) && c.calls == old(c.calls)
    ensures c.kernel.accepted == old(c.kernel.accepted) + Wire(it) && old(c.kernel.trials) <= c.kernel.trials
    ensures Took(it, c.kernel.trials[|old(c.kernel.trials)|..], |it.data|)
    ensures old(TailExact(c.line.nodes, c.wq.wrqlast)) ==> TailExact(c.line.nodes, c.wq.wrqlast)
  {
    var buf := new Buf(data, |data|);
    assert buf.mem[..buf.len] == data;
    it := c.Write(buf, op, peer, true);
  }

  /** A write that is tried synchronously. */
  method SubmitDirect(c: Conn, a: Action, ghost events: seq<Event>) returns (ghost e: Event)
    requires Mirrors(c, events) && a.Submit? && a.taken && c.wq.wrq == null
    modifies c, c.kernel, c.pr, c.wq, (set q: Wrq {:trigger q.next} | true)
    ensures Mirrors(c, events + [e]) && e.Submitted? && SameWire(e.it, a.op, a.peer, a.data)
    ensures e.attempt == Tried(Reply(|a.data|, NoError))
    ensures old(TailExact(c.line.nodes, c.wq.wrqlast)) ==> TailExact(c.line.nodes, c.wq.wrqlast)
  {
    ghost var s := RunSession(true, events, c.h);
    ghost var it := TakeData(c, a.op, a.peer, a.data);
    e := Submitted(it, Tried(Reply(|it.data|, NoError)));
    TakenFollows(c, events, it, old(c.kernel.trials), s);
  }

  /** Data in a buffer of its own is queued. */
  method QueueData(c: Conn, op: WriteOp, peer: int, data: seq<Byte>, taken: bool) returns (ghost it: Item)
    requires c.Valid() && !(taken && c.wq.wrq == null)
    modifies c, c.kernel, c.pr, c.wq, (set q: Wrq {:trigger q.next} | true)
    ensures SameWire(it, op, peer, data) && c.Joined(old(c.TailUsable()), old(c.line), it, old(c.missed))
    ensures c.marks == old(c.marks) + [Queueing(old(c.TailUsable()))] && c.flags == old(c.flags) + {ENABLED, WR}
    ensures c.kernel.trials == old(c.kernel.trials) && c.kernel.accepted == old(c.kernel.accepted)
    ensures c.calls == old(c.calls)
    ensures old(TailExact(c.line.nodes, c.wq.wrqlast)) ==> TailExact(c.line.nodes, c.wq.wrqlast)
  {
    assert c.wq.wrq == null <==> c.line.items == [];
    var buf := new Buf(data, |data|);
    assert buf.mem[..buf.len] == data;
    it := c.Write(buf, op, peer, taken);
  }

  /** A write that is queued: the item is lost exactly if the tail pointer was unusable. */
  method SubmitQueued(c: Conn, a: Action, ghost events: seq<Event>) returns (ghost e: Event)
    requires Mirrors(c, events) && a.Submit? && !(a.taken && c.wq.wrq == null)
    modifies c, c.kernel, c.pr, c.wq, (set q: Wrq {:trigger q.next} | true)
    ensures e.Submitted? && SameWire(e.it, a.op, a.peer, a.data) && e.attempt == NotTried(old(c.TailUsable()))
    ensures if e.attempt.usable then Mirrors(c, events + [e]) else Stranded(c, events + [e])
    ensures old(TailExact(c.line.nodes, c.wq.wrqlast)) ==> TailExact(c.line.nodes, c.wq.wrqlast)
  {
    c.TailUsableIff();
    ghost var s, usable := RunSession(true, events, c.h), c.TailUsable();
    ghost var it := QueueData(c, a.op, a.peer, a.data, a.taken);
    e := Submitted(it, NotTried(usable));
    QueuedFollows(c, events, it, usable, s);
  }

  /** One write call. */
  method Submitting(c: Conn, a: Action, ghost events: seq<Event>) returns (lost: bool, ghost e: Event)
    requires Mirrors(c, events) && a.Submit?
    modifies c, c.kernel, c.pr, c.wq, (set q: Wrq {:trigger q.next} | true)
    ensures lost == !old(c.TailUsable()) && Outcome(a, e, RunSession(true, events, c.h))
    ensures if lost then Stranded(c, events + [e]) else Mirrors(c, events + [e])
    ensures old(TailExact(c.line.nodes, c.wq.wrqlast)) ==> TailExact(c.line.nodes, c.wq.wrqlast)
  {
    lost := !c.TailUsable();
    assert c.wq.wrq == null <==> c.line.items == [];
    if a.taken && c.wq.wrq == null {
      e := SubmitDirect(c, a, events);
    } else {
      e := SubmitQueued(c, a, events);
    }
  }

  lemma DrainFollows(c: Conn, events: seq<Event>, turns: seq<Turn>, st: Begin, s: Session)
    requires PossibleRun(true, events, c.h) && s == RunSession(true, events, c.h) && !s.stranded && s.callback
    requires !s.awaiting && !s.needless && WitnessedRun(true, events, st.from.trials, c.h)
    requires c.marks == MarksOf(events) + [Detaching(st.tail)] && c.Over(turns, st)
    requires s.pending == st.items && s.accepted == st.from.accepted && s.calls == st.from.calls && s.lost == st.missed
    requires s.wr <==> WR in st.from.flags
    ensures Mirrors(c, events + [Drained(turns, st.tail)])
  {
    FollowsOn(c, events, Drained(turns, st.tail), st.from.trials);
  }

  method Repair(c: Conn, ghost events: seq<Event>)
    requires Mirrors(c, events)
    modifies c.wq`wrqlast
    ensures Mirrors(c, events) && TailExact(c.line.nodes, c.wq.wrqlast)
  {
    c.RestoreTail();
    assert Follows(c, events, false) == old(Follows(c, events, false));
  }

  /** What the user has been told by a drain: of each item answered, what Told says. */
  lemma DrainReported(c: Conn, turns: seq<Turn>, st: Begin)
    requires c.Over(turns, st)
    ensures var given := RunFlow(st.items, turns, st.tail, c.h).given;
      && ReportSpec.AllLegal(given, Replies(turns))
      && c.calls == st.from.calls + ReportSpec.AllTold(given, Replies(turns), c.h)
  {
    ReportSpec.FlowReports(st.items, turns, st.tail, c.h);
  }

  /** One writable event, with the tail repair after it if asked for. */
  method Writing(c: Conn, allowance: nat, repair: bool, ghost events: seq<Event>) returns (ghost e: Event)
    requires Mirrors(c, events)
    modifies c, c.kernel, c.pr, c.pr.given, c.wq, (set q: Wrq {:trigger q.next} | true)
    modifies (set b: Buf {:trigger b.len} | true)
    ensures Mirrors(c, events + [e]) && Outcome(Writable(allowance), e, RunSession(true, events, c.h))
    ensures e.tail == old(c.TailNow())
    ensures repair ==> TailExact(c.line.nodes, c.wq.wrqlast)
  {
    ghost var s, st := RunSession(true, events, c.h), c.Beginning(allowance);
    ghost var turns := c.Drain(allowance);
    e := Drained(turns, st.tail);
    DrainFollows(c, events, turns, st, s);
    if repair {
      Repair(c, events + [e]);
    }
  }

  /** One action of a run. */
  method Act(c: Conn, a: Action, repair: bool, ghost events: seq<Event>) returns (lost: bool, ghost e: Event)
    requires Mirrors(c, events) && (repair ==> TailExact(c.line.nodes, c.wq.wrqlast))
    modifies c, c.kernel, c.pr, c.pr.given, c.wq, (set q: Wrq {:trigger q.next} | true)
    modifies (set b: Buf {:trigger b.len} | true)
    ensures Outcome(a, e, RunSession(true, events, c.h))
    ensures lost == (a.Submit? && !old(c.TailUsable())) && (repair ==> !lost)
    ensures a.Writable? ==> e.tail == old(c.TailNow())
    ensures if lost then Stranded(c, events + [e])
            else Mirrors(c, events + [e]) && (repair ==> TailExact(c.line.nodes, c.wq.wrqlast))
  {
    c.TailUsableIff();
    lost := false;
    match a
    case Submit(_, _, _, _) =>
      lost, e := Submitting(c, a, events);
    case Writable(allowance) =>
      e := Writing(c, allowance, repair, events);
  }

  /** The connection has carried out these actions, with these events; the last write may be lost. */
  ghost predicate Ran(c: Conn, actions: seq<Action>, events: seq<Event>, lost: bool)
    reads c, c.kernel, c.pr, c.pr.cached, c.wq, c.line.nodes, c.line.bufs
  {
    Outcomes(actions, events, c.h) && if lost then Stranded(c, events) else Mirrors(c, events)
  }

  method ActNext(c: Conn, actions: seq<Action>, i: nat, repair: bool, ghost events: seq<Event>)
    returns (lost: bool, ghost more: seq<Event>)
    requires Ran(c, actions, events, false) && i == |events| < |actions|
    requires repair ==> TailExact(c.line.nodes, c.wq.wrqlast)
    modifies c, c.kernel, c.pr, c.pr.given, c.wq, (set q: Wrq {:trigger q.next} | true)
    modifies (set b: Buf {:trigger b.len} | true)
    ensures Ran(c, actions, more, lost) && |more| == |events| + 1
    ensures repair ==> !lost && TailExact(c.line.nodes, c.wq.wrqlast)
    ensures repair && Detaching(Wrong) !in MarksOf(events) ==> Detaching(Wrong) !in MarksOf(more)
  {
    ghost var e;
    lost, e := Act(c, actions[i], repair, events);
    OutcomesGrow(actions, events, e, c.h);
    more := events + [e];
    assert more[..|events|] == events;
  }

  /** Any interleaving of writes and writable events, on a new connection. As long as every write from
      outside a drain finds the tail pointer usable, the heap follows the session. The run ends with the
      first write that does not, whose item is on no list. With the tail repaired after each drain there is no
      such write. */
  method Run(c: Conn, actions: seq<Action>, repair: bool) returns (lost: bool, ghost events: seq<Event>)
    requires Mirrors(c, []) && TailExact(c.line.nodes, c.wq.wrqlast)
    modifies c, c.kernel, c.pr, c.pr.given, c.wq, (set q: Wrq {:trigger q.next} | true)
    modifies (set b: Buf {:trigger b.len} | true)
    ensures Ran(c, actions, events, lost) && (!lost ==> |events| == |actions|)
    ensures repair ==> !lost && Detaching(Wrong) !in c.marks
  {
    lost, events := false, [];
    var i := 0;
    while i < |actions|
      invariant 0 <= i == |events| <= |actions|
      invariant Ran(c, actions, events, false) && !lost
      invariant repair ==> TailExact(c.line.nodes, c.wq.wrqlast) && Detaching(Wrong) !in MarksOf(events)
    {
      lost, events := ActNext(c, actions, i, repair, events);
      if lost {
        return;
      }
      i := i + 1;
    }
  }

  /** The looks at wrqlast in a run: each write that was queued found it usable, but for the last one if that
      one was lost. */
  predicate UsableUntil(marks: seq<Mark>, lost: bool) {
    && (lost ==> marks != [] && Last(marks) == Queueing(false))
    && (forall i :: 0 <= i < |marks| && marks[i] == Queueing(false) ==> lost && i == |marks| - 1)
  }

  /** A session is stranded by the last event or not at all. */
  lemma {:induction false} StrandedLast(events: seq<Event>, h: Handlers)
    requires PossibleRun(true, events, h)
    ensures UsableUntil(MarksOf(events), RunSession(true, events, h).stranded)
    decreases |events|
  {
    if events != [] {
      StrandedLast(events[..|events| - 1], h);
    }
  }

  /** What a run means. wrqlast could be used for every write queued from outside a drain, but for the last one
      if that is lost. What the kernel took followed by what is on the queue is what was submitted, exactly if the
      answers were clean, no write was lost and the callbacks orderly. Write events are on exactly while there is
      something to write that no error has parked. */
  method RunInOrder(c: Conn, actions: seq<Action>, repair: bool) returns (lost: bool, ghost events: seq<Event>)
    requires Mirrors(c, []) && TailExact(c.line.nodes, c.wq.wrqlast)
    modifies c, c.kernel, c.pr, c.pr.given, c.wq, (set q: Wrq {:trigger q.next} | true)
    modifies (set b: Buf {:trigger b.len} | true)
    ensures Outcomes(actions, events, c.h) && PossibleRun(true, events, c.h)
    ensures c.marks == MarksOf(events) && UsableUntil(c.marks, lost)
    ensures WitnessedRun(true, events, c.kernel.trials, c.h)
    ensures (repair ==> !lost && Detaching(Wrong) !in c.marks) && (!lost ==> |events| == |actions|)
    ensures c.missed == RunSession(true, events, c.h).lost
    ensures CleanRun(events, c.h) && OrderlyRun(true, events, c.h) ==>
              c.kernel.accepted + Stream(c.line.items) == SubmittedStream(events)
    ensures OrderSpec.SolidRun(events) && Distinct(SubmittedStream(events)) ==>
              (c.kernel.accepted + Stream(c.line.items) == SubmittedStream(events) <==>
               CleanRun(events, c.h) && OrderlyRun(true, events, c.h))
    ensures WR in c.flags <==> c.line.items != [] && !RunSession(true, events, c.h).parked
    ensures WR in c.flags <==> c.line.items != [] && !InterestSpec.Stopped(events, c.h)
  {
    lost, events := Run(c, actions, repair);
    StrandedLast(events, c.h);
    InOrder(events, c.h);
    InterestMirrorsQueue(true, events, c.h);
    InterestSpec.FlagsAreTold(true, events, c.h);
  }

  lemma InOrder(events: seq<Event>, h: Handlers)
    requires PossibleRun(true, events, h)
    ensures var s := RunSession(true, events, h);
      && (CleanRun(events, h) && OrderlyRun(true, events, h) ==> Streamed(s) == SubmittedStream(events))
      && (OrderSpec.SolidRun(events) && Distinct(SubmittedStream(events)) ==>
            (Streamed(s) == SubmittedStream(events) <==> CleanRun(events, h) && OrderlyRun(true, events, h)))
  {
    if CleanRun(events, h) && OrderlyRun(true, events, h) {
      StreamOrder(true, events, h);
    }
    if OrderSpec.SolidRun(events) && Distinct(SubmittedStream(events)) {
      OrderSpec.StreamOrderIff(true, events, h);
    }
  }

  // ---- A run that gets there ----

  /** Two datagrams are queued. */
  method QueueTwo(c: Conn, x: Item, y: Item)
    requires c.Valid() && c.line.items == [] && c.kernel.trials == [] && c.missed == [] && c.marks == []
    requires TailExact(c.line.nodes, c.wq.wrqlast) && x.op == y.op == OpSendTo
    modifies c, c.kernel, c.pr, c.wq, (set q: Wrq {:trigger q.next} | true)
    ensures c.Valid() && c.line.items == [x, y] && c.TailNow() == Right && c.kernel.trials == [] && c.missed == []
    ensures c.marks == [Queueing(true), Queueing(true)]
  {
    c.TailUsableIff();
    ghost var it := QueueData(c, OpSendTo, x.peer, x.data, false);
    c.TailUsableIff();
    ghost var jt := QueueData(c, OpSendTo, y.peer, y.data, false);
  }

  /** Two of them are drained. */
  method DrainPart(c: Conn, ghost x: Item, ghost y: Item, ghost n: nat)
    requires c.Valid() && c.line.items == [x, y] && c.TailNow() == Right && c.kernel.trials == []
    requires x.data != [] && 0 < n < |y.data|
    modifies c, c.kernel, c.pr, c.pr.given, c.wq, (set q: Wrq {:trigger q.next} | true)
    modifies (set b: Buf {:trigger b.len} | true)
    ensures c.Valid() && c.marks == old(c.marks) + [Detaching(Right)]
    ensures c.kernel.trials == PartTaken(x, y, n) ==>
              c.line.items == [Back(y, n)] && !c.TailUsable() && c.missed == old(c.missed)
  {
    ghost var st := c.Beginning(0);
    ghost var turns := c.Drain(0);
    if c.kernel.trials == PartTaken(x, y, n) {
      assert c.kernel.trials[0..] == c.kernel.trials;
      PartTakenEnds(x, y, n, turns, c.h);
    }
    c.TailUsableIff();
  }

  /** The code as it is: two datagrams are queued and drained, and a third is queued. If the kernel takes the first
      whole and the second in part, the tail pointer is left unusable, and the third is lost. */
  method TailLeftBehind(c: Conn, x: Item, y: Item, z: Item, ghost n: nat) returns (lost: bool)
    requires Mirrors(c, []) && TailExact(c.line.nodes, c.wq.wrqlast)
    requires x.op == y.op == z.op == OpSendTo && x.data != [] && 0 < n < |y.data|
    modifies c, c.kernel, c.pr, c.pr.given, c.wq, (set q: Wrq {:trigger q.next} | true)
    modifies (set b: Buf {:trigger b.len} | true)
    ensures c.marks == [Queueing(true), Queueing(true), Detaching(Right), Queueing(!lost)]
    ensures c.kernel.trials == PartTaken(x, y, n) ==>
              lost && c.line.items == [Back(y, n)] && c.missed == [z]
  {
    QueueTwo(c, x, y);
    DrainPart(c, x, y, n);
    lost := !c.TailUsable();
    ghost var it := QueueData(c, OpSendTo, z.peer, z.data, false);
  }
}
