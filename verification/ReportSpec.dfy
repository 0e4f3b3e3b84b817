/** What each answer of the kernel leads to, errno by errno: what the user is told, and what becomes of the
    item, on values. */
module ReportSpec {
  import opened Seqs
  import opened WriteSpec
  import opened CallbackSpec
  import opened SessionSpec

  /** The call of closedcb after a descriptor was closed: with what was not written, unless nothing was. */
  function Closing(it: Item, written: nat): Callback
    requires written <= |it.data|
  {
    Closed(if written > 0 then [Handed(it.data[written..], 0)] else [])
  }

  /** The call of errorcb: with what was not written, or with the whole item if nothing was. */
  function Failure(it: Item, written: nat, err: Errno): Callback
    requires written <= |it.data|
  {
    Failed(err, it.op, if written > 0 then Handed(it.data[written..], 0) else Handed(it.data, |it.data|))
  }

  /** All that the user is told of an item answered like that: didwritecb of what was written, and one call more
      for a descriptor that was closed, or for any error that is not a full socket, if there is a callback. */
  function Told(it: Item, r: Reply, h: Handlers): seq<Callback>
    requires Legal(it, r)
  {
    (if r.written > 0 || it.data == [] then [DidWrite(Front(it, r.written))] else []) +
    match r.err
    case NoError => []
    case Again => []
    case WouldBlock => []
    case ConnReset => if h.closedcb then [Closing(it, r.written)] else []
    case BrokenPipe => if h.closedcb then [Closing(it, r.written)] else []
    case OtherError(_) => if h.errorcb then [Failure(it, r.written, r.err)] else []
  }

  /** What becomes of the head `it` of a drain, with `rest` behind it. An error that errorcb is told of ends the
      drain and shuts off write events; one that would block ends it without; any other answer goes on to the next
      item. */
  predicate LeadsTo(it: Item, r: Reply, h: Handlers, rest: seq<Item>, e: Drain)
    requires Legal(it, r)
  {
    match r.err
    case Again => e.todo == [Back(it, r.written)] + rest && e.halted && !e.stop
    case WouldBlock => e.todo == [Back(it, r.written)] + rest && e.halted && !e.stop
    case OtherError(_) =>
      if h.errorcb then
        e.todo == [if r.written > 0 then Front(it, r.written) else it] + rest && e.halted && e.stop
      else
        e.todo == rest && !e.halted && !e.stop
    case _ => e.todo == rest && !e.halted && !e.stop
  }

  lemma ToldIs(it: Item, r: Reply, h: Handlers)
    requires Legal(it, r)
    ensures Notice(it, r) + Complaint(it, r, h) == Told(it, r, h)
    ensures Fails(r, h) <==> r.err.OtherError? && h.errorcb
    ensures Keeps(it, r) <==> r.err.Again? || r.err.WouldBlock?
  {
  }

  /** One answer in a drain. */
  lemma StepReports(d: Drain, r: Reply, h: Handlers)
    requires !d.halted && d.todo != [] && Legal(d.todo[0], r)
    ensures var e := Step(d, r, h);
      && e.calls == d.calls + Told(d.todo[0], r, h) && LeadsTo(d.todo[0], r, h, d.todo[1..], e)
      && e.accepted == d.accepted + Wire(Front(d.todo[0], r.written))
  {
    var it := d.todo[0];
    ToldIs(it, r, h);
    assert Back(it, 0) == it;
    assert d.todo == [it] + d.todo[1..];
  }

  /** A drain that goes on has dropped one item for each answer. */
  lemma {:induction false} TodoIs(items: seq<Item>, replies: seq<Reply>, h: Handlers)
    requires LegalRun(items, replies, h) && !RunDrain(items, replies, h).halted
    ensures |replies| <= |items| && RunDrain(items, replies, h).todo == items[|replies|..]
    decreases |replies|
  {
    if replies != [] {
      var d, r := DrainUnfolds(items, replies, h);
      TodoIs(items, replies[..|replies| - 1], h);
      StepReports(d, r, h);
    }
  }

  lemma {:induction false} LegalPrefix(items: seq<Item>, replies: seq<Reply>, h: Handlers, i: nat)
    requires LegalRun(items, replies, h) && i <= |replies|
    ensures LegalRun(items, replies[..i], h)
    decreases |replies|
  {
    if i == |replies| {
      assert replies[..i] == replies;
    } else {
      LegalPrefix(items, replies[..|replies| - 1], h, i);
      assert replies[..|replies| - 1][..i] == replies[..i];
    }
  }

  /** The i-th answer is about the i-th item. */
  lemma AnsweredInOrder(items: seq<Item>, replies: seq<Reply>, h: Handlers, i: nat)
    requires LegalRun(items, replies, h) && i < |replies|
    ensures i < |items| && LegalRun(items, replies[..i], h) && LegalRun(items, replies[..i + 1], h)
    ensures var d := RunDrain(items, replies[..i], h);
      && d.todo == items[i..] && !d.halted && Legal(items[i], replies[i])
      && RunDrain(items, replies[..i + 1], h) == Step(d, replies[i], h)
  {
    LegalPrefix(items, replies, h, i + 1);
    assert replies[..i + 1][..i] == replies[..i];
    var d, r := DrainUnfolds(items, replies[..i + 1], h);
    TodoIs(items, replies[..i], h);
  }

  /** Whatever the kernel answers, each answer adds to the calls what Told says of its item, and leaves the
      drain as LeadsTo says. */
  lemma RunReports(items: seq<Item>, replies: seq<Reply>, h: Handlers, i: nat)
    requires LegalRun(items, replies, h) && i < |replies|
    ensures i < |items| && Legal(items[i], replies[i])
    ensures LegalRun(items, replies[..i], h) && LegalRun(items, replies[..i + 1], h)
    ensures var d, e := RunDrain(items, replies[..i], h), RunDrain(items, replies[..i + 1], h);
      e.calls == d.calls + Told(items[i], replies[i], h) && LeadsTo(items[i], replies[i], h, items[i + 1..], e)
  {
    AnsweredInOrder(items, replies, h, i);
    StepReports(RunDrain(items, replies[..i], h), replies[i], h);
    assert items[i..][1..] == items[i + 1..];
  }

  // ---- A whole drain ----

  predicate AllLegal(items: seq<Item>, replies: seq<Reply>) {
    |replies| <= |items| && forall i :: 0 <= i < |replies| ==> Legal(items[i], replies[i])
  }

  /** What the user is told of the items, each with its answer. */
  function AllTold(items: seq<Item>, replies: seq<Reply>, h: Handlers): seq<Callback>
    requires AllLegal(items, replies)
  {
    if replies == [] then []
    else
      var n := |replies| - 1;
      assert Legal(items[n], replies[n]);
      AllTold(items, replies[..n], h) + Told(items[n], replies[n], h)
  }

  /** The last answer of a drain, by itself. */
  lemma LastAnswer(items: seq<Item>, replies: seq<Reply>, h: Handlers)
    requires LegalRun(items, replies, h) && replies != []
    ensures var n, before := |replies| - 1, replies[..|replies| - 1];
      && n < |items| && Legal(items[n], replies[n]) && LegalRun(items, before, h)
      && var d, e := RunDrain(items, before, h), RunDrain(items, replies, h);
         && !d.halted && e.calls == d.calls + Told(items[n], replies[n], h)
         && LeadsTo(items[n], replies[n], h, items[n + 1..], e)
  {
    RunReports(items, replies, h, |replies| - 1);
    assert replies[..|replies| - 1 + 1] == replies;
  }

  lemma OneMoreTold(items: seq<Item>, replies: seq<Reply>, h: Handlers)
    requires replies != [] && AllLegal(items, replies[..|replies| - 1])
    requires |replies| <= |items| && Legal(items[|replies| - 1], Last(replies))
    ensures AllLegal(items, replies)
    ensures AllTold(items, replies, h)
         == AllTold(items, replies[..|replies| - 1], h) + Told(items[|replies| - 1], Last(replies), h)
  {
    var before := replies[..|replies| - 1];
    assert forall i :: 0 <= i < |before| ==> before[i] == replies[i];
  }

  /** Over a whole drain these are all the calls, in this order. */
  lemma {:induction false} DrainReports(items: seq<Item>, replies: seq<Reply>, h: Handlers)
    requires LegalRun(items, replies, h)
    ensures AllLegal(items, replies) && RunDrain(items, replies, h).calls == AllTold(items, replies, h)
    decreases |replies|
  {
    if replies != [] {
      DrainReports(items, replies[..|replies| - 1], h);
      LastAnswer(items, replies, h);
      OneMoreTold(items, replies, h);
    }
  }

  /** Only the last answer of a drain can be one that ends it. */
  lemma EndsAtLast(items: seq<Item>, replies: seq<Reply>, h: Handlers, i: nat)
    requires LegalRun(items, replies, h) && i < |replies| - 1
    ensures !replies[i].err.Again? && !replies[i].err.WouldBlock? && !(replies[i].err.OtherError? && h.errorcb)
  {
    RunReports(items, replies, h, i);
    AnsweredInOrder(items, replies, h, i + 1);
  }

  /** A drain whose callbacks write more: the items answered are those there were and those that strayed onto
      the list. */
  lemma FlowReports(items: seq<Item>, turns: seq<Turn>, tail: Tail, h: Handlers)
    requires LegalFlow(items, turns, tail, h)
    ensures var f := RunFlow(items, turns, tail, h);
      AllLegal(f.given, Replies(turns)) && f.d.calls == AllTold(f.given, Replies(turns), h)
  {
    FlowIsDrain(items, turns, tail, h);
    DrainReports(RunFlow(items, turns, tail, h).given, Replies(turns), h);
  }

  /** One turn of it. */
  lemma TurnReports(f: Flow, t: Turn, tail: Tail, h: Handlers)
    requires LegalTurn(f, t, tail, h)
    ensures var e := StepFlow(f, t, tail, h);
      && e.d.calls == f.d.calls + Told(f.d.todo[0], t.r, h)
      && (e.d.halted <==> t.r.err.Again? || t.r.err.WouldBlock? || (t.r.err.OtherError? && h.errorcb))
      && (e.d.stop <==> t.r.err.OtherError? && h.errorcb)
  {
    StepParts(f, t, tail, h);
    ToldIs(f.d.todo[0], t.r, h);
  }

  /** Over a run, each event adds to the calls what the answers in it say, and only a drain has any. */
  lemma EventReports(callback: bool, events: seq<Event>, h: Handlers)
    requires PossibleRun(callback, events, h) && events != []
    ensures var s, e := RunSession(callback, events[..|events| - 1], h), Last(events);
      if e.Drained? then
        var given := RunFlow(s.pending, e.turns, e.tail, h).given;
        && AllLegal(given, Replies(e.turns))
        && RunSession(callback, events, h).calls == s.calls + AllTold(given, Replies(e.turns), h)
      else RunSession(callback, events, h).calls == s.calls
  {
    var s, e := RunSession(callback, events[..|events| - 1], h), Last(events);
    if e.Drained? {
      FlowReports(s.pending, e.turns, e.tail, h);
    }
  }

  // ---- What the user can get back ----

  /** The bytes in the buffers that callbacks are handed, whatever the lengths say. */
  function Given(calls: seq<Callback>): seq<Byte> {
    if calls == [] then []
    else
      (match calls[0]
       case DidWrite(done) => done.data
       case Closed(unwritten) => if unwritten == [] then [] else unwritten[0].mem
       case Failed(_, _, buf) => buf.mem) + Given(calls[1..])
  }

  /** With both callbacks installed the user is handed all the bytes of an item that is not kept, written or
      not, except in one case: the descriptor was closed before any of them was taken. */
  lemma GivenBackIff(it: Item, r: Reply)
    requires Legal(it, r) && !r.err.Again? && !r.err.WouldBlock?
    ensures Given(Told(it, r, Handlers(true, true))) == it.data <==>
            !((r.err == ConnReset || r.err == BrokenPipe) && r.written == 0)
  {
    var calls := Told(it, r, Handlers(true, true));
    assert it.data[..r.written] + it.data[r.written..] == it.data;
    if calls != [] {
      assert |calls| == 1 ==> calls[1..] == [];
      assert |calls| == 2 ==> calls[1..] == [calls[1]] && Given([calls[1]][1..]) == [];
    }
  }

  /** One byte of two written, then a closed descriptor: closedcb gets the other one. */
  lemma HangupHandsRest() returns (items: seq<Item>, replies: seq<Reply>, h: Handlers)
    ensures items == [Item(OpWrite, 0, [7, 8])] && replies == [Reply(1, ConnReset)] && h.closedcb
    ensures LegalRun(items, replies, h)
    ensures RunDrain(items, replies, h).calls == [DidWrite(Item(OpWrite, 0, [7])), Closed([Handed([8], 0)])]
  {
    var it, r := Item(OpWrite, 0, [7, 8]), Reply(1, ConnReset);
    items, replies, h := [it], [], Handlers(true, true);
    assert RunDrain(items, replies, h) == Drain([it], [], [], false, false);
    DrainExtends(items, replies, r, h);
    replies := replies + [r];
    assert [7, 8][..1] == [7] && [7, 8][1..] == [8];
  }
}
