/** A drain whose did-write callbacks write more, on values. gwpr_src_activity detaches the queue, so a
    write made in a callback finds it empty and may go straight to the kernel; and it leaves wrqlast as it
    is, so where a write that is queued in a callback ends up depends on what wrqlast was at that moment. */
module CallbackSpec {
  import opened Seqs
  import opened WriteSpec

  /** wrqlast when the queue is detached: null, the last node of the queue, or some other node. */
  datatype Tail = Unset | Right | Wrong

  /** A look at wrqlast: when a write is queued from outside a drain, whether it can be used, and when a
      drain begins. */
  datatype Mark = Queueing(usable: bool) | Detaching(tail: Tail)

  /** One turn of the drain loop: the kernel's answer, and the writes of the did-write callback: those the
      kernel took whole at once, and then those that were queued. */
  datatype Turn = Turn(r: Reply, direct: seq<Item>, during: seq<Item>)

  /** A drain in progress: the drain of the items `given` so far; all the bytes the kernel took, and the
      items it took straight from callbacks; the new queue; and the items linked to a node whose turn was
      over. */
  datatype Flow = Flow(d: Drain, sent: seq<Octet>, direct: seq<Item>, given: seq<Item>, added: seq<Item>,
                       lost: seq<Item>)

  /** The new queue after a callback has queued `x`. The first item starts it. Another one joins it only
      if wrqlast was null. */
  function Added(added: seq<Item>, x: seq<Item>, tail: Tail): seq<Item> {
    if tail == Unset then added + x else if added == [] && x != [] then [x[0]] else added
  }

  /** The others, which are linked behind the last node of the list being drained. */
  function Strays(added: seq<Item>, x: seq<Item>, tail: Tail): seq<Item> {
    if tail == Unset || x == [] then [] else if added == [] then x[1..] else x
  }

  lemma OneMoreQueued(added: seq<Item>, x: seq<Item>, it: Item, tail: Tail)
    ensures Added(added, x + [it], tail) == Added(Added(added, x, tail), [it], tail)
    ensures Strays(added, x + [it], tail) == Strays(added, x, tail) + Strays(Added(added, x, tail), [it], tail)
  {
  }

  /** The loop comes to what is behind the last node only if there is another node before it; a list put
      back is put back with it. */
  predicate Catches(d: Drain, r: Reply, h: Handlers)
    requires d.todo != []
  {
    |d.todo| >= 2 || Keeps(d.todo[0], r) || Fails(r, h)
  }

  /** Callbacks are made only for items written. They write directly only while the new queue is empty;
      with a wrong wrqlast they queue one item at most. */
  predicate LegalTurn(f: Flow, t: Turn, tail: Tail, h: Handlers) {
    && !f.d.halted && f.d.todo != [] && Legal(f.d.todo[0], t.r)
    && (t.direct + t.during != [] ==> Notice(f.d.todo[0], t.r) != [])
    && (t.direct != [] ==> f.added == [])
    && (tail == Wrong ==> |f.added| + |t.during| <= 1)
  }

  function StepFlow(f: Flow, t: Turn, tail: Tail, h: Handlers): Flow
    requires LegalTurn(f, t, tail, h)
  {
    var s := Strays(f.added, t.during, tail);
    var caught := if Catches(f.d, t.r, h) then s else [];
    Flow(Step(f.d.(todo := f.d.todo + caught), t.r, h),
         f.sent + (Wire(Front(f.d.todo[0], t.r.written)) + Stream(t.direct)), f.direct + t.direct, f.given + caught,
         Added(f.added, t.during, tail), f.lost + (if Catches(f.d, t.r, h) then [] else s))
  }

  /** A turn by its parts. */
  lemma StepParts(f: Flow, t: Turn, tail: Tail, h: Handlers)
    requires LegalTurn(f, t, tail, h)
    ensures var e, it, s := StepFlow(f, t, tail, h), f.d.todo[0], Strays(f.added, t.during, tail);
      && e.added == Added(f.added, t.during, tail) && e.direct == f.direct + t.direct
      && e.sent == f.sent + (Wire(Front(it, t.r.written)) + Stream(t.direct))
      && e.d.accepted == f.d.accepted + Wire(Front(it, t.r.written))
      && e.d.calls == f.d.calls + (Notice(it, t.r) + Complaint(it, t.r, h))
      && e.d.stop == Fails(t.r, h) && e.d.halted == (Keeps(it, t.r) || e.d.stop)
      && (if e.d.halted then e.d.todo == Kept(f.d.todo + s, t.r) && e.lost == f.lost
          else if |f.d.todo| >= 2 then e.d.todo == f.d.todo[1..] + s && e.lost == f.lost
          else e.d.todo == [] && e.lost == f.lost + s)
  {
    var s := Strays(f.added, t.during, tail);
    assert (f.d.todo + s)[1..] == f.d.todo[1..] + s;
    assert f.lost + [] == f.lost;
  }

  ghost predicate LegalFlow(items: seq<Item>, turns: seq<Turn>, tail: Tail, h: Handlers)
    decreases |turns|, 0
  {
    turns == [] ||
    (&& LegalFlow(items, turns[..|turns| - 1], tail, h)
     && LegalTurn(RunFlow(items, turns[..|turns| - 1], tail, h), Last(turns), tail, h))
  }

  ghost function RunFlow(items: seq<Item>, turns: seq<Turn>, tail: Tail, h: Handlers): Flow
    requires LegalFlow(items, turns, tail, h)
    decreases |turns|, 1
  {
    if turns == [] then Flow(Drain(items, [], [], false, false), [], [], items, [], [])
    else StepFlow(RunFlow(items, turns[..|turns| - 1], tail, h), Last(turns), tail, h)
  }

  /** The last answer of the drain was a partial write. */
  ghost predicate EndsCopied(items: seq<Item>, turns: seq<Turn>, tail: Tail, h: Handlers)
    requires LegalFlow(items, turns, tail, h)
  {
    turns != [] && Copied(RunFlow(items, turns[..|turns| - 1], tail, h).d.todo[0], Last(turns).r)
  }

  lemma FlowExtends(items: seq<Item>, turns: seq<Turn>, t: Turn, tail: Tail, h: Handlers)
    requires LegalFlow(items, turns, tail, h) && LegalTurn(RunFlow(items, turns, tail, h), t, tail, h)
    ensures LegalFlow(items, turns + [t], tail, h)
    ensures RunFlow(items, turns + [t], tail, h) == StepFlow(RunFlow(items, turns, tail, h), t, tail, h)
    ensures EndsCopied(items, turns + [t], tail, h) <==> Copied(RunFlow(items, turns, tail, h).d.todo[0], t.r)
  {
    assert (turns + [t])[..|turns|] == turns;
  }

  lemma FlowUnfolds(items: seq<Item>, turns: seq<Turn>, tail: Tail, h: Handlers)
    returns (before: seq<Turn>, f: Flow, t: Turn)
    requires turns != [] && LegalFlow(items, turns, tail, h)
    ensures before == turns[..|turns| - 1] && t == Last(turns) && turns == before + [t]
    ensures LegalFlow(items, before, tail, h) && f == RunFlow(items, before, tail, h)
    ensures LegalTurn(f, t, tail, h) && RunFlow(items, turns, tail, h) == StepFlow(f, t, tail, h)
  {
    before, t := turns[..|turns| - 1], Last(turns);
    f := RunFlow(items, before, tail, h);
  }

  function Replies(turns: seq<Turn>): (rs: seq<Reply>)
    ensures |rs| == |turns|
  {
    if turns == [] then [] else Replies(turns[..|turns| - 1]) + [Last(turns).r]
  }

  /** Everything the callbacks wrote, in the order of the calls. */
  function Asked(turns: seq<Turn>): seq<Item> {
    if turns == [] then [] else Asked(turns[..|turns| - 1]) + (Last(turns).direct + Last(turns).during)
  }

  /** Everything the callbacks queued, in the order of the calls. */
  function Queued(turns: seq<Turn>): seq<Item> {
    if turns == [] then [] else Queued(turns[..|turns| - 1]) + Last(turns).during
  }

  lemma QueuedGrows(turns: seq<Turn>, t: Turn)
    ensures Queued(turns + [t]) == Queued(turns) + t.during
  {
    assert (turns + [t])[..|turns|] == turns;
  }

  // ---- The answers of the kernel ----

  /** Write calls on the item that were answered, of which k bytes were taken in all. */
  predicate Took(it: Item, ts: seq<Trial>, k: nat) {
    if ts == [] then k == 0
    else
      var t := Last(ts);
      && t.err == NoError && 0 < t.n <= k <= |it.data|
      && t.offered == Back(it, k - t.n) && Took(it, ts[..|ts| - 1], k - t.n)
  }

  lemma TookMore(it: Item, ts: seq<Trial>, k: nat, n: nat)
    requires Took(it, ts, k) && 0 < n && k + n <= |it.data|
    ensures Took(it, ts + [Trial(Back(it, k), n, NoError)], k + n)
  {
    assert (ts + [Trial(Back(it, k), n, NoError)])[..|ts|] == ts;
  }

  /** The reply for an item is what the kernel answered to the write calls made for it: each offers all
      that is left, and the first error ends them. */
  predicate Attempts(it: Item, ts: seq<Trial>, r: Reply) {
    if r.err == NoError then r.written == |it.data| && Took(it, ts, r.written)
    else
      && ts != [] && r.written < |it.data|
      && Last(ts) == Trial(Back(it, r.written), 0, r.err) && Took(it, ts[..|ts| - 1], r.written)
  }

  /** Calls for items that are all taken whole, one item after the other. */
  predicate AllTook(items: seq<Item>, ts: seq<Trial>)
    decreases |items|
  {
    if items == [] then ts == []
    else
      exists k :: 0 <= k <= |ts| && AllTook(items[..|items| - 1], ts[..k])
                  && Took(Last(items), ts[k..], |Last(items).data|)
  }

  lemma AllTookMore(items: seq<Item>, ts: seq<Trial>, it: Item, us: seq<Trial>)
    requires AllTook(items, ts) && Took(it, us, |it.data|)
    ensures AllTook(items + [it], ts + us)
  {
    assert (items + [it])[..|items|] == items;
    assert (ts + us)[..|ts|] == ts && (ts + us)[|ts|..] == us;
  }

  /** The calls of a turn: first for its item, then for what its callback wrote directly. */
  predicate TurnTrials(it: Item, ts: seq<Trial>, t: Turn) {
    exists k :: 0 <= k <= |ts| && Attempts(it, ts[..k], t.r) && AllTook(t.direct, ts[k..])
  }

  /** The replies of a drain are those of the kernel. */
  ghost predicate Answered(items: seq<Item>, turns: seq<Turn>, tail: Tail, h: Handlers, ts: seq<Trial>)
    requires LegalFlow(items, turns, tail, h)
    decreases |turns|
  {
    if turns == [] then ts == []
    else
      var before := turns[..|turns| - 1];
      exists k :: 0 <= k <= |ts| && Answered(items, before, tail, h, ts[..k])
                  && TurnTrials(RunFlow(items, before, tail, h).d.todo[0], ts[k..], Last(turns))
  }

  lemma AnsweredExtends(items: seq<Item>, turns: seq<Turn>, t: Turn, tail: Tail, h: Handlers,
                        ts: seq<Trial>, us: seq<Trial>)
    requires LegalFlow(items, turns, tail, h) && LegalTurn(RunFlow(items, turns, tail, h), t, tail, h)
    requires Answered(items, turns, tail, h, ts)
    requires TurnTrials(RunFlow(items, turns, tail, h).d.todo[0], us, t)
    ensures LegalFlow(items, turns + [t], tail, h) && Answered(items, turns + [t], tail, h, ts + us)
  {
    FlowExtends(items, turns, t, tail, h);
    assert (turns + [t])[..|turns|] == turns;
    assert (ts + us)[..|ts|] == ts && (ts + us)[|ts|..] == us;
  }

  /** A run goes on by one turn, whose write calls follow those before it. */
  lemma RunExtends(items: seq<Item>, turns: seq<Turn>, t: Turn, tail: Tail, h: Handlers,
                   trials0: seq<Trial>, was: seq<Trial>, now: seq<Trial>)
    requires LegalFlow(items, turns, tail, h) && LegalTurn(RunFlow(items, turns, tail, h), t, tail, h)
    requires trials0 <= was <= now && Answered(items, turns, tail, h, was[|trials0|..])
    requires TurnTrials(RunFlow(items, turns, tail, h).d.todo[0], now[|was|..], t)
    ensures LegalFlow(items, turns + [t], tail, h) && Answered(items, turns + [t], tail, h, now[|trials0|..])
    ensures RunFlow(items, turns + [t], tail, h) == StepFlow(RunFlow(items, turns, tail, h), t, tail, h)
    ensures EndsCopied(items, turns + [t], tail, h) <==> Copied(RunFlow(items, turns, tail, h).d.todo[0], t.r)
  {
    FlowExtends(items, turns, t, tail, h);
    SliceGrows(trials0, was, now);
    AnsweredExtends(items, turns, t, tail, h, was[|trials0|..], now[|was|..]);
  }

  // ---- The drain behind it ----

  lemma {:induction false} MoreToDrain(items: seq<Item>, more: seq<Item>, replies: seq<Reply>, h: Handlers)
    requires LegalRun(items, replies, h) && !RunDrain(items, replies, h).halted
    ensures LegalRun(items + more, replies, h)
    ensures var d := RunDrain(items, replies, h); RunDrain(items + more, replies, h) == d.(todo := d.todo + more)
    decreases |replies|
  {
    if replies != [] {
      var d, r := DrainUnfolds(items, replies, h);
      MoreToDrain(items, more, replies[..|replies| - 1], h);
      assert (d.todo + more)[1..] == d.todo[1..] + more;
    }
  }

  /** A drain with callbacks is a drain of the items it had to begin with and those that strayed onto
      its list. */
  lemma {:induction false} FlowIsDrain(items: seq<Item>, turns: seq<Turn>, tail: Tail, h: Handlers)
    requires LegalFlow(items, turns, tail, h)
    ensures var f := RunFlow(items, turns, tail, h);
      LegalRun(f.given, Replies(turns), h) && RunDrain(f.given, Replies(turns), h) == f.d
    decreases |turns|
  {
    if turns != [] {
      var before, f, t := FlowUnfolds(items, turns, tail, h);
      FlowIsDrain(items, before, tail, h);
      var caught := if Catches(f.d, t.r, h) then Strays(f.added, t.during, tail) else [];
      MoreToDrain(f.given, caught, Replies(before), h);
      DrainExtends(f.given + caught, Replies(before), t.r, h);
    }
  }

  // ---- Where the items go ----

  /** The first item queued starts the new queue. With wrqlast null all the others follow it. With
      wrqlast set none does: they are drained with the old ones, and in the last turn they are lost. */
  ghost predicate Placed(items: seq<Item>, f: Flow, all: seq<Item>, tail: Tail) {
    && items <= f.given
    && (if tail == Unset then f.added == all && f.given == items && f.lost == []
        else all == f.added + (f.given[|items|..] + f.lost) && |f.added| == if all == [] then 0 else 1)
    && (f.lost != [] ==> f.d.todo == [])
  }

  lemma StraysFollow(added: seq<Item>, strayed: seq<Item>, x: seq<Item>, tail: Tail)
    requires tail != Unset && |added| <= 1 && (added == [] ==> strayed == [])
    ensures Added(added, x, tail) + (strayed + Strays(added, x, tail)) == (added + strayed) + x
  {
  }

  lemma PlacedStep(items: seq<Item>, f: Flow, all: seq<Item>, t: Turn, tail: Tail, h: Handlers)
    requires LegalTurn(f, t, tail, h) && Placed(items, f, all, tail)
    ensures Placed(items, StepFlow(f, t, tail, h), all + t.during, tail)
  {
    var e, s := StepFlow(f, t, tail, h), Strays(f.added, t.during, tail);
    if tail != Unset {
      assert f.lost == [];
      StraysFollow(f.added, f.given[|items|..], t.during, tail);
      assert e.given[|items|..] + e.lost == f.given[|items|..] + s;
    } else {
      assert e.given == f.given && e.lost == f.lost;
    }
  }

  lemma {:induction false} WhereTheyGo(items: seq<Item>, turns: seq<Turn>, tail: Tail, h: Handlers)
    requires LegalFlow(items, turns, tail, h)
    ensures Placed(items, RunFlow(items, turns, tail, h), Queued(turns), tail)
    decreases |turns|
  {
    if turns != [] {
      var before, f, t := FlowUnfolds(items, turns, tail, h);
      WhereTheyGo(items, before, tail, h);
      PlacedStep(items, f, Queued(before), t, tail, h);
    }
  }

  lemma OneMoreCall(direct: seq<Item>, queued: seq<Item>, x: seq<Item>, y: seq<Item>)
    requires x != [] ==> queued == []
    ensures (direct + queued) + (x + y) == (direct + x) + (queued + y)
  {
  }

  /** What callbacks wrote directly they wrote before anything they queued. */
  lemma {:induction false} DirectFirst(items: seq<Item>, turns: seq<Turn>, tail: Tail, h: Handlers)
    requires LegalFlow(items, turns, tail, h)
    ensures Asked(turns) == RunFlow(items, turns, tail, h).direct + Queued(turns)
    decreases |turns|
  {
    if turns != [] {
      var before, f, t := FlowUnfolds(items, turns, tail, h);
      DirectFirst(items, before, tail, h);
      WhereTheyGo(items, before, tail, h);
      OneMoreCall(f.direct, Queued(before), t.direct, t.during);
    }
  }

  /** Exactly when a drain treats the queued writes of its callbacks as a queue would: at most one was made, or
      wrqlast was null. */
  lemma QueueKeptIff(items: seq<Item>, turns: seq<Turn>, tail: Tail, h: Handlers)
    requires LegalFlow(items, turns, tail, h)
    ensures var f := RunFlow(items, turns, tail, h);
      f.added == Queued(turns) && f.given == items && f.lost == [] <==> tail == Unset || |Queued(turns)| <= 1
  {
    WhereTheyGo(items, turns, tail, h);
  }

  // ---- What may go wrong ----

  function Whole(it: Item, direct: seq<Item>, during: seq<Item>): Turn {
    Turn(Reply(|it.data|, NoError), direct, during)
  }

  lemma WholeTurn(f: Flow, direct: seq<Item>, during: seq<Item>, tail: Tail, h: Handlers)
    requires !f.d.halted && f.d.todo != [] && tail != Wrong && (direct != [] ==> f.added == [])
    ensures var it, t := f.d.todo[0], Whole(f.d.todo[0], direct, during);
      && LegalTurn(f, t, tail, h)
      && var e := StepFlow(f, t, tail, h);
         && !e.d.halted && e.sent == f.sent + (Wire(it) + Stream(direct)) && e.added == Added(f.added, during, tail)
         && e.d.todo == f.d.todo[1..] + (if |f.d.todo| >= 2 then Strays(f.added, during, tail) else [])
         && e.lost == f.lost + (if |f.d.todo| >= 2 then [] else Strays(f.added, during, tail))
  {
    var it := f.d.todo[0];
    assert Front(it, |it.data|) == it;
    assert f.lost + [] == f.lost;
  }

  /** A run with one more whole turn, after which it stands at `f`. */
  lemma OneMoreWhole(items: seq<Item>, turns: seq<Turn>, g: Flow, direct: seq<Item>, during: seq<Item>, h: Handlers)
    returns (f: Flow)
    requires LegalFlow(items, turns, Right, h) && g == RunFlow(items, turns, Right, h)
    requires !g.d.halted && g.d.todo != [] && (direct != [] ==> g.added == [])
    ensures var t := Whole(g.d.todo[0], direct, during);
      && LegalFlow(items, turns + [t], Right, h) && f == RunFlow(items, turns + [t], Right, h) && !f.d.halted
      && f.sent == g.sent + (Wire(g.d.todo[0]) + Stream(direct)) && f.added == Added(g.added, during, Right)
      && f.d.todo == g.d.todo[1..] + (if |g.d.todo| >= 2 then Strays(g.added, during, Right) else [])
      && f.lost == g.lost + (if |g.d.todo| >= 2 then [] else Strays(g.added, during, Right))
      && Asked(turns + [t]) == Asked(turns) + (direct + during)
  {
    assert (turns + [Whole(g.d.todo[0], direct, during)])[..|turns|] == turns;
    WholeTurn(g, direct, during, Right, h);
    FlowExtends(items, turns, Whole(g.d.todo[0], direct, during), Right, h);
    f := RunFlow(items, turns + [Whole(g.d.todo[0], direct, during)], Right, h);
  }

  /** Two items are drained with wrqlast set. If the callback of the first queues two more, the second of
      these is written before the first. */
  lemma WrittenOutOfOrder(a: Item, b: Item, x: Item, y: Item, h: Handlers) returns (turns: seq<Turn>)
    ensures Asked(turns) == [x, y] && LegalFlow([a, b], turns, Right, h)
    ensures var f := RunFlow([a, b], turns, Right, h);
      f.sent == Wire(a) + Wire(b) + Wire(y) && f.d.todo == [] && f.added == [x]
  {
    turns := [];
    var f := RunFlow([a, b], turns, Right, h);
    f := OneMoreWhole([a, b], turns, f, [], [x, y], h);
    turns := turns + [Whole(a, [], [x, y])];
    assert f.d.todo == [b, y] && f.sent == Wire(a) && f.added == [x] && Asked(turns) == [x, y];
    f := OneMoreWhole([a, b], turns, f, [], [], h);
    turns := turns + [Whole(b, [], [])];
    assert f.d.todo == [y] && f.sent == Wire(a) + Wire(b) && f.added == [x] && Asked(turns) == [x, y];
    f := OneMoreWhole([a, b], turns, f, [], [], h);
    turns := turns + [Whole(y, [], [])];
  }

  /** If the callback of the last item queues the two, the second is lost. */
  lemma LinkedTooLate(a: Item, x: Item, y: Item, h: Handlers)
    ensures LegalFlow([a], [Whole(a, [], [x, y])], Right, h)
    ensures var f := RunFlow([a], [Whole(a, [], [x, y])], Right, h);
      f.sent == Wire(a) && f.d.todo == [] && f.added == [x] && f.lost == [y]
  {
    var f := OneMoreWhole([a], [], RunFlow([a], [], Right, h), [], [x, y], h);
    assert [] + [Whole(a, [], [x, y])] == [Whole(a, [], [x, y])];
  }

  /** A callback that writes directly gets its bytes out before items queued long before. */
  lemma WrittenAhead(a: Item, b: Item, x: Item, h: Handlers) returns (turns: seq<Turn>)
    ensures Asked(turns) == [x] && LegalFlow([a, b], turns, Right, h)
    ensures var f := RunFlow([a, b], turns, Right, h);
      f.sent == Wire(a) + Wire(x) + Wire(b) && f.d.todo == [] && f.added == [] && f.lost == []
  {
    turns := [];
    StreamOfOne(x);
    var f := RunFlow([a, b], turns, Right, h);
    f := OneMoreWhole([a, b], turns, f, [x], [], h);
    turns := turns + [Whole(a, [x], [])];
    assert f.d.todo == [b] && f.sent == Wire(a) + Wire(x) && f.added == [] && f.lost == [] && Asked(turns) == [x];
    f := OneMoreWhole([a, b], turns, f, [], [], h);
    turns := turns + [Whole(b, [], [])];
  }
}
