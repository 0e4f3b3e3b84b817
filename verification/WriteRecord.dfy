/** What a connection records while it drains, and where what callbacks write goes, on values. */
module WriteRecord {
  import opened Seqs
  import opened Flags
  import opened WriteSpec
  import opened CallbackSpec
  import opened WriteQueue
  import opened WriteLine

  predicate SameWire(it: Item, op: WriteOp, peer: int, data: seq<Byte>) {
    it.op == op && it.data == data && (op == OpSendTo ==> it.peer == peer)
  }

  /** A write that a callback asks for; `direct`: it is short enough to be tried synchronously. */
  datatype Ask = Ask(op: WriteOp, peer: int, data: seq<Byte>, direct: bool)

  predicate Meets(it: Item, a: Ask) { SameWire(it, a.op, a.peer, a.data) }

  /** The items are those asked for, in order, but for some that were refused. */
  predicate Granted(asks: seq<Ask>, items: seq<Item>)
    decreases |asks|
  {
    if asks == [] then items == []
    else
      var n := |asks| - 1;
      || Granted(asks[..n], items)
      || (items != [] && Meets(Last(items), asks[n]) && Granted(asks[..n], items[..|items| - 1]))
  }

  lemma GrantsOne(asks: seq<Ask>, items: seq<Item>, a: Ask, it: Item)
    requires Granted(asks, items) && Meets(it, a)
    ensures Granted(asks + [a], items + [it])
  {
    assert (asks + [a])[..|asks|] == asks && (items + [it])[..|items|] == items;
  }

  lemma RefusesOne(asks: seq<Ask>, items: seq<Item>, a: Ask)
    requires Granted(asks, items)
    ensures Granted(asks + [a], items)
  {
    assert (asks + [a])[..|asks|] == asks;
  }

  /** What a connection and its kernel have seen so far. */
  datatype Record = Record(trials: seq<Trial>, accepted: seq<Octet>, posted: seq<Item>, calls: seq<Callback>,
                           flags: set<Flag>)

  /** A turn of the drain, or a did-write callback in it, as it begins: the new queue holds `added`; the head
      `q` of the detached list `l`, of which wrqlast was `tail`, is being written; callbacks may queue
      `allowed` more items; and `spare` is a buffer that is on neither list. */
  datatype Scene = Scene(added: seq<Item>, was: Record, allowed: nat, q: Wrq, l: Line, tail: Tail, spare: Buf?)

  /** What a callback has done so far: the detached list now, the items it wrote directly and those it
      queued. */
  datatype Deed = Deed(l: Line, direct: seq<Item>, queued: seq<Item>)

  /** The items written, in the order of the calls. */
  function Written(d: Deed): seq<Item> { d.direct + d.queued }

  /** One more item was written for this. */
  predicate Serves(d: Deed, e: Deed, a: Ask) {
    && |Written(e)| == |Written(d)| + 1 && Written(e)[..|Written(d)|] == Written(d) && Meets(Last(Written(e)), a)
    && if |e.direct| == |d.direct| then e.direct == d.direct else e.queued == d.queued == []
  }

  lemma ServedQueued(d: Deed, e: Deed, it: Item, a: Ask)
    requires Meets(it, a) && e.direct == d.direct && e.queued == d.queued + [it]
    ensures Serves(d, e, a)
  {
    assert Written(e) == Written(d) + [it];
  }

  lemma ServedDirect(d: Deed, it: Item, a: Ask)
    requires Meets(it, a) && d.queued == []
    ensures Serves(d, d.(direct := d.direct + [it]), a)
  {
    assert Written(d.(direct := d.direct + [it])) == Written(d) + [it];
  }

  /** The deed after some of the asks: all of them have been granted if `all`. */
  predicate Served(asks: seq<Ask>, d: Deed, all: bool) {
    Granted(asks, Written(d)) && (all ==> |Written(d)| == |asks|)
  }

  lemma OneMoreAsked(asks: seq<Ask>, i: nat, d: Deed, e: Deed, was: bool, all: bool)
    requires i < |asks| && Served(asks[..i], d, was) && (Serves(d, e, asks[i]) || (e == d && !all)) && (all ==> was)
    ensures Served(asks[..i + 1], e, all)
  {
    TakeOneMore(asks, i);
    if Serves(d, e, asks[i]) {
      GrantsOne(asks[..i], Written(d), asks[i], Last(Written(e)));
      assert Written(e) == Written(d) + [Last(Written(e))];
    } else {
      RefusesOne(asks[..i], Written(d), asks[i]);
    }
  }

  /** The queue, wrqlast, and what is left of the detached list. */
  datatype Lists = Lists(queue: Line, last: Wrq?, detached: Line)

  /** Where wrqlast points, with `qs` in the queue, while `ls` is what is left of the detached list, of
      which it was `tail`. */
  ghost predicate TailAt(qs: seq<Wrq>, last: Wrq?, ls: seq<Wrq>, tail: Tail) {
    match tail
    case Unset => |ls| <= 1 && if |qs| <= 1 then last == null else last == Last(qs)
    case Right => |qs| <= 1 && (ls != [] ==> last == Last(ls)) && last != null && (qs != [] ==> last != qs[0])
    case Wrong => |ls| <= 1 && |qs| <= 1
  }

  /** Where the items queued have gone: the queue holds `now`. */
  ghost predicate Spread(k: Scene, now: seq<Item>, d: Deed) {
    && now == Added(k.added, d.queued, k.tail) && d.l.items == k.l.items + Strays(k.added, d.queued, k.tail)
    && k.l.nodes <= d.l.nodes && k.l.bufs <= d.l.bufs
    && (k.tail == Wrong ==> |k.added| + |d.queued| <= 1)
  }

  /** An add that goes by wrqlast. */
  ghost predicate AddedBy(was: Lists, now: Lists, q: Wrq, b: Buf, it: Item) {
    && now.last == (if was.queue.nodes == [] then was.last else q)
    && if TailOk(was.queue.nodes, was.last)
       then now.detached == was.detached && now.queue == Snoc(was.queue, q, b, it)
       else now.queue == was.queue && now.detached == Snoc(was.detached, q, b, it)
  }

  /** It goes where Added and Strays say. */
  lemma AddGoesBy(k: Scene, d: Deed, was: Lists, now: Lists, q: Wrq, b: Buf, it: Item)
    requires AddedBy(was, now, q, b, it) && d.l == was.detached && Spread(k, was.queue.items, d)
    requires TailAt(was.queue.nodes, was.last, was.detached.nodes, k.tail) && was.detached.nodes != []
    requires Even(was.queue) && Even(was.detached) && Apart(now.detached.nodes, now.queue.nodes)
    requires k.tail == Wrong ==> was.queue.nodes == []
    ensures TailAt(now.queue.nodes, now.last, now.detached.nodes, k.tail)
    ensures Spread(k, now.queue.items, Deed(now.detached, d.direct, d.queued + [it]))
  {
    OneMoreQueued(k.added, d.queued, it, k.tail);
  }

  /** A buffer that was on neither list still is, if it is not the one that was added. */
  lemma StaysSpare(spare: Buf?, was: Lists, now: Lists, q: Wrq, b: Buf, it: Item)
    requires AddedBy(was, now, q, b, it) && spare != b
    requires spare != null ==> Off(spare, was.queue.bufs) && Off(spare, was.detached.bufs)
    ensures spare != null ==> Off(spare, now.queue.bufs) && Off(spare, now.detached.bufs)
  {
  }

  /** What a callback puts on record. */
  ghost predicate DeedRecord(was: Record, now: Record, d: Deed) {
    && was.trials <= now.trials && AllTook(d.direct, now.trials[|was.trials|..])
    && now == Record(now.trials, was.accepted + Stream(d.direct), was.posted + d.direct, was.calls,
                     was.flags + (if d.queued == [] then {} else {ENABLED, WR}))
  }

  lemma NothingOnRecord(was: Record, l: Line)
    ensures DeedRecord(was, was, Deed(l, [], []))
  {
    assert was.accepted + [] == was.accepted && was.posted + [] == was.posted;
  }

  lemma QueuedOnRecord(was: Record, mid: Record, now: Record, d: Deed, e: Deed)
    requires DeedRecord(was, mid, d) && e.direct == d.direct && e.queued != []
    requires now == mid.(flags := mid.flags + {ENABLED, WR})
    ensures DeedRecord(was, now, e)
  {
  }

  lemma DirectOnRecord(was: Record, mid: Record, now: Record, d: Deed, it: Item)
    requires DeedRecord(was, mid, d)
    requires mid.trials <= now.trials && Took(it, now.trials[|mid.trials|..], |it.data|)
    requires now == mid.(trials := now.trials, accepted := mid.accepted + Wire(it), posted := mid.posted + [it])
    ensures DeedRecord(was, now, d.(direct := d.direct + [it]))
  {
    SliceGrows(was.trials, mid.trials, now.trials);
    AllTookMore(d.direct, mid.trials[|was.trials|..], it, now.trials[|mid.trials|..]);
    StreamAppends(d.direct, [it]);
    StreamOfOne(it);
    Associates(was.accepted, Stream(d.direct), Wire(it));
    Associates(was.posted, d.direct, [it]);
  }

  lemma CallsOnRecord(was: Record, mid: Record, now: Record, d: Deed, calls0: seq<Callback>, calls1: seq<Callback>)
    requires DeedRecord(was.(calls := calls0), mid, d) && now == mid.(calls := calls1)
    ensures DeedRecord(was.(calls := calls1), now, d)
  {
  }

  /** Whether the loop goes on after this answer. */
  predicate GoesOn(it: Item, r: Reply, h: Handlers) { !Keeps(it, r) && !Fails(r, h) }

  /** The head `it` of the detached list was answered, and its callback did `d`. */
  ghost predicate ResultRecord(k: Scene, it: Item, r: Reply, h: Handlers, now: Record, d: Deed)
    requires Plausible(it, r)
  {
    && DeedRecord(k.was.(calls := k.was.calls + (Notice(it, r) + Complaint(it, r, h))), now, d)
    && (d.direct + d.queued != [] ==> Notice(it, r) != []) && (d.direct != [] ==> k.added == [])
    && (k.tail == Wrong ==> |k.added| + |d.queued| <= 1)
  }

  /** The head of the detached list was written. */
  ghost predicate TurnRecord(k: Scene, t: Turn, h: Handlers, now: Record) {
    && k.l.items != [] && Legal(k.l.items[0], t.r)
    && (t.direct + t.during != [] ==> Notice(k.l.items[0], t.r) != []) && (t.direct != [] ==> k.added == [])
    && (k.tail == Wrong ==> |k.added| + |t.during| <= 1)
    && k.was.trials <= now.trials && TurnTrials(k.l.items[0], now.trials[|k.was.trials|..], t)
    && now.accepted == k.was.accepted + (Wire(Front(k.l.items[0], t.r.written)) + Stream(t.direct))
    && now.posted == k.was.posted + t.direct
    && now.calls == k.was.calls + (Notice(k.l.items[0], t.r) + Complaint(k.l.items[0], t.r, h))
    && now.flags == k.was.flags + (if t.during == [] then {} else {ENABLED, WR})
  }

  /** The write calls of a turn: first for its item, then for what was written directly. */
  lemma TwoRecords(k: Scene, r: Reply, h: Handlers, mid: Record, now: Record, d: Deed)
    requires k.l.items != [] && Legal(k.l.items[0], r)
    requires k.was.trials <= mid.trials && Attempts(k.l.items[0], mid.trials[|k.was.trials|..], r)
    requires mid == k.was.(trials := mid.trials, accepted := k.was.accepted + Wire(Front(k.l.items[0], r.written)))
    requires ResultRecord(k.(was := mid), k.l.items[0], r, h, now, d)
    ensures TurnRecord(k, Turn(r, d.direct, d.queued), h, now)
  {
    var ts, us := mid.trials[|k.was.trials|..], now.trials[|mid.trials|..];
    SliceGrows(k.was.trials, mid.trials, now.trials);
    assert (ts + us)[..|ts|] == ts && (ts + us)[|ts|..] == us;
    Associates(k.was.accepted, Wire(Front(k.l.items[0], r.written)), Stream(d.direct));
  }

  // ---- A drain ----

  /** A drain as it begins: the items detached, wrqlast, what is on record and what was missed before, how
      many items its callbacks may queue, and how many nodes have been given back. */
  datatype Begin = Begin(items: seq<Item>, tail: Tail, from: Record, missed: seq<Item>, allowed: nat, given: nat)

  /** A drain gives back one node for each turn but the one that ends it early. */
  function GivenIn(turns: seq<Turn>, f: Flow): int { |turns| - (if f.d.halted then 1 else 0) }

  /** What a drain has done from one record to another. */
  ghost predicate Did(from: Record, f: Flow, now: Record) {
    && from.trials <= now.trials && now.accepted == from.accepted + f.sent && now.posted == from.posted + f.direct
    && now.calls == from.calls + f.d.calls
    && now.flags == from.flags + (if f.added == [] then {} else {ENABLED, WR})
  }

  /** The items that stray in a turn and are lost. */
  function Strayed(k: Scene, t: Turn, again: bool): seq<Item> {
    if again && |k.l.items| == 1 then Strays(k.added, t.during, k.tail) else []
  }

  /** A turn is a step. */
  lemma TurnIsStep(k: Scene, f: Flow, t: Turn, h: Handlers, from: Record, now: Record)
    requires !f.d.halted && k.l.items == f.d.todo && k.added == f.added
    requires Did(from, f, k.was) && TurnRecord(k, t, h, now)
    ensures LegalTurn(f, t, k.tail, h)
    ensures var e, again := StepFlow(f, t, k.tail, h), GoesOn(f.d.todo[0], t.r, h);
      && Did(from, e, now) && again == !e.d.halted && e.d.stop == Fails(t.r, h)
      && e.lost == f.lost + Strayed(k, t, again)
      && (again ==> |e.d.todo| < |f.d.todo| + |t.during|)
  {
    StepParts(f, t, k.tail, h);
    var it := f.d.todo[0];
    Associates(from.accepted, f.sent, Wire(Front(it, t.r.written)) + Stream(t.direct));
    Associates(from.posted, f.direct, t.direct);
    Associates(from.calls, f.d.calls, Notice(it, t.r) + Complaint(it, t.r, h));
    assert f.lost + [] == f.lost;
  }

  lemma CutAndStrays(items: seq<Item>, cut: Item, strays: seq<Item>)
    requires items != []
    ensures var all := ([cut] + items[1..]) + strays;
      all[0] == cut && all[1..] == items[1..] + strays && [items[0]] + all[1..] == items + strays
  {
  }
}
