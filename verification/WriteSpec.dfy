/** The proactor's write path on values: what one drain does to a list of
    pending items, given what the kernel answered for each of them.

    The code never looks at the value of a byte, so a byte is any integer;
    bytes that must be told apart are given different integers. */
module WriteSpec {
  import opened Seqs

  type Byte = int

  /** gwpr_io_op_id, the three write operations. */
  datatype WriteOp = OpWrite | OpSend | OpSendTo

  /** errno after a write call. EINTR never gets out of gwpr_write_buffer. */
  datatype Errno = NoError | Again | WouldBlock | ConnReset | BrokenPipe | OtherError(code: nat)

  /** One gwprwrq: the operation, the peer (meaningful for sendto), the buffer's first len bytes. */
  datatype Item = Item(op: WriteOp, peer: int, data: seq<Byte>)

  /** One byte as the kernel sees it: which call carried it, and to whom. */
  datatype Octet = Octet(op: WriteOp, dest: int, b: Byte)

  /** What gwpr_write_buffer reports for one item. */
  datatype Reply = Reply(written: nat, err: Errno)

  /** A write call: what it offered, how much of it the kernel took, and errno. */
  datatype Trial = Trial(offered: Item, n: nat, err: Errno)

  /** Which optional callbacks are installed. */
  datatype Handlers = Handlers(errorcb: bool, closedcb: bool)

  /** The bytes of a gwprbuf and its len field, which need not agree. */
  datatype Handed = Handed(mem: seq<Byte>, len: nat)

  /** A call of a user callback. */
  datatype Callback =
    | DidWrite(done: Item)
    | Closed(unwritten: seq<Handed>)           // empty when ioinfo->buf is NULL
    | Failed(err: Errno, op: WriteOp, buf: Handed)

  function Dest(it: Item): int { if it.op == OpSendTo then it.peer else 0 }

  function Wire(it: Item): (w: seq<Octet>)
    ensures |w| == |it.data|
    ensures forall i :: 0 <= i < |w| ==> w[i] == Octet(it.op, Dest(it), it.data[i])
  {
    seq(|it.data|, i requires 0 <= i < |it.data| => Octet(it.op, Dest(it), it.data[i]))
  }

  function Stream(items: seq<Item>): seq<Octet> {
    if items == [] then [] else Wire(items[0]) + Stream(items[1..])
  }

  function Front(it: Item, k: nat): Item
    requires k <= |it.data|
  {
    it.(data := it.data[..k])
  }

  function Back(it: Item, k: nat): Item
    requires k <= |it.data|
  {
    it.(data := it.data[k..])
  }

  lemma WireSplits(it: Item, k: nat)
    requires k <= |it.data|
    ensures Wire(Front(it, k)) + Wire(Back(it, k)) == Wire(it)
  {
  }

  lemma {:induction false} StreamAppends(xs: seq<Item>, ys: seq<Item>)
    ensures Stream(xs + ys) == Stream(xs) + Stream(ys)
  {
    if xs == [] {
      assert xs + ys == ys;
    } else {
      assert (xs + ys)[1..] == xs[1..] + ys;
      StreamAppends(xs[1..], ys);
    }
  }

  lemma StreamOfOne(it: Item)
    ensures Stream([it]) == Wire(it)
    ensures it.data == [] ==> Wire(it) == [] == Stream([])
  {
    assert [it][1..] == [];
  }

  lemma Regroup<T>(a: seq<T>, b: seq<T>, c: seq<T>, d: seq<T>)
    ensures a + ((b + c) + d) == (a + b) + (c + d)
  {
  }

  /** What a second write call takes follows what the first one took. */
  lemma WireGrows(it: Item, k: nat, n: nat)
    requires k + n <= |it.data|
    ensures Wire(Front(it, k + n)) == Wire(Front(it, k)) + Wire(Front(Back(it, k), n))
  {
  }

  predicate Blocked(e: Errno) { e == Again || e == WouldBlock }

  predicate Hangup(e: Errno) { e == ConnReset || e == BrokenPipe }

  /** What gwpr_write_buffer can report: it stops early only on an error. */
  predicate Legal(it: Item, r: Reply) {
    && r.written <= |it.data|
    && (r.err == NoError <==> r.written == |it.data|)
  }

  /** gwpr_src_activity_write_qitem_result also copes with a short write that has no error. */
  predicate Plausible(it: Item, r: Reply) {
    && r.written <= |it.data|
    && (r.written == |it.data| ==> r.err == NoError)
  }

  /** A drain in progress: the items still queued, the bytes the kernel took, the callbacks made,
      and whether the loop has been left (with or without shutting write events off). */
  datatype Drain = Drain(todo: seq<Item>, accepted: seq<Octet>, calls: seq<Callback>, halted: bool, stop: bool)

  predicate Partial(it: Item, r: Reply) { 0 < r.written < |it.data| }

  /** The didwritecb call for one item. */
  function Notice(it: Item, r: Reply): seq<Callback>
    requires Plausible(it, r)
  {
    if r.written == |it.data| || Partial(it, r) then [DidWrite(Front(it, r.written))] else []
  }

  /** The closedcb or errorcb call for one item. The buffer made for an unwritten rest is handed
      over with its len still 0. */
  function Complaint(it: Item, r: Reply, h: Handlers): seq<Callback>
    requires Plausible(it, r)
  {
    if Hangup(r.err) then
      if h.closedcb then [Closed(if Partial(it, r) then [Handed(it.data[r.written..], 0)] else [])] else []
    else if r.err.OtherError? && h.errorcb then
      [Failed(r.err, it.op, if Partial(it, r) then Handed(it.data[r.written..], 0) else Handed(it.data, |it.data|))]
    else []
  }

  /** What is left of the item in its own node: len is cut to what was written. */
  function Cut(it: Item, r: Reply): Item
    requires Plausible(it, r)
  {
    if Partial(it, r) then Front(it, r.written) else it
  }

  /** The callback is made exactly if what is left in the node is what was written. */
  lemma NoticeOfCut(it: Item, r: Reply)
    requires Plausible(it, r)
    ensures Notice(it, r) == if r.written == |Cut(it, r).data| then [DidWrite(Cut(it, r))] else []
  {
    assert r.written == |it.data| ==> Front(it, r.written) == it;
  }

  /** The two short answers after which the item is kept for later. */
  predicate Keeps(it: Item, r: Reply) {
    (Partial(it, r) && (r.err == NoError || Blocked(r.err))) || (r.written == 0 && Blocked(r.err))
  }

  /** The unwritten rest of the item moves to a new node. */
  predicate Copied(it: Item, r: Reply) { Keeps(it, r) && Partial(it, r) }

  /** The error goes to errorcb, which ends the drain. */
  predicate Fails(r: Reply, h: Handlers) { r.err.OtherError? && h.errorcb }

  /** The list put back when the drain ends at its first item. */
  function Kept(its: seq<Item>, r: Reply): seq<Item>
    requires its != [] && Plausible(its[0], r)
  {
    [if Copied(its[0], r) then Back(its[0], r.written) else Cut(its[0], r)] + its[1..]
  }

  /** One turn of the drain loop. */
  function Step(d: Drain, r: Reply, h: Handlers): Drain
    requires !d.halted && d.todo != [] && Plausible(d.todo[0], r)
  {
    var it := d.todo[0];
    var accepted := d.accepted + Wire(Front(it, r.written));
    var calls := d.calls + (Notice(it, r) + Complaint(it, r, h));
    if Keeps(it, r) || Fails(r, h) then
      Drain(Kept(d.todo, r), accepted, calls, true, Fails(r, h))
    else
      Drain(d.todo[1..], accepted, calls, false, false)
  }

  /** The drain of `items` after the kernel has answered for |replies| of them. */
  ghost predicate LegalRun(items: seq<Item>, replies: seq<Reply>, h: Handlers)
    decreases |replies|, 0
  {
    if replies == [] then true
    else
      var before := replies[..|replies| - 1];
      && LegalRun(items, before, h)
      && var d := RunDrain(items, before, h);
         !d.halted && d.todo != [] && Legal(d.todo[0], replies[|replies| - 1])
  }

  ghost function RunDrain(items: seq<Item>, replies: seq<Reply>, h: Handlers): Drain
    requires LegalRun(items, replies, h)
    decreases |replies|, 1
  {
    if replies == [] then Drain(items, [], [], false, false)
    else Step(RunDrain(items, replies[..|replies| - 1], h), replies[|replies| - 1], h)
  }

  predicate Finished(d: Drain) { d.halted || d.todo == [] }

  lemma DrainUnfolds(items: seq<Item>, replies: seq<Reply>, h: Handlers) returns (d: Drain, r: Reply)
    requires replies != [] && LegalRun(items, replies, h)
    ensures r == replies[|replies| - 1]
    ensures LegalRun(items, replies[..|replies| - 1], h) && d == RunDrain(items, replies[..|replies| - 1], h)
    ensures !d.halted && d.todo != [] && Legal(d.todo[0], r)
    ensures RunDrain(items, replies, h) == Step(d, r, h)
  {
    d, r := RunDrain(items, replies[..|replies| - 1], h), replies[|replies| - 1];
  }

  lemma DrainExtends(items: seq<Item>, replies: seq<Reply>, r: Reply, h: Handlers)
    requires LegalRun(items, replies, h)
    requires var d := RunDrain(items, replies, h); !d.halted && d.todo != [] && Legal(d.todo[0], r)
    ensures LegalRun(items, replies + [r], h)
    ensures RunDrain(items, replies + [r], h) == Step(RunDrain(items, replies, h), r, h)
  {
    assert (replies + [r])[..|replies|] == replies;
  }

  // ---- Completion accounting ----

  /** The bytes reported through didwritecb, in the order of the calls. */
  function Reported(calls: seq<Callback>): seq<Octet> {
    if calls == [] then []
    else (if calls[0].DidWrite? then Wire(calls[0].done) else []) + Reported(calls[1..])
  }

  lemma {:induction false} ReportedAppends(xs: seq<Callback>, ys: seq<Callback>)
    ensures Reported(xs + ys) == Reported(xs) + Reported(ys)
  {
    if xs == [] {
      assert xs + ys == ys;
    } else {
      assert (xs + ys)[1..] == xs[1..] + ys;
      ReportedAppends(xs[1..], ys);
    }
  }

  lemma ItemReport(it: Item, r: Reply, h: Handlers)
    requires Plausible(it, r)
    ensures Reported(Notice(it, r)) == Wire(Front(it, r.written))
    ensures Reported(Complaint(it, r, h)) == []
  {
    var n, c := Notice(it, r), Complaint(it, r, h);
    assert n != [] ==> Reported(n[1..]) == [];
    assert c != [] ==> Reported(c[1..]) == [];
  }

  /** Whatever the kernel answers, errors included, didwritecb is told exactly the bytes the kernel
      took, once each and in order. */
  lemma {:induction false} CompletionAccounting(items: seq<Item>, replies: seq<Reply>, h: Handlers)
    requires LegalRun(items, replies, h)
    ensures Reported(RunDrain(items, replies, h).calls) == RunDrain(items, replies, h).accepted
    decreases |replies|
  {
    if replies != [] {
      var d, r := DrainUnfolds(items, replies, h);
      CompletionAccounting(items, replies[..|replies| - 1], h);
      var it := d.todo[0];
      ItemReport(it, r, h);
      ReportedAppends(Notice(it, r), Complaint(it, r, h));
      ReportedAppends(d.calls, Notice(it, r) + Complaint(it, r, h));
    }
  }

  // ---- Conservation of the byte stream ----

  /** The answers after which no byte is lost or queued twice: success, would-block at any byte, or
      an error that reaches errorcb before any byte of the item was taken. */
  predicate Clean(r: Reply, h: Handlers) {
    r.err == NoError || Blocked(r.err) || (r.err.OtherError? && h.errorcb && r.written == 0)
  }

  predicate AllClean(replies: seq<Reply>, h: Handlers) {
    forall i :: 0 <= i < |replies| ==> Clean(replies[i], h)
  }

  lemma CleanStepLeaves(d: Drain, r: Reply, h: Handlers)
    requires !d.halted && d.todo != [] && Legal(d.todo[0], r) && Clean(r, h)
    ensures Step(d, r, h).todo ==
            (if r.written == |d.todo[0].data| then [] else [Back(d.todo[0], r.written)]) + d.todo[1..]
  {
    if r.written == 0 && r.err != NoError {
      assert Back(d.todo[0], 0) == d.todo[0];
      assert d.todo == [d.todo[0]] + d.todo[1..];
    }
  }

  lemma CleanStep(d: Drain, r: Reply, h: Handlers)
    requires !d.halted && d.todo != [] && Legal(d.todo[0], r) && Clean(r, h)
    ensures var e := Step(d, r, h); e.accepted + Stream(e.todo) == d.accepted + Stream(d.todo)
  {
    var it, w, rest := d.todo[0], r.written, d.todo[1..];
    CleanStepLeaves(d, r, h);
    var back := if w == |it.data| then [] else [Back(it, w)];
    StreamAppends(back, rest);
    StreamOfOne(Back(it, w));
    WireSplits(it, w);
    Regroup(d.accepted, Wire(Front(it, w)), Stream(back), Stream(rest));
  }

  lemma {:induction false} DrainConserves(items: seq<Item>, replies: seq<Reply>, h: Handlers)
    requires LegalRun(items, replies, h) && AllClean(replies, h)
    ensures var d := RunDrain(items, replies, h); d.accepted + Stream(d.todo) == Stream(items)
    decreases |replies|
  {
    if replies != [] {
      var d, r := DrainUnfolds(items, replies, h);
      DrainConserves(items, replies[..|replies| - 1], h);
      CleanStep(d, r, h);
    }
  }

  /** A step takes its bytes from the head of the queue and nowhere else. */
  lemma StepBringsNothing(d: Drain, r: Reply, h: Handlers, o: Octet)
    requires !d.halted && d.todo != [] && Plausible(d.todo[0], r)
    requires o !in d.accepted && o !in Stream(d.todo)
    ensures o !in Step(d, r, h).accepted && o !in Stream(Step(d, r, h).todo)
  {
    var it := d.todo[0];
    WireSplits(it, r.written);
    assert Stream(d.todo) == Wire(Front(it, r.written)) + Wire(Back(it, r.written)) + Stream(d.todo[1..]);
    var e := Step(d, r, h);
    if e.halted {
      assert e.todo[1..] == d.todo[1..];
      assert Wire(it) == Wire(Front(it, r.written)) + Wire(Back(it, r.written));
    }
  }

  /** The first byte the kernel did not take of an item that ended uncleanly is gone. */
  lemma UncleanStepLoses(d: Drain, r: Reply, h: Handlers) returns (o: Octet)
    requires !d.halted && d.todo != [] && Legal(d.todo[0], r) && !Clean(r, h)
    requires Distinct(d.accepted + Stream(d.todo))
    ensures o in Stream(d.todo)
    ensures o !in Step(d, r, h).accepted && o !in Stream(Step(d, r, h).todo)
  {
    var it, w := d.todo[0], r.written;
    var rest := d.todo[1..];
    WireSplits(it, w);
    var whole := d.accepted + Stream(d.todo);
    var at := |d.accepted| + w;
    o := Wire(it)[w];
    assert whole == d.accepted + Wire(it) + Stream(rest);
    assert whole[at] == o;
    assert whole[..at] == d.accepted + Wire(Front(it, w));
    assert whole[at + 1..] == Wire(it)[w + 1..] + Stream(rest);
    assert o !in whole[..at] && o !in whole[at + 1..];
    var e := Step(d, r, h);
    assert e.accepted == whole[..at];
    assert o !in Stream(rest);
    if e.halted {
      assert e.todo[1..] == rest;
    }
    assert Stream(d.todo)[w] == o;
  }

  lemma {:induction false} LostStaysLost(items: seq<Item>, replies: seq<Reply>, h: Handlers)
    returns (o: Octet)
    requires LegalRun(items, replies, h) && !AllClean(replies, h)
    requires Distinct(Stream(items))
    ensures o in Stream(items)
    ensures var d := RunDrain(items, replies, h); o !in d.accepted && o !in Stream(d.todo)
    decreases |replies|
  {
    var d, r := DrainUnfolds(items, replies, h);
    var before := replies[..|replies| - 1];
    if AllClean(before, h) {
      DrainConserves(items, before, h);
      o := UncleanStepLoses(d, r, h);
      assert o in d.accepted + Stream(d.todo);
    } else {
      o := LostStaysLost(items, before, h);
      StepBringsNothing(d, r, h, o);
    }
  }

  /** Exactly when a drain conserves the stream: every answer was clean. */
  lemma DrainConservesIff(items: seq<Item>, replies: seq<Reply>, h: Handlers)
    requires LegalRun(items, replies, h) && Distinct(Stream(items))
    ensures var d := RunDrain(items, replies, h);
            d.accepted + Stream(d.todo) == Stream(items) <==> AllClean(replies, h)
  {
    if AllClean(replies, h) {
      DrainConserves(items, replies, h);
    } else {
      var o := LostStaysLost(items, replies, h);
    }
  }

  /** A hard error in the middle of an item, with errorcb installed: what was written is queued again,
      the rest is not, and the buffer given to errorcb has length 0. */
  lemma HardErrorAfterPartial(d: Drain, r: Reply, h: Handlers)
    requires !d.halted && d.todo != [] && Legal(d.todo[0], r) && 0 < r.written && Fails(r, h)
    ensures var it, e := d.todo[0], Step(d, r, h);
      && e.todo == [Front(it, r.written)] + d.todo[1..]
      && e.calls == d.calls + [DidWrite(Front(it, r.written)), Failed(r.err, it.op, Handed(it.data[r.written..], 0))]
      && e.halted && e.stop
  {
    var it := d.todo[0];
    assert Notice(it, r) + Complaint(it, r, h)
        == [DidWrite(Front(it, r.written)), Failed(r.err, it.op, Handed(it.data[r.written..], 0))];
  }

  /** One byte of two written, then such an error: the kernel has 7, the queue has 7, and 8 is gone. */
  lemma HardErrorLosesByte() returns (items: seq<Item>, replies: seq<Reply>, h: Handlers)
    ensures items == [Item(OpWrite, 0, [7, 8])] && replies == [Reply(1, OtherError(9))] && h == Handlers(true, true)
    ensures LegalRun(items, replies, h)
    ensures var d := RunDrain(items, replies, h);
      d.accepted + Stream(d.todo) == Wire(Item(OpWrite, 0, [7])) + Wire(Item(OpWrite, 0, [7]))
  {
    var it, r := Item(OpWrite, 0, [7, 8]), Reply(1, OtherError(9));
    items, replies, h := [it], [], Handlers(true, true);
    var d := RunDrain(items, replies, h);
    assert d == Drain([it], [], [], false, false);
    DrainExtends(items, replies, r, h);
    replies := replies + [r];
    HardErrorAfterPartial(d, r, h);
    assert [it][1..] == [] && [7, 8][..1] == [7];
    assert Front(it, 1) == Item(OpWrite, 0, [7]);
    StreamOfOne(Item(OpWrite, 0, [7]));
  }
}
