/** The proactor's write path on the heap: the result of one queue item, the drain loop with callbacks that
    write more, and the calls that put data on the queue. */
module WritePath {
  import opened Seqs
  import opened Flags
  import opened WriteSpec
  import opened CallbackSpec
  import opened WriteQueue
  import opened WriteLine
  import opened WriteRecord

  /** One source's side of the proactor: gwprdata, and the flags of the source. `line` is what the queue
      holds; `posted` are the completions of synchronous writes; `allowance` is how many items the
      callbacks of a drain are still going to queue; `missed` are items that were queued and are on no
      list; `marks` is every look at wrqlast. */
  class Conn {
    const pr: Proactor
    const wq: Queue
    const kernel: Kernel
    const h: Handlers
    var flags: set<Flag>
    var calls: seq<Callback>
    var posted: seq<Item>
    var allowance: nat
    ghost var line: Line
    ghost var missed: seq<Item>
    ghost var marks: seq<Mark>

    /** The queue and, apart from it, a list `l` from `q` that has been detached from it. */
    ghost predicate Amid(q: Wrq?, l: Line)
      reads `line, pr, pr.cached, wq, line.nodes, line.bufs, l.nodes, l.bufs
    {
      && pr.Valid() && wq.queued == line.nodes && Held(wq.wrq, line) && Held(q, l) && Separate(l, line)
      && Apart(line.nodes, pr.cached) && Apart(l.nodes, pr.cached)
    }

    ghost predicate Valid()
      reads `line, pr, pr.cached, wq, line.nodes, line.bufs
    {
      Amid(null, NOTHING) && (|line.nodes| >= 2 ==> wq.wrqlast == Last(line.nodes))
    }

    constructor (pr: Proactor, h: Handlers)
      requires pr.Valid()
      ensures Valid() && line == NOTHING && kernel.accepted == [] && kernel.trials == [] && calls == []
      ensures missed == [] && this.pr == pr && this.h == h && fresh(wq) && fresh(kernel) && flags == {RD}
      ensures wq.wrqlast == null && marks == []
    {
      this.pr, this.h, flags, calls, line, missed, marks := pr, h, {RD}, [], NOTHING, [], [];
      posted, allowance := [], 0;
      wq := new Queue();
      kernel := new Kernel();
    }

    // ---- Queueing ----

    /** gwprwrq_get: the node is on no list. */
    method TakeNode(ghost q0: Wrq?, ghost l: Line) returns (q: Wrq)
      requires Amid(q0, l)
      modifies pr, pr.cached
      ensures Amid(q0, l) && q.next == null
      ensures Off(q, line.nodes) && Off(q, l.nodes) && Off(q, pr.cached)
      ensures fresh(q) || q in old(pr.cached)
    {
      ghost var was := pr.cached;
      q := pr.Get();
      assert was != [] ==> pr.cached == was[1..] && was[0] !in was[1..];
      assert Held(wq.wrq, line) == old(Held(wq.wrq, line)) && Held(q0, l) == old(Held(q0, l));
    }

    /** The fields of a new node. peer is set for sendto only, so it may be left over from an earlier use. */
    method Fill(q: Wrq, buf: Buf, op: WriteOp, peer: int) returns (ghost it: Item)
      requires buf.len <= |buf.mem|
      modifies q`buf, q`op, q`peer
      ensures Loaded(q, buf, it) && SameWire(it, op, peer, buf.mem[..buf.len])
    {
      q.buf := buf;
      q.op := op;
      if op == OpSendTo {
        q.peer := peer;
      }
      it := Item(q.op, q.peer, buf.mem[..buf.len]);
    }

    /** gwprwrq_add, when the tail pointer can be used or is the last node of the detached list: the node
        joins the queue in the one case, and that list in the other. It changes links only. */
    method Link(q: Wrq, ghost b: Buf, ghost it: Item, ghost q0: Wrq?, ghost l: Line)
      requires Amid(q0, l) && q.next == null && Loaded(q, b, it)
      requires NewTo(q, b, line) && NewTo(q, b, l) && Off(q, pr.cached)
      requires TailOk(line.nodes, wq.wrqlast) || (l.nodes != [] && wq.wrqlast == Last(l.nodes))
      modifies wq, q`next, line.nodes`next, l.nodes`next
      ensures pr.Valid() && wq.Valid() && Loaded(q, b, it)
      ensures Carries(line.nodes, line.bufs, line.items) && Carries(l.nodes, l.bufs, l.items)
      ensures wq.wrqlast == if line.nodes == [] then old(wq.wrqlast) else q
      ensures if TailOk(line.nodes, old(wq.wrqlast)) then wq.queued == line.nodes + [q] && Chain(q0, l.nodes)
              else wq.queued == line.nodes && Chain(q0, l.nodes + [q])
    {
      wq.AddNear(q, q0, l.nodes);
    }

    method NewNode(buf: Buf, op: WriteOp, peer: int, ghost q0: Wrq?, ghost l: Line) returns (q: Wrq, ghost it: Item)
      requires Amid(q0, l) && buf.len <= |buf.mem|
      modifies pr, pr.cached
      ensures Amid(q0, l) && q.next == null && Loaded(q, buf, it) && SameWire(it, op, peer, buf.mem[..buf.len])
      ensures Off(q, line.nodes) && Off(q, l.nodes) && Off(q, pr.cached)
      ensures fresh(q) || q in old(pr.cached)
    {
      q := TakeNode(q0, l);
      label Taken:
      it := Fill(q, buf, op, peer);
      assert Amid(q0, l) == old@Taken(Amid(q0, l));
    }

    lemma JoinedQueue(q: Wrq, b: Buf, it: Item, q0: Wrq?, k: Line, l: Line)
      requires pr.Valid() && wq.Valid() && Loaded(q, b, it) && NewTo(q, b, k) && NewTo(q, b, l) && Off(q, pr.cached)
      requires Carries(k.nodes, k.bufs, k.items) && Chain(q0, l.nodes) && Carries(l.nodes, l.bufs, l.items)
      requires Separate(l, k) && Apart(k.nodes, pr.cached) && Apart(l.nodes, pr.cached)
      requires line == Snoc(k, q, b, it) && wq.queued == k.nodes + [q]
      ensures Amid(q0, l)
    {
      CarriesSnoc(k, q, b, it);
      ApartSnoc(k.nodes, q, l.nodes);
      ApartSnoc(k.bufs, b, l.bufs);
      ApartSnoc(k.nodes, q, pr.cached);
    }

    /** A node linked to the queue is on record there. */
    ghost method Enlist(q: Wrq, b: Buf, it: Item, q0: Wrq?, l: Line)
      requires pr.Valid() && wq.Valid() && Loaded(q, b, it) && NewTo(q, b, line) && NewTo(q, b, l) && Off(q, pr.cached)
      requires Carries(line.nodes, line.bufs, line.items) && Chain(q0, l.nodes) && Carries(l.nodes, l.bufs, l.items)
      requires Separate(l, line) && Apart(line.nodes, pr.cached) && Apart(l.nodes, pr.cached)
      requires wq.queued == line.nodes + [q]
      modifies `line
      ensures line == Snoc(old(line), q, b, it) && Amid(q0, l)
    {
      ghost var k := line;
      line := Snoc(line, q, b, it);
      JoinedQueue(q, b, it, q0, k, l);
    }

    lemma JoinedDetached(q: Wrq, b: Buf, it: Item, q0: Wrq?, l: Line)
      requires pr.Valid() && wq.Valid() && Loaded(q, b, it) && NewTo(q, b, line) && NewTo(q, b, l) && Off(q, pr.cached)
      requires wq.queued == line.nodes && Carries(line.nodes, line.bufs, line.items)
      requires Chain(q0, l.nodes + [q]) && Carries(l.nodes, l.bufs, l.items)
      requires Separate(l, line) && Apart(line.nodes, pr.cached) && Apart(l.nodes, pr.cached)
      ensures Amid(q0, Snoc(l, q, b, it))
    {
      CarriesSnoc(l, q, b, it);
      ApartSnoc(l.nodes, q, line.nodes);
      ApartSnoc(l.bufs, b, line.bufs);
      ApartSnoc(l.nodes, q, pr.cached);
    }

    method LinkNode(q: Wrq, ghost b: Buf, ghost it: Item, ghost q0: Wrq?, ghost l: Line) returns (ghost l': Line)
      requires Amid(q0, l) && q.next == null && Loaded(q, b, it)
      requires NewTo(q, b, line) && NewTo(q, b, l) && Off(q, pr.cached)
      requires TailOk(line.nodes, wq.wrqlast) || (l.nodes != [] && wq.wrqlast == Last(l.nodes))
      modifies `line, wq, q`next, line.nodes`next, l.nodes`next
      ensures Amid(q0, l') && wq.wrqlast == if old(line.nodes) == [] then old(wq.wrqlast) else q
      ensures if old(TailOk(line.nodes, wq.wrqlast)) then l' == l && line == Snoc(old(line), q, b, it)
              else line == old(line) && l' == Snoc(l, q, b, it)
    {
      ghost var usable := TailOk(line.nodes, wq.wrqlast);
      Link(q, b, it, q0, l);
      if usable {
        l' := l;
        Enlist(q, b, it, q0, l);
      } else {
        l' := Snoc(l, q, b, it);
        JoinedDetached(q, b, it, q0, l);
      }
    }

    /** gwpr_asynchronous_write in these cases. */
    method QueueNear(buf: Buf, op: WriteOp, peer: int, ghost q0: Wrq?, ghost l: Line)
      returns (q: Wrq, ghost it: Item, ghost l': Line)
      requires Amid(q0, l) && buf.len <= |buf.mem| && Off(buf, line.bufs) && Off(buf, l.bufs)
      requires TailOk(line.nodes, wq.wrqlast) || (l.nodes != [] && wq.wrqlast == Last(l.nodes))
      modifies `flags, `line, pr, pr.cached, wq, line.nodes`next, l.nodes`next
      ensures flags == old(flags) + {ENABLED, WR} && SameWire(it, op, peer, buf.mem[..buf.len])
      ensures Amid(q0, l') && wq.wrqlast == if old(line.nodes) == [] then old(wq.wrqlast) else q
      ensures if old(TailOk(line.nodes, wq.wrqlast)) then l' == l && line == Snoc(old(line), q, buf, it)
              else line == old(line) && l' == Snoc(l, q, buf, it)
    {
      flags := flags + {ENABLED, WR};
      q, it := NewNode(buf, op, peer, q0, l);
      l' := LinkNode(q, buf, it, q0, l);
    }

    // ---- Callbacks ----

    ghost predicate TailIn(l: Line, tail: Tail)
      reads `line, wq
    {
      TailAt(line.nodes, wq.wrqlast, l.nodes, tail)
    }

    /** Between the statements of a turn, at the head of `l`. */
    ghost predicate Between(q: Wrq, l: Line, tail: Tail)
      reads `line, pr, pr.cached, wq, line.nodes, line.bufs, l.nodes, l.bufs
    {
      Amid(q, l) && l.nodes != [] && TailIn(l, tail)
    }

    /** The buffer, if there is one, is in neither list. */
    ghost predicate Spare(b: Buf?, l: Line)
      reads `line
    {
      b != null ==> Off(b, l.bufs) && Off(b, line.bufs)
    }

    ghost function Now(): Record
      reads kernel, `calls, `posted, `flags
    {
      Record(kernel.trials, kernel.accepted, posted, calls, flags)
    }

    /** The scene is set: nothing has happened in it. */
    ghost predicate Ready(k: Scene)
      reads kernel, `calls, `posted, `flags, `allowance, `line, pr, pr.cached, wq, line.nodes, line.bufs
      reads k.l.nodes, k.l.bufs
    {
      && Between(k.q, k.l, k.tail) && Spare(k.spare, k.l) && k.added == line.items
      && k.was == Now() && k.allowed == allowance
    }

    /** The lists in the middle of a callback that has done `d`. */
    ghost predicate Placed(k: Scene, d: Deed)
      reads `line, pr, pr.cached, wq, line.nodes, line.bufs, d.l.nodes, d.l.bufs
    {
      Between(k.q, d.l, k.tail) && Spare(k.spare, d.l) && Spread(k, line.items, d)
    }

    ghost predicate Calling(k: Scene, d: Deed)
      reads kernel, `calls, `posted, `flags, `allowance, `line, pr, pr.cached, wq, line.nodes, line.bufs
      reads d.l.nodes, d.l.bufs
    {
      && Placed(k, d) && DeedRecord(k.was, Now(), d) && allowance + |d.queued| == k.allowed
      && (d.direct != [] ==> k.added == [])
    }

    ghost function ListsNow(l: Line): Lists
      reads `line, wq
    {
      Lists(line, wq.wrqlast, l)
    }

    /** A buffer for it, on the account of the callbacks. */
    method NewData(data: seq<Byte>, ghost q0: Wrq, ghost l: Line) returns (buf: Buf)
      requires Amid(q0, l) && allowance > 0
      modifies `allowance
      ensures Amid(q0, l) && fresh(buf) && buf.len == |data| && buf.mem == data && allowance == old(allowance) - 1
      ensures Off(buf, line.bufs) && Off(buf, l.bufs) && Now() == old(Now()) && ListsNow(l) == old(ListsNow(l))
    {
      allowance := allowance - 1;
      buf := new Buf(data, |data|);
      assert Amid(q0, l) == old(Amid(q0, l));
    }

    /** Some data to be queued while the list `l` is detached. */
    method QueueData(a: Ask, ghost q0: Wrq, ghost l: Line)
      returns (q: Wrq, buf: Buf, ghost it: Item, ghost l': Line)
      requires Amid(q0, l) && (TailOk(line.nodes, wq.wrqlast) || (l.nodes != [] && wq.wrqlast == Last(l.nodes)))
      requires allowance > 0
      modifies `flags, `allowance, `line, pr, pr.cached, wq, line.nodes`next, l.nodes`next
      ensures Amid(q0, l') && fresh(buf) && AddedBy(old(ListsNow(l)), ListsNow(l'), q, buf, it) && Meets(it, a)
      ensures Now() == old(Now()).(flags := old(flags) + {ENABLED, WR}) && allowance == old(allowance) - 1
    {
      buf := NewData(a.data, q0, l);
      q, it, l' := QueueNear(buf, a.op, a.peer, q0, l);
    }

    lemma PlacedNow(k: Scene, d: Deed, e: Deed, was: Lists, q: Wrq, b: Buf, it: Item)
      requires AddedBy(was, ListsNow(e.l), q, b, it) && d.l == was.detached && Spread(k, was.queue.items, d)
      requires TailAt(was.queue.nodes, was.last, was.detached.nodes, k.tail) && was.detached.nodes != []
      requires Even(was.queue) && Even(was.detached) && (k.tail == Wrong ==> was.queue.nodes == [])
      requires k.spare != b && (k.spare != null ==> Off(k.spare, was.queue.bufs) && Off(k.spare, was.detached.bufs))
      requires Amid(k.q, e.l) && e == Deed(e.l, d.direct, d.queued + [it])
      ensures Placed(k, e)
    {
      AddGoesBy(k, d, was, ListsNow(e.l), q, b, it);
      StaysSpare(k.spare, was, ListsNow(e.l), q, b, it);
    }

    /** One write queued by a callback. */
    method QueueOne(a: Ask, ghost k: Scene, ghost d: Deed) returns (ghost e: Deed, ghost it: Item)
      requires Placed(k, d) && (k.tail == Wrong ==> line.nodes == []) && allowance > 0
      modifies `flags, `allowance, `line, pr, pr.cached, wq, line.nodes`next, d.l.nodes`next
      ensures Placed(k, e) && e.direct == d.direct && e.queued == d.queued + [it] && Meets(it, a)
      ensures Now() == old(Now()).(flags := old(flags) + {ENABLED, WR}) && allowance == old(allowance) - 1
    {
      ghost var was := ListsNow(d.l);
      assert Even(line) && Even(d.l);
      var q, buf;
      ghost var l;
      q, buf, it, l := QueueData(a, k.q, d.l);
      e := Deed(l, d.direct, d.queued + [it]);
      PlacedNow(k, d, e, was, q, buf, it);
    }

    method TakeWhole(buf: Buf, op: WriteOp, peer: int) returns (r: Reply)
      requires buf.len <= |buf.mem|
      modifies kernel
      ensures var it := Item(op, peer, buf.mem[..buf.len]);
        && kernel.accepted == old(kernel.accepted) + Wire(it) && old(kernel.trials) <= kernel.trials
        && Took(it, kernel.trials[|old(kernel.trials)|..], |it.data|)
    {
      ghost var it := Item(op, peer, buf.mem[..buf.len]);
      r := WriteBuffer(kernel, buf, op, peer, true, it);
      assert Front(it, |it.data|) == it;
    }

    /** The completion: a node for the buffer, reported and not queued. There is no peer but for sendto. */
    method Complete(buf: Buf, op: WriteOp, peer: int, ghost q0: Wrq?, ghost l: Line)
      requires Amid(q0, l) && buf.len <= |buf.mem|
      modifies `posted, pr, pr.cached
      ensures Amid(q0, l)
      ensures posted == old(posted) + [Item(op, if op == OpSendTo then peer else 0, buf.mem[..buf.len])]
    {
      var q;
      ghost var it;
      q, it := NewNode(buf, op, peer, q0, l);
      label Noded:
      posted := posted + [Item(q.op, if q.op == OpSendTo then q.peer else 0, q.buf.mem[..q.buf.len])];
      assert Amid(q0, l) == old@Noded(Amid(q0, l));
    }

    /** gwpr_synchronous_write, when the kernel takes the whole buffer: its completion is posted, and the
        lists stay as they are. */
    method AcceptWhole(buf: Buf, op: WriteOp, peer: int, ghost q0: Wrq?, ghost l: Line) returns (ghost it: Item)
      requires Amid(q0, l) && buf.len <= |buf.mem|
      modifies `posted, kernel, pr, pr.cached
      ensures Amid(q0, l) && SameWire(it, op, peer, buf.mem[..buf.len]) && posted == old(posted) + [it]
      ensures kernel.accepted == old(kernel.accepted) + Wire(it) && old(kernel.trials) <= kernel.trials
      ensures Took(it, kernel.trials[|old(kernel.trials)|..], |it.data|)
    {
      var r := TakeWhole(buf, op, if op == OpSendTo then peer else 0);
      it := Item(op, if op == OpSendTo then peer else 0, buf.mem[..buf.len]);
      assert Amid(q0, l) == old(Amid(q0, l));
      Complete(buf, op, peer, q0, l);
    }

    /** A callback's write that goes straight to the kernel. */
    method WriteDirect(a: Ask, ghost k: Scene, ghost l: Line) returns (ghost it: Item)
      requires Between(k.q, l, k.tail) && Spare(k.spare, l)
      modifies `posted, kernel, pr, pr.cached
      ensures Between(k.q, l, k.tail) && Spare(k.spare, l) && posted == old(posted) + [it] && Meets(it, a)
      ensures kernel.accepted == old(kernel.accepted) + Wire(it) && old(kernel.trials) <= kernel.trials
      ensures Took(it, kernel.trials[|old(kernel.trials)|..], |it.data|)
    {
      var buf := new Buf(a.data, |a.data|);
      assert buf.mem[..buf.len] == a.data;
      it := AcceptWhole(buf, a.op, a.peer, k.q, l);
    }

    /** One more of these, with nothing in the new queue. */
    method DirectAnother(a: Ask, ghost k: Scene, ghost d: Deed) returns (ghost e: Deed)
      requires Calling(k, d) && wq.wrq == null
      modifies `posted, kernel, pr, pr.cached
      ensures Calling(k, e) && e.l == d.l && Serves(d, e, a) && |e.direct| == |d.direct| + 1
    {
      ghost var mid := Now();
      assert line.items == [] && d.queued == [];
      ghost var it := WriteDirect(a, k, d.l);
      e := d.(direct := d.direct + [it]);
      ServedDirect(d, it, a);
      DirectOnRecord(k.was, mid, Now(), d, it);
    }

    method QueueAnother(a: Ask, quiet: bool, ghost k: Scene, ghost d: Deed) returns (ghost e: Deed)
      requires Calling(k, d) && (quiet <==> k.tail == Wrong)
      requires allowance > 0 && (quiet ==> wq.wrq == null)
      modifies `flags, `allowance, `line, pr, pr.cached, wq, line.nodes`next, d.l.nodes`next
      ensures Calling(k, e) && Serves(d, e, a) && e.direct == d.direct
    {
      ghost var mid := Now();
      ghost var it;
      e, it := QueueOne(a, k, d);
      ServedQueued(d, e, it, a);
      QueuedOnRecord(k.was, mid, Now(), d, e);
    }

    /** One write of a callback: directly if nothing is queued, and else on the queue, if the callback may still
        queue anything. */
    method WriteAnother(a: Ask, quiet: bool, ghost k: Scene, ghost d: Deed) returns (ghost e: Deed)
      requires Calling(k, d) && (quiet <==> k.tail == Wrong)
      modifies `posted, kernel, `flags, `allowance, `line, pr, pr.cached, wq, line.nodes`next, d.l.nodes`next
      ensures Calling(k, e)
      ensures if old(wq.wrq) == null && a.direct then Serves(d, e, a) && |e.direct| == |d.direct| + 1
              else if old(allowance) > 0 && (!quiet || old(wq.wrq) == null) then Serves(d, e, a) && e.direct == d.direct
              else e == d
      ensures allowance <= old(allowance)
    {
      e := d;
      if wq.wrq == null && a.direct {
        e := DirectAnother(a, k, d);
      } else if allowance > 0 && (!quiet || wq.wrq == null) {
        e := QueueAnother(a, quiet, k, d);
      }
    }

    /** The call of it. */
    method Report(done: Item, ghost k: Scene) returns (ghost d: Deed)
      requires Ready(k)
      modifies `calls
      ensures d == Deed(k.l, [], []) && Calling(Reported(k, [DidWrite(done)]), d)
    {
      calls := calls + [DidWrite(done)];
      assert Between(k.q, k.l, k.tail) == old(Between(k.q, k.l, k.tail));
      d := Deed(k.l, [], []);
      CallingYet(Reported(k, [DidWrite(done)]));
    }

    /** The i-th write of a callback. */
    method ServeAsk(asks: seq<Ask>, i: nat, quiet: bool, ghost k: Scene, ghost d: Deed) returns (ghost e: Deed)
      requires Calling(k, d) && (quiet <==> k.tail == Wrong)
      requires i < |asks| && Served(asks[..i], d, !quiet && allowance > 0)
      modifies `posted, kernel, `flags, `allowance, `line, pr, pr.cached, wq, line.nodes`next, d.l.nodes`next
      ensures Calling(k, e) && Served(asks[..i + 1], e, !quiet && allowance > 0)
    {
      ghost var was := !quiet && allowance > 0;
      e := WriteAnother(asks[i], quiet, k, d);
      OneMoreAsked(asks, i, d, e, was, !quiet && allowance > 0);
    }

    method ServeAll(asks: seq<Ask>, quiet: bool, ghost k: Scene, ghost d0: Deed) returns (ghost d: Deed)
      requires Calling(k, d0) && Written(d0) == [] && (quiet <==> k.tail == Wrong)
      modifies `posted, kernel, `flags, `allowance, `line, pr, wq, (set n: Wrq {:trigger n.next} | true)
      ensures Calling(k, d) && Served(asks, d, !quiet && allowance > 0)
    {
      d := d0;
      for i := 0 to |asks|
        invariant Calling(k, d) && Served(asks[..i], d, !quiet && allowance > 0)
      {
        d := ServeAsk(asks, i, quiet, k, d);
      }
      assert asks[..|asks|] == asks;
    }

    /** A did-write callback: it makes any number of writes, each of which may be tried directly if the
        queue is empty. With a tail pointer that points nowhere near (`quiet`) it queues one at most. What it
        asks for it gets, in order, as long as it may queue more. */
    method Callback(done: Item, quiet: bool, ghost k: Scene) returns (asks: seq<Ask>, ghost d: Deed)
      requires Ready(k) && (quiet <==> k.tail == Wrong)
      modifies `posted, kernel, `flags, `calls, `allowance, `line, pr, wq, (set n: Wrq {:trigger n.next} | true)
      ensures Calling(Reported(k, [DidWrite(done)]), d)
      ensures Served(asks, d, !quiet && allowance > 0)
    {
      d := Report(done, k);
      asks := *;
      d := ServeAll(asks, quiet, Reported(k, [DidWrite(done)]), d);
    }

    /** The scene with the callback on record. */
    ghost function Reported(k: Scene, notice: seq<Callback>): Scene { k.(was := k.was.(calls := k.was.calls + notice)) }

    lemma CallingYet(k: Scene)
      requires Ready(k)
      ensures Calling(k, Deed(k.l, [], []))
    {
      NothingOnRecord(k.was, k.l);
    }

    // ---- Writing ----

    /** The line with its first item cut to what was written. */
    ghost function CutLine(l: Line, r: Reply): Line
      requires l.items != [] && Plausible(l.items[0], r)
    {
      l.(items := [Cut(l.items[0], r)] + l.items[1..])
    }

    /** What a partial write leaves is in a buffer of its own, whose len has not been set. */
    ghost predicate Leaves(it: Item, r: Reply, remain: nat, rembuf: Buf?)
      requires Plausible(it, r)
      reads if rembuf == null then {} else {rembuf}
    {
      && remain == (if Partial(it, r) then |it.data| - r.written else 0)
      && (remain > 0 ==> rembuf != null && rembuf.mem == it.data[r.written..] && rembuf.len == 0)
    }

    /** After a partial write: what was not written is copied to a new buffer, whose len stays 0 for now,
        and the old one is cut. */
    method CutBuffer(q: Wrq, r: Reply, ghost b: Buf, ghost it: Item) returns (remain: nat, rembuf: Buf?)
      requires Loaded(q, b, it) && Plausible(it, r)
      modifies b`len
      ensures Leaves(it, r, remain, rembuf) && (rembuf == null || fresh(rembuf))
      ensures Loaded(q, b, Cut(it, r))
    {
      remain, rembuf := 0, null;
      if r.written > 0 && r.written < q.buf.len {
        remain := q.buf.len - r.written;
        rembuf := new Buf(q.buf.mem[r.written..q.buf.len], 0);
        q.buf.len := r.written;
        assert q.buf.mem[..r.written] == it.data[..r.written];
      }
    }

    method CutHead(q: Wrq, r: Reply, ghost l: Line, ghost tail: Tail) returns (remain: nat, rembuf: Buf?)
      requires Between(q, l, tail) && Plausible(l.items[0], r)
      modifies {l.bufs[0]}`len
      ensures Between(q, CutLine(l, r), tail) && Spare(rembuf, l) && (rembuf == null || fresh(rembuf))
      ensures Leaves(l.items[0], r, remain, rembuf)
    {
      HeldTail(q, l);
      remain, rembuf := CutBuffer(q, r, l.bufs[0], l.items[0]);
      HeldCons(q, l.bufs[0], Cut(l.items[0], r), Rest(l));
      assert Held(wq.wrq, line) == old(Held(wq.wrq, line));
    }

    /** The scene after a partial write has been cut. */
    ghost function CutScene(k: Scene, r: Reply, rembuf: Buf?): Scene
      requires k.l.items != [] && Plausible(k.l.items[0], r)
    {
      k.(l := CutLine(k.l, r), spare := rembuf)
    }

    /** The scene after the did-write callback, if there was one, has been put on record. */
    ghost function Told(k: Scene, r: Reply, rembuf: Buf?): Scene
      requires k.l.items != [] && Plausible(k.l.items[0], r)
    {
      Reported(CutScene(k, r, rembuf), Notice(k.l.items[0], r))
    }

    method CutReady(q: Wrq, r: Reply, ghost k: Scene) returns (remain: nat, rembuf: Buf?)
      requires Ready(k) && q == k.q && Plausible(k.l.items[0], r)
      modifies {k.l.bufs[0]}`len
      ensures Ready(CutScene(k, r, rembuf)) && (rembuf == null || fresh(rembuf))
      ensures Leaves(k.l.items[0], r, remain, rembuf)
    {
      remain, rembuf := CutHead(q, r, k.l, k.tail);
    }

    method Tell(q: Wrq, written: nat, quiet: bool, ghost k: Scene) returns (ghost d: Deed)
      requires Ready(k) && q == k.q && (quiet <==> k.tail == Wrong)
      modifies `posted, kernel, `flags, `calls, `allowance, `line, pr, wq, (set n: Wrq {:trigger n.next} | true)
      ensures var notice := if written == |k.l.items[0].data| then [DidWrite(k.l.items[0])] else [];
        Calling(Reported(k, notice), d) && (d.direct + d.queued != [] ==> notice != [])
    {
      HeldTail(q, k.l);
      d := Deed(k.l, [], []);
      if written == q.buf.len {
        var asks;
        asks, d := Callback(Item(q.op, q.peer, q.buf.mem[..q.buf.len]), quiet, k);
      } else {
        assert k.was.calls + [] == k.was.calls;
        CallingYet(k);
      }
    }

    lemma TellsNotice(k: Scene, c: Scene, r: Reply, rembuf: Buf?)
      requires k.l.items != [] && Plausible(k.l.items[0], r) && c == CutScene(k, r, rembuf)
      ensures var notice := if r.written == |c.l.items[0].data| then [DidWrite(c.l.items[0])] else [];
        notice == Notice(k.l.items[0], r) && Reported(c, notice) == Told(k, r, rembuf)
    {
      NoticeOfCut(k.l.items[0], r);
    }

    /** The first part of gwpr_src_activity_write_qitem_result: an item written whole or in part is
        reported. */
    method Notify(q: Wrq, r: Reply, quiet: bool, ghost k: Scene) returns (remain: nat, rembuf: Buf?, ghost d: Deed)
      requires Ready(k) && q == k.q && Plausible(k.l.items[0], r) && (quiet <==> k.tail == Wrong)
      modifies `posted, kernel, `flags, `calls, `allowance, `line, pr, wq, (set n: Wrq {:trigger n.next} | true)
      modifies {k.l.bufs[0]}`len
      ensures Calling(Told(k, r, rembuf), d) && (rembuf == null || fresh(rembuf))
      ensures Leaves(k.l.items[0], r, remain, rembuf)
      ensures d.direct + d.queued != [] ==> Notice(k.l.items[0], r) != []
    {
      remain, rembuf := CutReady(q, r, k);
      ghost var c := CutScene(k, r, rembuf);
      TellsNotice(k, c, r, rembuf);
      label Cut:
      d := Tell(q, r.written, quiet, c);
      assert Leaves(k.l.items[0], r, remain, rembuf) == old@Cut(Leaves(k.l.items[0], r, remain, rembuf));
    }

    // ---- Putting back ----

    /** A list `k` has been put back in front of the queue, which held `l`. */
    ghost predicate PutBack(k: Line, l: Line, last: Wrq?)
      reads `line, pr, pr.cached, wq, line.nodes, line.bufs
    {
      && Amid(null, NOTHING) && line == Join(k, l)
      && (if l.nodes == [] then wq.wrqlast == last else TailExact(line.nodes, wq.wrqlast))
    }

    lemma Alone()
      requires pr.Valid() && wq.Valid() && wq.queued == line.nodes && Apart(line.nodes, pr.cached)
      requires Carries(line.nodes, line.bufs, line.items)
      ensures Amid(null, NOTHING)
    {
    }

    /** gwprwrq_putback changes links only. */
    method PutbackNodes(q: Wrq, ghost l: Line)
      requires Amid(q, l) && l.nodes != []
      modifies wq, l.nodes`next, line.nodes`next
      ensures pr.Valid() && wq.Valid() && wq.queued == l.nodes + line.nodes
      ensures Carries(line.nodes, line.bufs, line.items) && Carries(l.nodes, l.bufs, l.items)
      ensures if line.nodes == [] then wq.wrqlast == old(wq.wrqlast) else TailExact(wq.queued, wq.wrqlast)
    {
      wq.Putback(q, l.nodes);
    }

    /** The detached list goes back as it is. */
    method KeepItem(q: Wrq, ghost l: Line)
      requires Amid(q, l) && l.nodes != []
      modifies `line, wq, l.nodes`next, line.nodes`next
      ensures PutBack(l, old(line), old(wq.wrqlast))
    {
      ApartConcat(l.nodes, line.nodes, pr.cached);
      PutbackNodes(q, l);
      CarriesJoin(l, line);
      line := Join(l, line);
      Alone();
    }

    method CopyFields(q: Wrq, rembufq: Wrq, rembuf: Buf, remain: nat)
      requires q != rembufq
      modifies rembufq, rembuf`len
      ensures rembufq.peer == q.peer && rembufq.op == q.op && rembufq.next == q.next && rembufq.buf == rembuf
      ensures rembuf.len == remain
    {
      rembufq.peer := q.peer;
      rembuf.len := remain;
      rembufq.buf := rembuf;
      rembufq.op := q.op;
      rembufq.next := q.next;
    }

    /** The node for what is left of a partly written item. */
    method FillRest(q: Wrq, rembufq: Wrq, rembuf: Buf, remain: nat, ghost l: Line)
      requires Amid(q, l) && Spare(rembuf, l) && |rembuf.mem| == remain
      requires Off(rembufq, line.nodes) && Off(rembufq, l.nodes) && Off(rembufq, pr.cached) && rembufq != q
      modifies rembufq, rembuf`len
      ensures Amid(q, l) && rembufq.next == q.next
      ensures Loaded(rembufq, rembuf, Item(q.op, q.peer, rembuf.mem))
    {
      CopyFields(q, rembufq, rembuf, remain);
      assert Amid(q, l) == old(Amid(q, l));
    }

    lemma RestInPlace(q: Wrq, rembufq: Wrq, rembuf: Buf, it: Item, l: Line)
      requires Amid(q, l) && l.nodes != [] && Spare(rembuf, l) && rembufq.next == q.next && Loaded(rembufq, rembuf, it)
      requires Off(rembufq, line.nodes) && Off(rembufq, l.nodes) && Off(rembufq, pr.cached)
      ensures Amid(rembufq, Cons(rembufq, rembuf, it, Rest(l)))
    {
      HeldTail(q, l);
      HeldCons(rembufq, rembuf, it, Rest(l));
      SeparateCons(rembufq, rembuf, it, l, line);
    }

    /** The detached list with a new node in the place of its first one. */
    method CopyRest(q: Wrq, rembuf: Buf, remain: nat, ghost it: Item, ghost l: Line)
      returns (rembufq: Wrq, ghost k: Line)
      requires Amid(q, l) && l.nodes != [] && Spare(rembuf, l)
      requires |rembuf.mem| == remain && it == Item(q.op, q.peer, rembuf.mem)
      modifies pr, rembuf`len, pr.cached
      ensures Amid(rembufq, k) && k.nodes == [rembufq] + l.nodes[1..] && k.items == [it] + l.items[1..] && rembufq != q
      ensures fresh(rembufq) || rembufq in old(pr.cached)
    {
      rembufq := TakeNode(q, l);
      assert l.nodes[0] == q;
      FillRest(q, rembufq, rembuf, remain, l);
      k := Cons(rembufq, rembuf, it, Rest(l));
      RestInPlace(q, rembufq, rembuf, it, l);
    }

    // ---- The result of an item ----

    /** The detached list `l` has been put back in front of `line0`, holding `its`; its first node is a
        new one if the rest of an item was copied. */
    ghost predicate Restored(q: Wrq, l: Line, its: seq<Item>, copied: bool, line0: Line, last0: Wrq?)
      requires l.nodes != []
      reads `line, pr, pr.cached, wq, line.nodes, line.bufs
    {
      && Amid(null, NOTHING) && line.items == its + line0.items
      && |line.nodes| == |l.nodes| + |line0.nodes| && line.nodes[1..] == (l.nodes + line0.nodes)[1..]
      && (line.nodes[0] == q <==> !copied)
      && (if line0.nodes == [] then wq.wrqlast == last0 else TailExact(line.nodes, wq.wrqlast))
    }

    /** The detached list `l`, whose first item was `it`, after the result of that item: still there, or
        put back. */
    ghost predicate Outcome(q: Wrq, l: Line, it: Item, r: Reply, again: bool, line0: Line, last0: Wrq?)
      requires l.nodes != [] && l.items != [] && Plausible(it, r)
      reads `line, pr, pr.cached, wq, line.nodes, line.bufs, l.nodes, l.bufs
    {
      if again then Amid(q, l) && line == line0 && wq.wrqlast == last0
      else Restored(q, l, Kept([it] + l.items[1..], r), Copied(it, r), line0, last0)
    }

    lemma RestoredIf(q: Wrq, l: Line, k: Line, copied: bool, line0: Line, last0: Wrq?)
      requires PutBack(k, line0, last0) && l.nodes != [] && l.nodes[0] == q && Even(k)
      requires if copied then k.nodes != [] && k.nodes[0] != q
                 && k.nodes == [k.nodes[0]] + l.nodes[1..] else k.nodes == l.nodes
      ensures Restored(q, l, k.items, copied, line0, last0)
    {
      assert (l.nodes + line0.nodes)[1..] == l.nodes[1..] + line0.nodes;
      assert (k.nodes + line0.nodes)[1..] == k.nodes[1..] + line0.nodes;
    }

    method KeepWhole(q: Wrq, ghost l: Line)
      requires Amid(q, l) && l.nodes != []
      modifies `line, wq, l.nodes`next, line.nodes`next
      ensures Restored(q, l, l.items, false, old(line), old(wq.wrqlast))
    {
      assert Even(l) && l.nodes[0] == q;
      KeepItem(q, l);
      RestoredIf(q, l, l, false, old(line), old(wq.wrqlast));
    }

    method KeepRest(q: Wrq, rembuf: Buf, remain: nat, ghost it: Item, ghost l: Line)
      requires Amid(q, l) && l.nodes != [] && Spare(rembuf, l)
      requires |rembuf.mem| == remain && it == Item(q.op, q.peer, rembuf.mem)
      modifies `line, wq, pr, pr.cached, l.nodes`next, line.nodes`next, rembuf`len
      ensures Restored(q, l, [it] + l.items[1..], true, old(line), old(wq.wrqlast))
    {
      var rembufq;
      ghost var k;
      rembufq, k := CopyRest(q, rembuf, remain, it, l);
      assert Even(k) && l.nodes[0] == q && forall i :: 0 < i < |k.nodes| ==> k.nodes[i] == l.nodes[i];
      KeepItem(rembufq, k);
      RestoredIf(q, l, k, true, old(line), old(wq.wrqlast));
    }

    /** The two cases of gwpr_src_activity_write_qitem_result in which writing goes on later. */
    method KeepForLater(q: Wrq, r: Reply, remain: nat, rembuf: Buf?, ghost it: Item, ghost l: Line)
      returns (handled: bool)
      requires Amid(q, l) && l.nodes != [] && Spare(rembuf, l) && Plausible(it, r) && l.items[0] == Cut(it, r)
      requires Leaves(it, r, remain, rembuf)
      modifies `line, wq, pr, pr.cached, l.nodes`next, line.nodes`next, (if rembuf == null then {} else {rembuf})`len
      ensures handled == Keeps(it, r)
      ensures Outcome(q, l, it, r, !handled, old(line), old(wq.wrqlast))
      ensures !handled ==> Leaves(it, r, remain, rembuf)
    {
      HeldTail(q, l);
      handled := false;
      if remain > 0 && (r.err == NoError || Blocked(r.err)) {
        handled := true;
        KeepRest(q, rembuf, remain, Back(it, r.written), l);
      }
      if r.written == 0 && Blocked(r.err) {
        handled := true;
        KeepWhole(q, l);
        assert l.items == [it] + l.items[1..];
      }
    }

    /** A closed descriptor. */
    method TellClosed(remain: nat, rembuf: Buf?, ghost it: Item, ghost r: Reply)
      requires Plausible(it, r) && Hangup(r.err) && Leaves(it, r, remain, rembuf)
      modifies `calls
      ensures calls == old(calls) + Complaint(it, r, h)
    {
      if h.closedcb {
        calls := calls + [Closed(if remain > 0 then [Handed(rembuf.mem, rembuf.len)] else [])];
      }
    }

    /** An error for errorcb, after which the list goes back and write events are to be shut off. */
    method Fail(q: Wrq, r: Reply, remain: nat, rembuf: Buf?, ghost it: Item, ghost l: Line)
      requires Plausible(it, r) && Fails(r, h) && Leaves(it, r, remain, rembuf)
      requires Amid(q, l) && l.nodes != [] && l.items[0] == Cut(it, r)
      modifies `calls, `line, wq, l.nodes`next, line.nodes`next
      ensures calls == old(calls) + Complaint(it, r, h)
      ensures Restored(q, l, l.items, false, old(line), old(wq.wrqlast))
    {
      HeldTail(q, l);
      assert remain == 0 ==> q.buf.mem[..q.buf.len] == it.data;
      calls := calls + [Failed(r.err, q.op, if remain > 0 then Handed(rembuf.mem, rembuf.len)
                                            else Handed(q.buf.mem[..q.buf.len], q.buf.len))];
      KeepWhole(q, l);
    }

    /** The rest of gwpr_src_activity_write_qitem_result: a closed descriptor or an error is reported. */
    method Complain(q: Wrq, r: Reply, kept: bool, remain: nat, rembuf: Buf?, ghost it: Item, ghost l: Line,
                    ghost line0: Line, ghost last0: Wrq?)
      returns (again: bool, stop: bool)
      requires l.nodes != [] && l.items != [] && Plausible(it, r) && kept == Keeps(it, r) && l.items[0] == Cut(it, r)
      requires Outcome(q, l, it, r, !kept, line0, last0) && (Leaves(it, r, remain, rembuf) || kept)
      modifies `calls, `line, wq, (set n: Wrq {:trigger n.next} | true)
      ensures calls == old(calls) + Complaint(it, r, h)
      ensures stop == Fails(r, h) && again == GoesOn(it, r, h) && Outcome(q, l, it, r, again, line0, last0)
    {
      var handled := kept;
      if Hangup(r.err) {
        handled := true;
        TellClosed(remain, rembuf, it, r);
      }
      stop := !handled && r.err != NoError && h.errorcb;
      if stop {
        assert l.items == [l.items[0]] + l.items[1..];
        Fail(q, r, remain, rembuf, it, l);
      }
      again := !kept && !stop;
    }

    /** Everything after the didwritecb call. */
    method Settle(q: Wrq, r: Reply, remain: nat, rembuf: Buf?, ghost it: Item, ghost l: Line)
      returns (again: bool, stop: bool)
      requires Amid(q, l) && l.nodes != [] && Spare(rembuf, l) && Plausible(it, r) && l.items[0] == Cut(it, r)
      requires Leaves(it, r, remain, rembuf)
      modifies `calls, `line, wq, pr, (set n: Wrq {:trigger n.next} | true)
      modifies (if rembuf == null then {} else {rembuf})`len
      ensures calls == old(calls) + Complaint(it, r, h)
      ensures stop == Fails(r, h) && again == GoesOn(it, r, h)
      ensures Outcome(q, l, it, r, again, old(line), old(wq.wrqlast))
    {
      var kept := KeepForLater(q, r, remain, rembuf, it, l);
      again, stop := Complain(q, r, kept, remain, rembuf, it, l, old(line), old(wq.wrqlast));
    }

    // ---- One turn of the drain ----

    /** The drain has ended early: the queue is whole again. A single node left is the one the tail
        pointer stands for unless it is a copy. */
    ghost predicate Halted(tail: Tail, copied: bool)
      reads `line, pr, pr.cached, wq, line.nodes, line.bufs
    {
      && Valid() && line.nodes != []
      && (|line.nodes| == 1 && tail == Right ==> (TailOk(line.nodes, wq.wrqlast) <==> !copied))
    }

    lemma HaltedIf(q: Wrq, l: Line, its: seq<Item>, copied: bool, line0: Line, last0: Wrq?, tail: Tail)
      requires l.nodes != [] && l.nodes[0] == q && Restored(q, l, its, copied, line0, last0)
      requires TailAt(line0.nodes, last0, l.nodes, tail)
      ensures Halted(tail, copied)
    {
      if line0.nodes == [] {
        assert l.nodes + line0.nodes == l.nodes;
        if |l.nodes| >= 2 {
          SameLast(line.nodes, l.nodes);
        }
      }
    }

    method SettleTurn(q: Wrq, r: Reply, remain: nat, rembuf: Buf?, ghost it: Item, ghost l: Line, ghost tail: Tail)
      returns (again: bool, stop: bool)
      requires Between(q, l, tail) && Spare(rembuf, l) && Plausible(it, r) && l.items[0] == Cut(it, r)
      requires Leaves(it, r, remain, rembuf)
      modifies `calls, `line, wq, pr, (set n: Wrq {:trigger n.next} | true)
      modifies (if rembuf == null then {} else {rembuf})`len
      ensures calls == old(calls) + Complaint(it, r, h)
      ensures stop == Fails(r, h) && again == GoesOn(it, r, h)
      ensures again ==> Between(q, l, tail) && line == old(line)
      ensures !again ==>
                && Halted(tail, Copied(it, r))
                && line.items == Kept([it] + l.items[1..], r) + old(line.items)
    {
      HeldTail(q, l);
      again, stop := Settle(q, r, remain, rembuf, it, l);
      if !again {
        HaltedIf(q, l, Kept([it] + l.items[1..], r), Copied(it, r), old(line), old(wq.wrqlast), tail);
      }
    }

    /** What the result of the item at the head, whose callback did `d`, makes of the lists. */
    ghost predicate Result(k: Scene, r: Reply, d: Deed, again: bool)
      requires k.l.items != [] && Plausible(k.l.items[0], r)
      reads `line, pr, pr.cached, wq, line.nodes, line.bufs, d.l.nodes, d.l.bufs
    {
      var strays, added := Strays(k.added, d.queued, k.tail), Added(k.added, d.queued, k.tail);
      if again then
        && Between(k.q, d.l, k.tail) && k.l.nodes <= d.l.nodes && line.items == added
        && d.l.items[1..] == k.l.items[1..] + strays
      else
        Halted(k.tail, Copied(k.l.items[0], r)) && line.items == Kept(k.l.items + strays, r) + added
    }

    /** What follows the callback, on the lists. */
    method AfterCallback(q: Wrq, r: Reply, remain: nat, rembuf: Buf?, ghost k: Scene, ghost d: Deed)
      returns (again: bool, stop: bool)
      requires k.l.items != [] && Plausible(k.l.items[0], r) && q == k.q && Placed(Told(k, r, rembuf), d)
      requires Leaves(k.l.items[0], r, remain, rembuf)
      modifies `calls, `line, wq, pr, (set n: Wrq {:trigger n.next} | true)
      modifies (if rembuf == null then {} else {rembuf})`len
      ensures calls == old(calls) + Complaint(k.l.items[0], r, h)
      ensures stop == Fails(r, h) && again == GoesOn(k.l.items[0], r, h) && Result(k, r, d, again)
    {
      CutAndStrays(k.l.items, Cut(k.l.items[0], r), Strays(k.added, d.queued, k.tail));
      again, stop := SettleTurn(q, r, remain, rembuf, k.l.items[0], d.l, k.tail);
    }

    /** What follows the callback, on lists and records. */
    method Conclude(q: Wrq, r: Reply, remain: nat, rembuf: Buf?, ghost k: Scene, ghost d: Deed)
      returns (again: bool, stop: bool)
      requires k.l.items != [] && Plausible(k.l.items[0], r) && q == k.q && Calling(Told(k, r, rembuf), d)
      requires Leaves(k.l.items[0], r, remain, rembuf)
      requires d.direct + d.queued != [] ==> Notice(k.l.items[0], r) != []
      modifies `calls, `line, wq, pr, (set n: Wrq {:trigger n.next} | true)
      modifies (if rembuf == null then {} else {rembuf})`len
      ensures stop == Fails(r, h) && again == GoesOn(k.l.items[0], r, h) && Result(k, r, d, again)
      ensures ResultRecord(k, k.l.items[0], r, h, Now(), d) && allowance + |d.queued| == k.allowed
    {
      ghost var mid, notice := Now(), Notice(k.l.items[0], r);
      again, stop := AfterCallback(q, r, remain, rembuf, k, d);
      Associates(k.was.calls, notice, Complaint(k.l.items[0], r, h));
      CallsOnRecord(k.was, mid, Now(), d, k.was.calls + notice, calls);
    }

    /** gwpr_src_activity_write_qitem_result, for the head of the detached list. */
    method WriteItemResult(q: Wrq, r: Reply, quiet: bool, ghost k: Scene)
      returns (again: bool, stop: bool, ghost d: Deed)
      requires Ready(k) && q == k.q && Plausible(k.l.items[0], r) && (quiet <==> k.tail == Wrong)
      modifies `posted, kernel, `flags, `calls, `allowance, `line, pr, wq, (set n: Wrq {:trigger n.next} | true)
      modifies {k.l.bufs[0]}`len
      ensures stop == Fails(r, h) && again == GoesOn(k.l.items[0], r, h) && Result(k, r, d, again)
      ensures ResultRecord(k, k.l.items[0], r, h, Now(), d) && allowance + |d.queued| == k.allowed
    {
      var remain, rembuf;
      remain, rembuf, d := Notify(q, r, quiet, k);
      again, stop := Conclude(q, r, remain, rembuf, k, d);
    }

    /** The head was written: what is on record now, and whether the loop goes on. */
    ghost predicate Booked(k: Scene, t: Turn, again: bool, stop: bool, now: Record)
      reads kernel, `calls, `posted, `flags, `allowance
    {
      && TurnRecord(k, t, h, now) && now == Now() && allowance + |t.during| == k.allowed
      && stop == Fails(t.r, h) && again == GoesOn(k.l.items[0], t.r, h)
    }

    /** gwpr_src_activity_write_qitem and the treatment of its result. */
    method WriteItem(q: Wrq, quiet: bool, ghost k: Scene)
      returns (again: bool, stop: bool, ghost d: Deed, ghost t: Turn, ghost now: Record)
      requires Ready(k) && q == k.q && (quiet <==> k.tail == Wrong)
      modifies `posted, kernel, `flags, `calls, `allowance, `line, pr, wq, (set n: Wrq {:trigger n.next} | true)
      modifies {k.l.bufs[0]}`len
      ensures Booked(k, t, again, stop, now)
      ensures t == Turn(t.r, d.direct, d.queued) && Result(k, t.r, d, again)
    {
      HeldTail(q, k.l);
      var r := WriteBuffer(kernel, q.buf, q.op, q.peer, false, k.l.items[0]);
      assert Between(q, k.l, k.tail) == old(Between(q, k.l, k.tail));
      ghost var mid := Now();
      again, stop, d := WriteItemResult(q, r, quiet, k.(was := mid));
      t, now := Turn(r, d.direct, d.queued), Now();
      TwoRecords(k, r, h, mid, now, d);
    }

    /** A node that is done goes back to the cache; the nodes after it are not touched. */
    method NextItem(q: Wrq, ghost qn: Wrq?, ghost l: Line)
      requires Amid(qn, l) && Off(q, l.nodes) && Off(q, line.nodes) && Off(q, pr.cached)
      modifies pr, q, pr.given
      ensures Amid(qn, l) && pr.given.nodes == old(pr.given.nodes) + [q]
    {
      assert q !in pr.cached;
      pr.Free(q);
      assert Held(qn, l) == old(Held(qn, l)) && Held(wq.wrq, line) == old(Held(wq.wrq, line));
    }

    /** What goes on with after an item: the nodes behind it, if the loop has seen that there are some. */
    ghost function Onward(l: Line, seen: bool): Line
      requires l.nodes != [] && l.bufs != [] && l.items != []
    {
      if seen then Rest(l) else NOTHING
    }

    lemma OnwardIs(q: Wrq, l: Line, seen: bool, tail: Tail)
      requires Between(q, l, tail) && (seen ==> |l.nodes| >= 2)
      ensures Even(l) && Amid(if seen then l.nodes[1] else null, Onward(l, seen)) && TailIn(Onward(l, seen), tail)
      ensures Off(q, Onward(l, seen).nodes) && Off(q, line.nodes) && Off(q, pr.cached)
    {
      HeldTail(q, l);
      assert l.nodes[0] == q;
    }

    /** The drain loop is at `f`, with the list `l` from `q` still detached. */
    ghost predicate Draining(q: Wrq?, l: Line, tail: Tail, f: Flow)
      reads `line, pr, pr.cached, wq, line.nodes, line.bufs, l.nodes, l.bufs
    {
      Amid(q, l) && TailIn(l, tail) && l.items == f.d.todo && line.items == f.added && !f.d.halted && !f.d.stop
    }

    /** The part of a turn after an item that is done with. */
    method Onto(q: Wrq, ghost qn: Wrq?, ghost m: Line, ghost seen: bool, ghost tail: Tail) returns (ghost l: Line)
      requires Between(q, m, tail) && (seen ==> |m.nodes| >= 2) && qn == if seen then m.nodes[1] else null
      modifies `missed, pr, q, pr.given
      ensures pr.given.nodes == old(pr.given.nodes) + [q]
      ensures Amid(qn, l) && TailIn(l, tail) && l.items == (if seen then m.items[1..] else [])
      ensures missed == old(missed) + (if seen then [] else m.items[1..])
    {
      OnwardIs(q, m, seen, tail);
      l := Onward(m, seen);
      missed := missed + (if seen then [] else m.items[1..]);
      NextItem(q, qn, l);
    }

    /** The lists after a turn. */
    ghost predicate Turned(qn: Wrq?, k: Scene, l: Line, t: Turn, again: bool)
      requires k.l.items != [] && Plausible(k.l.items[0], t.r)
      reads `line, pr, pr.cached, wq, line.nodes, line.bufs, l.nodes, l.bufs
    {
      var strays, added := Strays(k.added, t.during, k.tail), Added(k.added, t.during, k.tail);
      if again then
        && Amid(qn, l) && TailIn(l, k.tail) && line.items == added
        && l.items == (if |k.l.items| >= 2 then k.l.items[1..] + strays else [])
      else
        Halted(k.tail, Copied(k.l.items[0], t.r)) && line.items == Kept(k.l.items + strays, t.r) + added
    }

    /** The end of a turn: on to the next node, unless the loop is left. */
    method Proceed(q: Wrq, again: bool, stop: bool, ghost qn: Wrq?, ghost k: Scene, ghost d: Deed, ghost t: Turn)
      returns (ghost l: Line)
      requires k.l.items != [] && |k.l.items| == |k.l.nodes| && Plausible(k.l.items[0], t.r) && (stop ==> !again)
      requires t == Turn(t.r, d.direct, d.queued)
      requires q == k.q && Result(k, t.r, d, again) && qn == if |k.l.nodes| >= 2 then k.l.nodes[1] else null
      modifies `missed, pr, q, pr.given
      ensures Turned(qn, k, l, t, again) && missed == old(missed) + Strayed(k, t, again)
      ensures pr.given.nodes == old(pr.given.nodes) + (if again then [q] else [])
      ensures Now() == old(Now()) && allowance == old(allowance)
    {
      l := d.l;
      if again && !stop {
        assert |k.l.nodes| >= 2 ==> d.l.nodes[1] == k.l.nodes[1];
        l := Onto(q, qn, d.l, |k.l.nodes| >= 2, k.tail);
      } else {
        assert old(missed) + [] == old(missed);
      }
    }

    lemma NextOf(q: Wrq, l: Line, tail: Tail)
      requires Between(q, l, tail)
      ensures Even(l) && q.next == if |l.nodes| >= 2 then l.nodes[1] else null
    {
      HeldTail(q, l);
    }

    /** The item at the head is written, once the loop has looked behind it. */
    method WriteHead(q: Wrq, quiet: bool, ghost k: Scene)
      returns (qn: Wrq?, again: bool, stop: bool, ghost d: Deed, ghost t: Turn, ghost now: Record)
      requires Ready(k) && q == k.q && (quiet <==> k.tail == Wrong)
      modifies `posted, kernel, `flags, `calls, `allowance, `line, pr, wq, (set n: Wrq {:trigger n.next} | true)
      modifies {k.l.bufs[0]}`len
      ensures |k.l.items| == |k.l.nodes| && qn == if |k.l.nodes| >= 2 then k.l.nodes[1] else null
      ensures Booked(k, t, again, stop, now)
      ensures t == Turn(t.r, d.direct, d.queued) && Result(k, t.r, d, again)
    {
      qn := q.next;
      NextOf(q, k.l, k.tail);
      again, stop, d, t, now := WriteItem(q, quiet, k);
    }

    /** One turn of the drain loop, on lists and records. */
    method TurnLists(q: Wrq, quiet: bool, ghost k: Scene)
      returns (qn: Wrq?, again: bool, stop: bool, ghost l: Line, ghost t: Turn, ghost now: Record)
      requires Ready(k) && q == k.q && (quiet <==> k.tail == Wrong)
      modifies `posted, kernel, `flags, `calls, `allowance, `line, `missed, pr, pr.given, wq
      modifies (set n: Wrq {:trigger n.next} | true), {k.l.bufs[0]}`len
      ensures Booked(k, t, again, stop, now) && pr.given.nodes == old(pr.given.nodes) + (if again then [q] else [])
      ensures Turned(qn, k, l, t, again) && missed == old(missed) + Strayed(k, t, again)
    {
      ghost var d;
      qn, again, stop, d, t, now := WriteHead(q, quiet, k);
      l := Proceed(q, again, stop, qn, k, d, t);
    }

    // ---- The drain ----

    ghost function TailNow(): Tail
      reads `line, wq
    {
      if wq.wrqlast == null then Unset
      else if line.nodes == [] || wq.wrqlast == Last(line.nodes) then Right else Wrong
    }

    /** The start of a drain whose callbacks may queue so many items. */
    ghost function Beginning(allowed: nat): Begin
      reads kernel, `calls, `posted, `flags, `line, `missed, wq, pr.given
    {
      Begin(line.items, TailNow(), Now(), missed, allowed, |pr.given.nodes|)
    }

    /** The drain is at `f`, on record. */
    ghost predicate Reached(f: Flow, st: Begin)
      reads kernel, `calls, `posted, `missed, `flags
    {
      Did(st.from, f, Now()) && missed == st.missed + f.lost
    }

    /** The drain has ended at `f`, its last answer a partial write if `copied`. */
    ghost predicate EndedAt(f: Flow, copied: bool, stop: bool, st: Begin)
      reads kernel, `calls, `posted, `missed, `flags, `line, pr, pr.cached, wq, line.nodes, line.bufs
    {
      && Valid() && Finished(f.d) && line.items == f.d.todo + f.added && stop == f.d.stop && Reached(f, st)
      && (|line.nodes| == 1 && st.tail == Right ==> (TailOk(line.nodes, wq.wrqlast) <==> f.d.halted && !copied))
    }

    /** One turn of the drain loop is a step of the drain. */
    method DrainTurn(q: Wrq, quiet: bool, ghost l: Line, ghost f: Flow, ghost st: Begin)
      returns (qn: Wrq?, again: bool, stop: bool, ghost l': Line, ghost t: Turn)
      requires Draining(q, l, st.tail, f) && l.nodes != [] && Reached(f, st) && (quiet <==> st.tail == Wrong)
      modifies `posted, kernel, `flags, `calls, `allowance, `line, `missed, pr, pr.given, wq
      modifies (set n: Wrq {:trigger n.next} | true), {l.bufs[0]}`len
      ensures LegalTurn(f, t, st.tail, h) && old(kernel.trials) <= kernel.trials
      ensures TurnTrials(f.d.todo[0], kernel.trials[|old(kernel.trials)|..], t)
      ensures allowance + |t.during| == old(allowance)
      ensures pr.given.nodes == old(pr.given.nodes) + (if again then [q] else [])
      ensures var e := StepFlow(f, t, st.tail, h);
        && again == !e.d.halted && stop == e.d.stop
        && (again ==> |e.d.todo| + allowance < |f.d.todo| + old(allowance))
        && if again then Draining(qn, l', st.tail, e) && Reached(e, st)
           else EndedAt(e, Copied(f.d.todo[0], t.r), stop, st)
    {
      ghost var k := Scene(line.items, Now(), allowance, q, l, st.tail, null);
      ghost var now;
      qn, again, stop, l', t, now := TurnLists(q, quiet, k);
      TurnIsStep(k, f, t, h, st.from, Now());
      Associates(st.missed, f.lost, Strayed(k, t, again));
      StepParts(f, t, st.tail, h);
    }

    /** The drain has got through `turns` and goes on with the list `l`. */
    ghost predicate Underway(q: Wrq?, l: Line, turns: seq<Turn>, st: Begin)
      reads kernel, `calls, `posted, `missed, `flags, `allowance, `line, pr, pr.cached, wq, line.nodes, line.bufs
      reads l.nodes, l.bufs, pr.given
    {
      && LegalFlow(st.items, turns, st.tail, h) && Draining(q, l, st.tail, RunFlow(st.items, turns, st.tail, h))
      && Reached(RunFlow(st.items, turns, st.tail, h), st)
      && Answered(st.items, turns, st.tail, h, kernel.trials[|st.from.trials|..])
      && allowance + |Queued(turns)| == st.allowed && |pr.given.nodes| == st.given + |turns|
    }

    /** The drain has ended after `turns`. */
    ghost predicate Ended(turns: seq<Turn>, stop: bool, st: Begin)
      reads kernel, `calls, `posted, `missed, `flags, `line, pr, pr.cached, pr.given, wq, line.nodes, line.bufs
    {
      && LegalFlow(st.items, turns, st.tail, h)
      && EndedAt(RunFlow(st.items, turns, st.tail, h), EndsCopied(st.items, turns, st.tail, h), stop, st)
      && Answered(st.items, turns, st.tail, h, kernel.trials[|st.from.trials|..]) && |Queued(turns)| <= st.allowed
      && |pr.given.nodes| == st.given + GivenIn(turns, RunFlow(st.items, turns, st.tail, h))
    }

    method DrainOnce(q: Wrq, quiet: bool, ghost l: Line, ghost turns: seq<Turn>, ghost st: Begin)
      returns (qn: Wrq?, again: bool, stop: bool, ghost l': Line, ghost more: seq<Turn>)
      requires Underway(q, l, turns, st) && l.nodes != [] && (quiet <==> st.tail == Wrong)
      modifies `posted, kernel, `flags, `calls, `allowance, `line, `missed, pr, pr.given, wq
      modifies (set n: Wrq {:trigger n.next} | true), {l.bufs[0]}`len
      ensures again ==>
                Underway(qn, l', more, st) && !stop && |l'.items| + allowance < |l.items| + old(allowance)
      ensures !again ==> Ended(more, stop, st)
    {
      ghost var t, f := Turn(Reply(0, NoError), [], []), RunFlow(st.items, turns, st.tail, h);
      qn, again, stop, l', t := DrainTurn(q, quiet, l, f, st);
      more := turns + [t];
      QueuedGrows(turns, t);
      RunExtends(st.items, turns, t, st.tail, h, st.from.trials, old(kernel.trials), kernel.trials);
    }

    /** The drain loop, over the list detached from the queue. It ends because the callbacks stop queueing
        at some time: what they queue may be drained in the same loop. */
    method DrainLoop(first: Wrq?, quiet: bool, ghost l0: Line, ghost st: Begin)
      returns (stop: bool, ghost turns: seq<Turn>)
      requires Underway(first, l0, [], st) && (quiet <==> st.tail == Wrong)
      modifies `posted, kernel, `flags, `calls, `allowance, `line, `missed, pr, pr.given, wq
      modifies (set n: Wrq {:trigger n.next} | true), (set b: Buf {:trigger b.len} | true)
      ensures Ended(turns, stop, st)
    {
      var q := first;
      ghost var l := l0;
      turns, stop := [], false;
      while q != null
        invariant Underway(q, l, turns, st) && !stop
        decreases |l.items| + allowance
      {
        var again;
        q, again, stop, l, turns := DrainOnce(q, quiet, l, turns, st);
        if stop || !again {
          return;
        }
      }
      DrainedOut(l, turns, st);
    }

    /** When nothing is left, the new queue is the queue. */
    lemma NothingLeft(l: Line, tail: Tail)
      requires Amid(null, l) && TailIn(l, tail)
      ensures l == NOTHING && Valid()
      ensures |line.nodes| == 1 && tail == Right ==> !TailOk(line.nodes, wq.wrqlast)
    {
      assert l.nodes == [] && |l.items| == 0 && |l.bufs| == 0;
      assert l == NOTHING;
    }

    lemma DrainedOutAt(l: Line, f: Flow, copied: bool, st: Begin)
      requires Draining(null, l, st.tail, f) && Reached(f, st)
      ensures EndedAt(f, copied, false, st)
    {
      NothingLeft(l, st.tail);
      assert f.d.todo == [] && [] + line.items == line.items;
    }

    lemma DrainedOut(l: Line, turns: seq<Turn>, st: Begin)
      requires Underway(null, l, turns, st)
      ensures Ended(turns, false, st)
    {
      DrainedOutAt(l, RunFlow(st.items, turns, st.tail, h), EndsCopied(st.items, turns, st.tail, h), st);
    }

    /** The queue is detached, and wrqlast left as it is. */
    method Detach(ghost st: Begin) returns (q: Wrq?, ghost l: Line)
      requires Valid() && st == Beginning(allowance)
      modifies `line, `marks, wq
      ensures Underway(q, l, [], st) && marks == old(marks) + [Detaching(st.tail)]
    {
      q, l := wq.wrq, line;
      marks := marks + [Detaching(st.tail)];
      wq.wrq := null;
      wq.queued := [];
      line := NOTHING;
      assert Draining(q, l, st.tail, RunFlow(st.items, [], st.tail, h));
    }

    /** What a whole write event has done, by where the drain on values ends: queue, bytes, callbacks, lost
        items and flags are those of the drain. A single node left is one the tail pointer can be used
        with, if it was right before, exactly if the drain put it back uncopied. */
    ghost predicate OverAt(f: Flow, copied: bool, st: Begin)
      reads kernel, `calls, `posted, `missed, `flags, `line, pr, pr.cached, wq, line.nodes, line.bufs
    {
      && Valid() && Finished(f.d) && line.items == f.d.todo + f.added
      && OnRecord(f, st, line.items)
      && (|line.nodes| == 1 && st.tail == Right ==> (TailOk(line.nodes, wq.wrqlast) <==> f.d.halted && !copied))
    }

    ghost predicate OnRecord(f: Flow, st: Begin, left: seq<Item>)
      reads kernel, `calls, `posted, `missed, `flags
    {
      && st.from.trials <= kernel.trials && kernel.accepted == st.from.accepted + f.sent
      && posted == st.from.posted + f.direct && calls == st.from.calls + f.d.calls && missed == st.missed + f.lost
      && flags == st.from.flags + (if f.added == [] then {} else {ENABLED, WR})
                  - (if left == [] || f.d.stop then {WR} else {})
    }

    /** The drain went like this, its answers those of the kernel. */
    ghost predicate Over(turns: seq<Turn>, st: Begin)
      reads kernel, `calls, `posted, `missed, `flags, `line, pr, pr.cached, pr.given, wq, line.nodes, line.bufs
    {
      && LegalFlow(st.items, turns, st.tail, h)
      && OverAt(RunFlow(st.items, turns, st.tail, h), EndsCopied(st.items, turns, st.tail, h), st)
      && Answered(st.items, turns, st.tail, h, kernel.trials[|st.from.trials|..]) && |Queued(turns)| <= st.allowed
      && |pr.given.nodes| == st.given + GivenIn(turns, RunFlow(st.items, turns, st.tail, h))
    }

    /** The drain up to the end of the loop. */
    method DrainQueue(quiet: bool, ghost st: Begin) returns (stop: bool, ghost turns: seq<Turn>)
      requires Valid() && st == Beginning(allowance) && (quiet <==> st.tail == Wrong)
      modifies `posted, kernel, `flags, `calls, `allowance, `line, `marks, `missed, pr, pr.given, wq
      modifies (set n: Wrq {:trigger n.next} | true), (set b: Buf {:trigger b.len} | true)
      ensures Ended(turns, stop, st) && marks == old(marks) + [Detaching(st.tail)]
    {
      var q;
      ghost var l;
      q, l := Detach(st);
      stop, turns := DrainLoop(q, quiet, l, st);
    }

    /** The end of a drain: write events are shut off if nothing is left or an error stopped it. */
    method ShutOff(stop: bool, ghost turns: seq<Turn>, ghost st: Begin)
      requires Ended(turns, stop, st)
      modifies `flags
      ensures Over(turns, st)
    {
      ShutOffAt(stop, RunFlow(st.items, turns, st.tail, h), EndsCopied(st.items, turns, st.tail, h), st);
    }

    method ShutOffAt(stop: bool, ghost f: Flow, ghost copied: bool, ghost st: Begin)
      requires EndedAt(f, copied, stop, st)
      modifies `flags
      ensures OverAt(f, copied, st)
    {
      assert wq.wrq == null <==> line.items == [];
      if wq.wrq == null || stop {
        flags := flags - {WR};
      }
      assert OnRecord(f, st, line.items);
      assert Valid() == old(Valid());
    }

    /** What a caller can look at before queueing: the tail pointer may be out of date only when the
        queue holds a single node and the pointer is set to another one. */
    predicate TailUsable()
      reads wq, wq.wrq
    {
      wq.wrq == null || wq.wrq.next != null || wq.wrqlast == null || wq.wrqlast == wq.wrq
    }

    lemma TailUsableIff()
      requires Valid()
      ensures TailUsable() <==> TailOk(line.nodes, wq.wrqlast)
      ensures TailUsable() <==> TailNow() != Wrong
      ensures !TailUsable() ==> wq.wrqlast != null && Off(wq.wrqlast, line.nodes) && |line.nodes| == 1
    {
      if line.nodes != [] {
        assert line.nodes[0].next == if 1 < |line.nodes| then line.nodes[1] else null;
      }
    }

    /** The write part of gwpr_src_activity: the queue is detached and drained, with callbacks that queue
        up to `allowance` items in all. */
    method Drain(allowance: nat) returns (ghost turns: seq<Turn>)
      requires Valid()
      modifies this, kernel, pr, pr.given, wq, (set n: Wrq {:trigger n.next} | true)
      modifies (set b: Buf {:trigger b.len} | true)
      ensures Over(turns, old(Beginning(allowance)))
      ensures marks == old(marks) + [Detaching(old(TailNow()))]
    {
      TailUsableIff();
      this.allowance := allowance;
      ghost var st := Beginning(allowance);
      var stop;
      stop, turns := DrainQueue(!TailUsable(), st);
      ShutOff(stop, turns, st);
    }

    // ---- The calls from outside ----

    /** gwprwrq_add from outside a drain, whatever the tail pointer. It changes links only. */
    method LinkAnyhow(q: Wrq, ghost buf: Buf, ghost it: Item)
      requires Valid() && q.next == null && Loaded(q, buf, it) && NewTo(q, buf, line) && Off(q, pr.cached)
      modifies wq, q`next, line.nodes`next, (if wq.wrqlast == null then {} else {wq.wrqlast})`next
      ensures wq.Valid() && Carries(line.nodes, line.bufs, line.items) && Loaded(q, buf, it)
      ensures if old(TailUsable()) then wq.queued == line.nodes + [q] && pr.Valid()
              else wq.queued == line.nodes && wq.wrqlast == q && |line.nodes| == 1
      ensures old(TailUsable()) && |line.nodes| >= 1 ==> wq.wrqlast == q
      ensures old(TailExact(line.nodes, wq.wrqlast)) ==> TailExact(wq.queued, wq.wrqlast)
    {
      TailUsableIff();
      assert q !in wq.queued;
      wq.Add(q);
    }

    /** A filled node joins the queue exactly when the tail pointer is usable. Otherwise nothing but the
        tail pointer knows of it. */
    method Enqueue(q: Wrq, ghost buf: Buf, ghost it: Item)
      requires Valid() && q.next == null && Loaded(q, buf, it) && NewTo(q, buf, line) && Off(q, pr.cached)
      modifies `line, `missed, wq, q`next, line.nodes`next, (if wq.wrqlast == null then {} else {wq.wrqlast})`next
      ensures old(TailUsable()) ==> Valid() && line == Snoc(old(line), q, buf, it) && missed == old(missed)
      ensures !old(TailUsable()) ==>
                && line == old(line) && wq.queued == line.nodes && Held(wq.wrq, line) && missed == old(missed) + [it]
                && wq.wrqlast == q && Loaded(q, buf, it) && Off(q, line.nodes) && |line.nodes| == 1
      ensures old(TailExact(line.nodes, wq.wrqlast)) ==> TailExact(line.nodes, wq.wrqlast)
    {
      ghost var usable := TailUsable();
      LinkAnyhow(q, buf, it);
      if usable {
        Enlist(q, buf, it, null, NOTHING);
      } else {
        missed := missed + [it];
      }
    }

    /** gwpr_asynchronous_write from outside a drain: the data joins the queue exactly when the tail pointer
        is usable; otherwise the queue stays as it was and the data is lost. */
    method AsynchronousWrite(buf: Buf, op: WriteOp, peer: int) returns (ghost it: Item)
      requires Valid() && Off(buf, line.bufs) && buf.len <= |buf.mem|
      modifies `flags, `line, `marks, `missed, pr, wq, (set n: Wrq {:trigger n.next} | true)
      ensures SameWire(it, op, peer, buf.mem[..buf.len]) && flags == old(flags) + {ENABLED, WR}
      ensures marks == old(marks) + [Queueing(old(TailUsable()))]
      ensures Joined(old(TailUsable()), old(line), it, old(missed))
      ensures old(TailExact(line.nodes, wq.wrqlast)) ==> TailExact(line.nodes, wq.wrqlast)
    {
      marks := marks + [Queueing(TailUsable())];
      flags := flags + {ENABLED, WR};
      var q;
      q, it := NewNode(buf, op, peer, null, NOTHING);
      Enqueue(q, buf, it);
    }

    /** What queueing one item comes to. */
    ghost predicate Joined(usable: bool, line0: Line, it: Item, missed0: seq<Item>)
      reads `line, `missed, pr, pr.cached, wq, line.nodes, line.bufs
    {
      if usable then Valid() && line.items == line0.items + [it] && missed == missed0
      else
        && line == line0 && wq.queued == line.nodes && Held(wq.wrq, line) && missed == missed0 + [it]
        && |line.nodes| == 1 && wq.wrqlast != null && Off(wq.wrqlast, line.nodes)
    }

    /** A synchronous write from outside a drain. */
    method SynchronousWriteAccepted(buf: Buf, op: WriteOp, peer: int) returns (ghost it: Item)
      requires Valid() && wq.wrq == null && buf.len <= |buf.mem|
      modifies `posted, kernel, pr, pr.cached
      ensures Valid() && SameWire(it, op, peer, buf.mem[..buf.len])
      ensures posted == old(posted) + [it] && kernel.accepted == old(kernel.accepted) + Wire(it)
      ensures old(kernel.trials) <= kernel.trials && Took(it, kernel.trials[|old(kernel.trials)|..], |it.data|)
    {
      it := AcceptWhole(buf, op, peer, null, NOTHING);
    }

    /** gwpr_write, gwpr_send and gwpr_sendto. `taken` says that the synchronous write is tried and the
        kernel takes everything; it is tried only when the queue is empty. */
    method Write(buf: Buf, op: WriteOp, peer: int, taken: bool) returns (ghost it: Item)
      requires Valid() && Off(buf, line.bufs) && buf.len <= |buf.mem|
      modifies this, kernel, pr, wq, (set n: Wrq {:trigger n.next} | true)
      ensures SameWire(it, op, peer, buf.mem[..buf.len]) && calls == old(calls)
      ensures if old(line.items) == [] && taken
              then Valid() && line == old(line) && missed == old(missed) && flags == old(flags) && marks == old(marks)
                   && kernel.accepted == old(kernel.accepted) + Wire(it) && posted == old(posted) + [it]
                   && old(kernel.trials) <= kernel.trials
                   && Took(it, kernel.trials[|old(kernel.trials)|..], |it.data|)
              else Joined(old(TailUsable()), old(line), it, old(missed)) && flags == old(flags) + {ENABLED, WR}
                   && marks == old(marks) + [Queueing(old(TailUsable()))]
                   && kernel.trials == old(kernel.trials) && kernel.accepted == old(kernel.accepted)
                   && posted == old(posted)
      ensures old(TailExact(line.nodes, wq.wrqlast)) ==> TailExact(line.nodes, wq.wrqlast)
    {
      assert wq.wrq == null <==> line.items == [];
      if wq.wrq == null && taken {
        it := SynchronousWriteAccepted(buf, op, peer);
      } else {
        it := AsynchronousWrite(buf, op, peer);
      }
    }

    /** The repair that the code lacks: walk to the end of the queue after a drain. */
    method RestoreTail()
      requires Valid()
      modifies wq`wrqlast
      ensures Valid() && TailExact(line.nodes, wq.wrqlast)
    {
      if wq.wrq == null {
        wq.wrqlast := null;
      } else {
        var last := LastOf(wq.wrq, line.nodes);
        wq.wrqlast := last;
      }
    }
  }
}
