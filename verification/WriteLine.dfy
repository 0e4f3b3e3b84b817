/** Lists of queue nodes with their buffers and the items they stand for; the kernel, and writing one
    buffer to it. */
module WriteLine {
  import opened Seqs
  import opened WriteSpec
  import opened CallbackSpec
  import opened WriteQueue

  datatype Line = Line(nodes: seq<Wrq>, bufs: seq<Buf>, items: seq<Item>)

  const NOTHING := Line([], [], [])

  /** The chain from `head` is this line. */
  ghost predicate Held(head: Wrq?, l: Line)
    reads l.nodes, l.bufs
  {
    Chain(head, l.nodes) && Carries(l.nodes, l.bufs, l.items)
  }

  ghost predicate Separate(k: Line, l: Line) {
    Apart(k.nodes, l.nodes) && Apart(k.bufs, l.bufs)
  }

  ghost predicate Even(l: Line) { |l.nodes| == |l.bufs| == |l.items| }

  function Join(k: Line, l: Line): Line {
    Line(k.nodes + l.nodes, k.bufs + l.bufs, k.items + l.items)
  }

  function Cons(q: Wrq, b: Buf, it: Item, l: Line): Line { Line([q] + l.nodes, [b] + l.bufs, [it] + l.items) }

  function Snoc(l: Line, q: Wrq, b: Buf, it: Item): Line { Line(l.nodes + [q], l.bufs + [b], l.items + [it]) }

  function Rest(l: Line): Line
    requires l.nodes != [] && l.bufs != [] && l.items != []
  {
    Line(l.nodes[1..], l.bufs[1..], l.items[1..])
  }

  /** Neither the node nor the buffer is in the line. */
  ghost predicate NewTo(q: Wrq, b: Buf, l: Line) {
    Off(q, l.nodes) && Off(b, l.bufs)
  }

  lemma HeldTail(head: Wrq, l: Line)
    requires l.nodes != [] && Held(head, l)
    ensures Even(l) && Held(head.next, Rest(l)) && head == l.nodes[0] && Loaded(head, l.bufs[0], l.items[0])
    ensures NewTo(head, l.bufs[0], Rest(l)) && l == Cons(head, l.bufs[0], l.items[0], Rest(l))
  {
    var qs := l.nodes;
    assert qs[0].next == if 1 < |qs| then qs[1] else null;
    assert forall i :: 0 <= i < |qs| - 1 ==> qs[1..][i].next == qs[i + 1].next;
  }

  lemma SeparateCons(q: Wrq, b: Buf, it: Item, l: Line, m: Line)
    requires Separate(l, m) && NewTo(q, b, m) && Even(l) && l.nodes != []
    ensures Separate(Cons(q, b, it, Rest(l)), m)
  {
  }

  lemma HeldCons(head: Wrq, b: Buf, it: Item, l: Line)
    requires Held(head.next, l) && NewTo(head, b, l) && Loaded(head, b, it)
    ensures Held(head, Cons(head, b, it, l))
  {
    var all := Cons(head, b, it, l);
    forall i | 0 <= i < |all.nodes|
      ensures all.nodes[i].next == if i + 1 < |all.nodes| then all.nodes[i + 1] else null
      ensures Loaded(all.nodes[i], all.bufs[i], all.items[i])
    {
      if i > 0 {
        assert all.nodes[i] == l.nodes[i - 1];
      }
    }
  }

  lemma CarriesSnoc(l: Line, q: Wrq, b: Buf, it: Item)
    requires Carries(l.nodes, l.bufs, l.items) && Off(b, l.bufs) && Loaded(q, b, it)
    ensures Carries(Snoc(l, q, b, it).nodes, Snoc(l, q, b, it).bufs, Snoc(l, q, b, it).items)
  {
    forall i | 0 <= i < |l.nodes| + 1
      ensures Loaded((l.nodes + [q])[i], (l.bufs + [b])[i], (l.items + [it])[i])
    {
      if i < |l.nodes| {
        assert Loaded(l.nodes[i], l.bufs[i], l.items[i]);
      }
    }
  }

  /** The contents of two lines, however they are linked. */
  lemma CarriesJoin(k: Line, l: Line)
    requires Carries(k.nodes, k.bufs, k.items) && Carries(l.nodes, l.bufs, l.items) && Apart(k.bufs, l.bufs)
    ensures Carries(Join(k, l).nodes, Join(k, l).bufs, Join(k, l).items)
  {
    var all := Join(k, l);
    assert forall b :: b in k.bufs ==> b !in l.bufs;
    DistinctConcat(k.bufs, l.bufs);
    forall i | 0 <= i < |all.nodes|
      ensures Loaded(all.nodes[i], all.bufs[i], all.items[i])
    {
      if i < |k.nodes| {
        assert Loaded(k.nodes[i], k.bufs[i], k.items[i]);
      } else {
        assert Loaded(l.nodes[i - |k.nodes|], l.bufs[i - |k.nodes|], l.items[i - |k.nodes|]);
      }
    }
  }

  /** The kernel: it takes any positive number of the bytes offered, or fails. The retry after EINTR is
      part of the call. `trials` are the calls made, `accepted` the bytes it took. */
  class Kernel {
    ghost var trials: seq<Trial>
    ghost var accepted: seq<Octet>

    constructor ()
      ensures trials == [] && accepted == []
    {
      trials, accepted := [], [];
    }

    /** `willing`: it does not fail this time. */
    method Write(op: WriteOp, peer: int, data: seq<Byte>, willing: bool) returns (n: nat, err: Errno)
      requires data != []
      modifies this
      ensures n <= |data| && (err == NoError <==> n > 0) && (willing ==> err == NoError)
      ensures trials == old(trials) + [Trial(Item(op, peer, data), n, err)]
      ensures accepted == old(accepted) + Wire(Item(op, peer, data[..n]))
    {
      err, n := NoError, 0;
      if !willing {
        err := *;
      }
      if err == NoError {
        n :| 1 <= n <= |data|;
      }
      trials := trials + [Trial(Item(op, peer, data), n, err)];
      accepted := accepted + Wire(Item(op, peer, data[..n]));
    }
  }

  /** Since `trials0` and `accepted0` the kernel has taken the first k bytes of the item. */
  ghost predicate Taken(kernel: Kernel, it: Item, k: nat, trials0: seq<Trial>, accepted0: seq<Octet>)
    requires k <= |it.data|
    reads kernel
  {
    && trials0 <= kernel.trials && Took(it, kernel.trials[|trials0|..], k)
    && kernel.accepted == accepted0 + Wire(Front(it, k))
  }

  lemma TakenMore(kernel: Kernel, it: Item, k: nat, n: nat, was: seq<Trial>, trials0: seq<Trial>, accepted0: seq<Octet>,
                  accepted: seq<Octet>)
    requires 0 < n && k + n <= |it.data| && trials0 <= was && Took(it, was[|trials0|..], k)
    requires accepted == accepted0 + Wire(Front(it, k)) && kernel.trials == was + [Trial(Back(it, k), n, NoError)]
    requires kernel.accepted == accepted + Wire(Front(Back(it, k), n))
    ensures Taken(kernel, it, k + n, trials0, accepted0)
  {
    var ts, t := was[|trials0|..], Trial(Back(it, k), n, NoError);
    assert kernel.trials[|trials0|..] == ts + [t];
    TookMore(it, ts, k, n);
    WireGrows(it, k, n);
    Associates(accepted0, Wire(Front(it, k)), Wire(Front(Back(it, k), n)));
  }

  lemma TakenAndFailed(it: Item, k: nat, err: Errno, was: seq<Trial>, now: seq<Trial>, trials0: seq<Trial>)
    requires k < |it.data| && err != NoError && trials0 <= was && Took(it, was[|trials0|..], k)
    requires now == was + [Trial(Back(it, k), 0, err)]
    ensures trials0 <= now && Attempts(it, now[|trials0|..], Reply(k, err))
  {
    var ts, t := was[|trials0|..], Trial(Back(it, k), 0, err);
    assert now[|trials0|..] == ts + [t];
    assert (ts + [t])[..|ts|] == ts;
  }

  /** One write call. */
  method WriteOnce(kernel: Kernel, op: WriteOp, peer: int, rest: seq<Byte>, willing: bool, ghost it: Item,
                   ghost k: nat, ghost trials0: seq<Trial>, ghost accepted0: seq<Octet>)
    returns (n: nat, err: Errno)
    requires k < |it.data| && Item(op, peer, rest) == Back(it, k) && Taken(kernel, it, k, trials0, accepted0)
    modifies kernel
    ensures k + n <= |it.data| && (err == NoError <==> n > 0) && (willing ==> err == NoError)
    ensures err == NoError ==> Taken(kernel, it, k + n, trials0, accepted0)
    ensures err != NoError ==>
              && trials0 <= kernel.trials && Attempts(it, kernel.trials[|trials0|..], Reply(k, err))
              && kernel.accepted == accepted0 + Wire(Front(it, k))
  {
    n, err := kernel.Write(op, peer, rest, willing);
    if err == NoError {
      TakenMore(kernel, it, k, n, old(kernel.trials), trials0, accepted0, old(kernel.accepted));
    } else {
      TakenAndFailed(it, k, err, old(kernel.trials), kernel.trials, trials0);
      assert Wire(Item(op, peer, rest[..0])) == [];
    }
  }

  /** gwpr_write_buffer: the reply is what the kernel answered to the write calls made. */
  method WriteBuffer(kernel: Kernel, buf: Buf, op: WriteOp, peer: int, willing: bool, ghost it: Item)
    returns (r: Reply)
    requires buf.len <= |buf.mem| && it == Item(op, peer, buf.mem[..buf.len])
    modifies kernel
    ensures Legal(it, r) && (willing ==> r.err == NoError)
    ensures kernel.accepted == old(kernel.accepted) + Wire(Front(it, r.written))
    ensures old(kernel.trials) <= kernel.trials && Attempts(it, kernel.trials[|old(kernel.trials)|..], r)
  {
    var towrite := buf.len;
    var at := 0;
    var written, err := 0, NoError;
    assert Wire(Front(it, 0)) == [];
    while towrite > 0
      invariant written == at && at + towrite == |it.data| && err == NoError
      invariant Taken(kernel, it, at, old(kernel.trials), old(kernel.accepted))
      decreases towrite
    {
      var didwrite, errno := WriteOnce(kernel, op, peer, buf.mem[at..at + towrite], willing, it, at,
                                       old(kernel.trials), old(kernel.accepted));
      if errno == NoError {
        written := written + didwrite;
        towrite := towrite - didwrite;
        at := at + didwrite;
      } else {
        err := errno;
        break;
      }
    }
    r := Reply(written, err);
  }
}
