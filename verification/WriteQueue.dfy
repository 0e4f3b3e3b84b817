/** The write queue and the cache of queue nodes, as linked nodes on the heap. */
module WriteQueue {
  import opened Seqs
  import opened WriteSpec

  /** gwprbuf: allocated bytes and the number of them in use. */
  class Buf {
    var mem: seq<Byte>
    var len: nat

    constructor (mem: seq<Byte>, len: nat)
      ensures this.mem == mem && this.len == len
    {
      this.mem, this.len := mem, len;
    }
  }

  /** gwprwrq. A new node is zeroed. */
  class Wrq {
    var op: WriteOp
    var peer: int
    var buf: Buf?
    var next: Wrq?

    constructor ()
      ensures buf == null && next == null
    {
      op, peer, buf, next := OpWrite, 0, null, null;
    }
  }

  /** The nodes from `head` along `next` are exactly `qs`, null-terminated. */
  ghost predicate Chain(head: Wrq?, qs: seq<Wrq>)
    reads qs`next
  {
    && head == (if qs == [] then null else qs[0])
    && (forall i {:trigger qs[i].next} :: 0 <= i < |qs| ==> qs[i].next == if i + 1 < |qs| then qs[i + 1] else null)
    && Distinct(qs)
  }

  /** Node i of `qs` owns buffer i of `bs`, and holds item i of `items`. */
  ghost predicate Carries(qs: seq<Wrq>, bs: seq<Buf>, items: seq<Item>)
    reads qs`op, qs`peer, qs`buf, bs
  {
    && |qs| == |bs| == |items|
    && Distinct(bs)
    && forall i {:trigger qs[i]} :: 0 <= i < |qs| ==>
         Loaded(qs[i], bs[i], items[i])
  }

  ghost predicate Loaded(q: Wrq, b: Buf, it: Item)
    reads q`op, q`peer, q`buf, b
  {
    q.buf == b && b.len <= |b.mem| && it == Item(q.op, q.peer, b.mem[..b.len])
  }

  /** Two chains, the last node of the first leading to the head of the second. */
  lemma ChainJoins(head: Wrq, xs: seq<Wrq>, mid: Wrq, ys: seq<Wrq>)
    requires xs != [] && head == xs[0] && Distinct(xs) && Apart(xs, ys)
    requires forall i {:trigger xs[i].next} :: 0 <= i < |xs| ==> xs[i].next == if i + 1 < |xs| then xs[i + 1] else mid
    requires ys != [] && Chain(mid, ys)
    ensures Chain(head, xs + ys)
  {
    var all := xs + ys;
    assert forall n :: n in xs ==> n !in ys;
    DistinctConcat(xs, ys);
    forall i | 0 <= i < |all|
      ensures all[i].next == if i + 1 < |all| then all[i + 1] else null
    {
      if i < |xs| {
        assert all[i] == xs[i];
      } else {
        assert all[i] == ys[i - |xs|];
      }
    }
  }

  /** The nodes given to gwprwrq_free so far. */
  class Returns {
    ghost var nodes: seq<Wrq>

    constructor ()
      ensures nodes == []
    {
      nodes := [];
    }
  }

  /** gwpr's cache of nodes, and a record of those given back to it. */
  class Proactor {
    var wrqcache: Wrq?
    var nwrqcache: nat
    const cacheMax: nat
    const given: Returns
    ghost var cached: seq<Wrq>

    ghost predicate Valid()
      reads this, cached`next
    {
      Chain(wrqcache, cached) && nwrqcache == |cached| <= cacheMax
    }

    constructor (cacheMax: nat)
      ensures Valid() && cached == [] && this.cacheMax == cacheMax && given.nodes == []
    {
      this.cacheMax := cacheMax;
      wrqcache, nwrqcache, cached := null, 0, [];
      given := new Returns();
    }

    /** gwprwrq_get */
    method Get() returns (q: Wrq)
      requires Valid()
      modifies this, cached
      ensures Valid() && q.next == null
      ensures old(cached) == [] ==> fresh(q) && cached == []
      ensures old(cached) != [] ==> q == old(cached)[0] && cached == old(cached)[1..]
    {
      if wrqcache != null {
        q := wrqcache;
        nwrqcache := nwrqcache - 1;
        if q.next != null {
          wrqcache := q.next;
        } else {
          wrqcache := null;
        }
        cached := cached[1..];
      } else {
        q := new Wrq();
      }
      q.next := null;
    }

    /** gwprwrq_free */
    method Free(q: Wrq)
      requires Valid() && q !in cached
      modifies this, q, given
      ensures Valid() && given.nodes == old(given.nodes) + [q]
      ensures cached == if |old(cached)| == cacheMax then old(cached) else [q] + old(cached)
      ensures |old(cached)| != cacheMax ==> q.buf == null
    {
      given.nodes := given.nodes + [q];
      if nwrqcache != cacheMax {
        q.next := null;
        q.buf := null;
        if wrqcache != null {
          q.next := wrqcache;
        }
        wrqcache := q;
        nwrqcache := nwrqcache + 1;
        cached := [q] + cached;
      }
    }
  }

  // ---- gwprwrq_add and gwprwrq_putback ----

  /** wrqlast can be used to append: it is the true last node, or unset with at most one node. */
  ghost predicate TailOk(qs: seq<Wrq>, last: Wrq?) {
    || qs == []
    || (last == null && |qs| == 1)
    || last == Last(qs)
  }

  /** The field as its readers expect it, the empty queue included. */
  ghost predicate TailExact(qs: seq<Wrq>, last: Wrq?) {
    && (qs == [] ==> last == null)
    && (last == null ==> |qs| <= 1)
    && (last != null ==> qs != [] && last == Last(qs))
  }

  /** The list after `q` is linked behind a node that is not the last one: what was behind that node
      is cut off, and if the node is not in the list at all, `q` never gets into it. A null `last`
      stands for the head. */
  ghost function Misplaced(qs: seq<Wrq>, last: Wrq?, q: Wrq): seq<Wrq>
    requires !TailOk(qs, last)
  {
    if last == null then [qs[0], q]
    else if last in qs then
      var k :| 0 <= k < |qs| && qs[k] == last;
      qs[..k + 1] + [q]
    else qs
  }

  /** The list does not grow. If the pointer is null or in the list, `q` ends it, behind the head or behind that
      node, and what was in front stays; otherwise the list is as it was. */
  lemma MisplacedLosesNodes(qs: seq<Wrq>, last: Wrq?, q: Wrq)
    requires !TailOk(qs, last)
    ensures var r := Misplaced(qs, last, q);
      && |r| <= |qs|
      && if last == null || last in qs then
           |r| >= 2 && Last(r) == q && r[..|r| - 1] <= qs && r[|r| - 2] == (if last == null then qs[0] else last)
         else r == qs
  {
    if last == null {
      assert [qs[0], q][..1] == [qs[0]];
    } else if last in qs {
      var k :| 0 <= k < |qs| && qs[k] == last && Misplaced(qs, last, q) == qs[..k + 1] + [q];
      assert k != |qs| - 1;
      assert (qs[..k + 1] + [q])[..k + 1] == qs[..k + 1];
    }
  }

  /** The write queue fields of gwprdata. */
  class Queue {
    var wrq: Wrq?
    var wrqlast: Wrq?
    ghost var queued: seq<Wrq>

    ghost predicate Valid()
      reads this, queued`next
    {
      Chain(wrq, queued)
    }

    constructor ()
      ensures Valid() && queued == [] && wrqlast == null
    {
      wrq, wrqlast, queued := null, null, [];
    }

    /** gwprwrq_add, whatever wrqlast points to: it appends exactly when the tail can be used. */
    method Add(q: Wrq)
      requires Valid() && q !in queued
      requires q.next == null || queued == []
      modifies this, q`next, queued`next, (if wrq == null || wrqlast == null then {} else {wrqlast})`next
      ensures Valid()
      ensures old(TailOk(queued, wrqlast)) ==> queued == old(queued) + [q]
      ensures !old(TailOk(queued, wrqlast)) ==> queued == Misplaced(old(queued), old(wrqlast), q)
      ensures wrqlast == if old(queued) == [] then old(wrqlast) else q
      ensures old(queued) != [] && old(wrqlast) != null ==> old(wrqlast).next == q
      ensures old(queued) == [] || old(wrqlast) != q ==> q.next == null
    {
      ghost var was := queued;
      if wrq == null {
        wrq := q;
        q.next := null;
        queued := [q];
        assert was + [q] == [q];
      } else {
        queued := if TailOk(was, wrqlast) then was + [q] else Misplaced(was, wrqlast, q);
        if wrqlast == null {
          wrqlast := q;
          wrq.next := wrqlast;
        } else {
          wrqlast.next := q;
          wrqlast := q;
        }
      }
    }

    /** gwprwrq_add beside a chain `ls` that has been detached, when the tail pointer can be used or is
        the last node of that chain: the node joins the queue in the one case, the chain in the other. */
    method AddNear(q: Wrq, ghost q0: Wrq?, ghost ls: seq<Wrq>)
      requires Valid() && Chain(q0, ls) && Apart(ls, queued) && Off(q, queued) && Off(q, ls) && q.next == null
      requires TailOk(queued, wrqlast) || (ls != [] && wrqlast == Last(ls))
      modifies this, q`next, queued`next, ls`next
      ensures Valid() && wrqlast == if old(queued) == [] then old(wrqlast) else q
      ensures if old(TailOk(queued, wrqlast)) then queued == old(queued) + [q] && Chain(q0, ls)
              else queued == old(queued) && Chain(q0, ls + [q])
    {
      ghost var usable := TailOk(queued, wrqlast);
      assert ls != [] ==> Last(ls) == ls[|ls| - 1];
      Add(q);
      if !usable {
        assert Chain(q, [q]);
        ChainJoins(q0, ls, q, [q]);
      }
    }

    /** gwprwrq_putback: the whole chain headed by `q` goes in front. */
    method Putback(q: Wrq, ghost qs: seq<Wrq>)
      requires Valid() && qs != [] && Chain(q, qs) && Apart(qs, queued)
      modifies this, qs`next, queued`next
      ensures Valid() && queued == qs + old(queued)
      ensures if old(queued) == [] then wrqlast == old(wrqlast) else TailExact(queued, wrqlast)
      ensures old(queued) == [] ==> forall i {:trigger qs[i].next} :: 0 <= i < |qs| ==> qs[i].next == old(qs[i].next)
    {
      if wrq == null {
        wrq := q;
        assert qs + queued == qs;
        queued := qs;
      } else {
        var tmpq := wrq;
        var tmpqlast := LastOf(q, qs);
        wrq := q;
        assert tmpqlast == qs[|qs| - 1];
        tmpqlast.next := tmpq;
        assert Chain(tmpq, queued);
        tmpqlast := LastOf(tmpq, queued);
        wrqlast := tmpqlast;
        assert wrqlast == queued[|queued| - 1];
        wrqlast.next := null;
        ghost var all := qs + queued;
        assert forall i :: 0 <= i < |queued| ==> all[|qs| + i] == queued[i];
        ChainJoins(q, qs, tmpq, queued);
        queued := all;
      }
    }
  }

  /** The walk to the end of a chain. */
  method LastOf(head: Wrq, ghost qs: seq<Wrq>) returns (last: Wrq)
    requires Chain(head, qs)
    ensures last == Last(qs)
  {
    var q: Wrq? := head;
    ghost var i := 0;
    last := head;
    while q != null
      invariant 0 <= i <= |qs|
      invariant q == if i < |qs| then qs[i] else null
      invariant i > 0 ==> last == qs[i - 1]
      decreases |qs| - i
    {
      last := q;
      q := q.next;
      i := i + 1;
    }
  }
}
