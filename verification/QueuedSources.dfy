/** Sources added by other threads: pushed on a locked list, and moved to the list of their type by the
    reactor's thread. A push and the taking of the whole list are atomic. */
module QueuedSources {
  import opened Seqs
  import opened Reactor
  import opened Sources
  import opened Poll

  /** rl->_qsrc, newest first. */
  class SourceBox {
    var qsrc: Src?
    ghost var queued: seq<Src>

    ghost predicate Valid()
      reads this, queued`next
    {
      SrcChain(qsrc, queued)
    }

    constructor ()
      ensures Valid() && queued == []
    {
      qsrc, queued := null, [];
    }

    /** gwrl_src_add_safely */
    method AddSafely(src: Src)
      requires Valid() && src !in queued
      modifies this, src`next
      ensures Valid() && queued == [src] + old(queued)
    {
      if qsrc != null {
        src.next := qsrc;
      } else {
        src.next := null;
      }
      qsrc := src;
      queued := [src] + queued;
    }
  }

  /** The links of `xs` when its nodes have been moved, in order, to the front of a list. */
  ghost predicate MovedSources(xs: seq<Src>, first: Src?)
    reads xs`next
  {
    forall i {:trigger xs[i].next} :: 0 <= i < |xs| ==> xs[i].next == if i == 0 then first else xs[i - 1]
  }

  lemma MovedSourcesAreChain(head: Src?, xs: seq<Src>, first: Src?, ys: seq<Src>)
    requires MovedSources(xs, first) && SrcChain(first, ys) && Distinct(xs) && Apart(xs, ys)
    requires head == if xs == [] then first else Last(xs)
    ensures SrcChain(head, Reverse(xs) + ys)
  {
    var rs := Reverse(xs);
    var all := rs + ys;
    forall k | 0 <= k < |rs|
      ensures rs[k] == xs[|xs| - 1 - k]
    {
      ReverseAt(xs, k);
    }
    assert forall x :: x in rs ==> x in xs;
    assert forall x :: x in xs ==> x !in ys;
    DistinctConcat(rs, ys);
    forall k | 0 <= k < |all|
      ensures all[k].next == if k + 1 < |all| then all[k + 1] else null
    {
      if k < |xs| {
        assert all[k] == xs[|xs| - 1 - k];
      } else {
        assert all[k] == ys[k - |xs|];
      }
    }
  }

  /** Moved onto an empty list, two sources or more form a ring: no walk from the head gets out of it. */
  lemma {:induction false} StaysOnRing(head: Src?, xs: seq<Src>, ss: seq<Src>, k: nat)
    requires |xs| >= 2 && MovedSources(xs, xs[1]) && head == Last(xs) && SrcChain(head, ss) && k < |ss|
    ensures ss[k] in xs && ss[k].next != null
  {
    if k > 0 {
      StaysOnRing(head, xs, ss, k - 1);
      var i :| 0 <= i < |xs| && xs[i] == ss[k - 1];
      assert xs[i].next == ss[k];
    }
    var j :| 0 <= j < |xs| && xs[j] == ss[k];
    assert xs[j].next != null;
  }

  lemma SourcesAreRing(head: Src?, xs: seq<Src>, ss: seq<Src>)
    requires |xs| >= 2 && MovedSources(xs, xs[1]) && head == Last(xs)
    ensures !SrcChain(head, ss)
  {
    if SrcChain(head, ss) {
      StaysOnRing(head, xs, ss, |ss| - 1);
    }
  }

  /** The backend knows the listed sources `ys` and the sources `xs`. */
  ghost predicate Watched(index: PollIndex, ys: seq<Src>, xs: seq<Src>)
    reads index, index.fds, index.slotted`flags, index.slotted`pfd, ys`flags, ys`pfd, xs`flags, xs`pfd
  {
    && index.Slots() && index.nfds <= |ys| + |xs| <= index.fds.Length
    && index.Placed(ys) && index.Placed(xs)
    && (forall i {:trigger ys[i]} :: 0 <= i < |ys| ==> index.Listed(ys[i]))
    && (forall i {:trigger xs[i]} :: 0 <= i < |xs| ==> index.Listed(xs[i]))
    && (forall fd {:trigger index.lkpSrc[fd]} :: fd in index.lkpSrc ==>
          index.lkpSrc[fd].fd == fd && (index.lkpSrc[fd] in ys || index.lkpSrc[fd] in xs))
    && (forall i {:trigger index.slotted[i]} :: 0 <= i < |index.slotted| ==> index.Listed(index.slotted[i]))
  }

  lemma WatchedIsValid(index: PollIndex, ys: seq<Src>, xs: seq<Src>)
    requires Watched(index, ys, xs) && SrcChain(index.files.head, Reverse(xs) + ys)
    requires index.files.nodes == Reverse(xs) + ys
    ensures index.Valid()
  {
    forall k | 0 <= k < |xs|
      ensures Reverse(xs)[k] == xs[|xs| - 1 - k]
    {
      ReverseAt(xs, k);
    }
    var all := index.files.nodes;
    forall i {:trigger all[i]} | 0 <= i < |all|
      ensures all[i] == if i < |xs| then xs[|xs| - 1 - i] else ys[i - |xs|]
    {
    }
    forall i | 0 <= i < |xs|
      ensures xs[i] in all
    {
      assert all[|xs| - 1 - i] == xs[i];
    }
    forall i | 0 <= i < |ys|
      ensures ys[i] in all
    {
      assert all[|xs| + i] == ys[i];
    }
  }

  /** gwrl_bkd_src_add of one more source. */
  method WatchOne(index: PollIndex, src: Src, ghost ys: seq<Src>, ghost xs: seq<Src>)
    requires Watched(index, ys, xs) && |ys| + |xs| < index.fds.Length
    requires src.fd !in index.lkpSrc
    modifies index`nfds, index`slotted, index`lkpSrc, index.fds, src`pfd
    ensures Watched(index, ys, xs + [src]) && index.slotted == old(index.slotted) + [src]
    ensures index.lkpSrc.Keys == old(index.lkpSrc.Keys) + {src.fd}
  {
    assert forall i :: 0 <= i < |index.slotted| ==> index.slotted[i] != src;
    index.Watch(src);
  }

  /** The sources can be added: none is listed, each has a descriptor of its own that is not watched yet,
      and there is room. */
  ghost predicate Addable(index: PollIndex, xs: seq<Src>)
    reads index, index.files
  {
    && Apart(xs, index.files.nodes) && |index.files.nodes| + |xs| <= index.fds.Length
    && (forall i {:trigger xs[i]} :: 0 <= i < |xs| ==> xs[i].fd !in index.lkpSrc)
    && (forall i, j :: 0 <= i < j < |xs| ==> xs[i].fd != xs[j].fd)
  }

  ghost function Fields(index: PollIndex?): set<PollIndex> {
    if index == null then {} else {index}
  }

  ghost function Array(index: PollIndex?): set<array<PollFd>> {
    if index == null then {} else {index.fds}
  }

  ghost function Slotted(index: PollIndex?): seq<Src>
    reads Fields(index)`slotted
  {
    if index == null then [] else index.slotted
  }

  /** File sources (`index`) only: the backend has come to know the first i of the sources. */
  ghost predicate WatchedUpTo(index: PollIndex?, ys: seq<Src>, xs: seq<Src>, i: nat, slotted0: seq<Src>)
    requires i <= |xs|
    reads Fields(index), Array(index), Slotted(index)`flags, Slotted(index)`pfd, ys`flags, ys`pfd, xs`flags, xs`pfd
  {
    index != null ==>
      && Watched(index, ys, xs[..i]) && index.slotted == slotted0 + xs[..i] && |ys| + |xs| <= index.fds.Length
      && forall j {:trigger xs[j]} :: i <= j < |xs| ==> xs[j].fd !in index.lkpSrc
  }

  /** gwrl_bkd_src_add, if the source is a file source. */
  method WatchNext(index: PollIndex?, src: Src, ghost ys: seq<Src>, ghost xs: seq<Src>, ghost i: nat,
                   ghost slotted0: seq<Src>)
    requires i < |xs| && src == xs[i] && WatchedUpTo(index, ys, xs, i, slotted0)
    requires forall j :: 0 <= j < i < |xs| ==> xs[j] != xs[i]
    requires index != null ==> forall j, k :: 0 <= j < k < |xs| ==> xs[j].fd != xs[k].fd
    modifies Fields(index)`nfds, Fields(index)`slotted, Fields(index)`lkpSrc, Array(index), src`pfd
    ensures WatchedUpTo(index, ys, xs, i + 1, slotted0)
  {
    if index != null {
      WatchOne(index, src, ys, xs[..i]);
      assert xs[..i + 1] == xs[..i] + [xs[i]];
    }
  }

  /** The links in the middle of the loop. */
  ghost predicate Moving(head: Src?, src: Src?, xs: seq<Src>, i: nat, head0: Src?)
    reads xs`next
  {
    && i <= |xs| && src == (if i < |xs| then xs[i] else null)
    && head == (if i == 0 then head0 else xs[i - 1])
    && (forall j {:trigger xs[j].next} :: i <= j < |xs| ==> xs[j].next == if j + 1 < |xs| then xs[j + 1] else null)
    && (forall j {:trigger xs[j].next} :: 0 <= j < i ==>
          xs[j].next == if j > 0 then xs[j - 1] else if head0 != null || |xs| <= 1 then head0 else xs[1])
  }

  /** gwrl_src_add, up to the backend. */
  method Push(list: SourceList, src: Src, ghost xs: seq<Src>, ghost i: nat, ghost head0: Src?)
    requires Distinct(xs) && i < |xs| && Moving(list.head, src, xs, i, head0)
    modifies list`head, src`next
    ensures Moving(list.head, old(src.next), xs, i + 1, head0)
  {
    if list.head != null {
      src.next := list.head;
    }
    list.head := src;
  }

  /** gwrl_src_add of the i-th source. */
  method AddNext(list: SourceList, index: PollIndex?, src: Src, ghost xs: seq<Src>, ghost ys: seq<Src>, ghost i: nat,
                 ghost head0: Src?, ghost slotted0: seq<Src>)
    requires Distinct(xs) && i < |xs| && Moving(list.head, src, xs, i, head0) && WatchedUpTo(index, ys, xs, i, slotted0)
    requires index != null ==> forall j, k :: 0 <= j < k < |xs| ==> xs[j].fd != xs[k].fd
    modifies list`head, src`next, src`pfd, Fields(index)`nfds, Fields(index)`slotted, Fields(index)`lkpSrc, Array(index)
    ensures Moving(list.head, old(src.next), xs, i + 1, head0) && WatchedUpTo(index, ys, xs, i + 1, slotted0)
  {
    ghost var behind := src.next;
    Push(list, src, xs, i, head0);
    label Pushed:
    WatchNext(index, src, ys, xs, i, slotted0);
    assert Moving(list.head, behind, xs, i + 1, head0) == old@Pushed(Moving(list.head, behind, xs, i + 1, head0));
  }

  /** The loop of gwrl_install_queued_sources. */
  method MoveSources(list: SourceList, index: PollIndex?, taken: Src?, ghost xs: seq<Src>, ghost ys: seq<Src>,
                     ghost slotted0: seq<Src>)
    requires SrcChain(taken, xs) && WatchedUpTo(index, ys, xs, 0, slotted0)
    requires index != null ==> forall j, k :: 0 <= j < k < |xs| ==> xs[j].fd != xs[k].fd
    modifies list`head, xs`next, xs`pfd, Fields(index)`nfds, Fields(index)`slotted, Fields(index)`lkpSrc, Array(index)
    ensures Moving(list.head, null, xs, |xs|, old(list.head)) && WatchedUpTo(index, ys, xs, |xs|, slotted0)
  {
    var src := taken;
    ghost var i, head0 := 0, list.head;
    while src != null
      invariant Moving(list.head, src, xs, i, head0) && WatchedUpTo(index, ys, xs, i, slotted0)
      decreases |xs| - i
    {
      var isrc := src;
      src := src.next;
      AddNext(list, index, isrc, xs, ys, i, head0, slotted0);
      i := i + 1;
    }
  }

  lemma Untouched(index: PollIndex, xs: seq<Src>)
    requires index.Valid() && Addable(index, xs)
    ensures WatchedUpTo(index, index.files.nodes, xs, 0, index.slotted)
  {
    assert xs[..0] == [];
  }

  /** What the moves make of the list. */
  ghost method Relist(list: SourceList, index: PollIndex?, xs: seq<Src>, first: Src?, ys: seq<Src>)
    requires Moving(list.head, null, xs, |xs|, first) && SrcChain(first, ys) && Distinct(xs) && Apart(xs, ys)
    requires index != null ==> index.files == list && Watched(index, ys, xs)
    modifies list`nodes
    ensures ys != [] || |xs| <= 1 ==>
              list.Valid() && list.nodes == Reverse(xs) + ys && (index != null ==> index.Valid())
    ensures !(ys != [] || |xs| <= 1) ==>
              && (forall ss :: !SrcChain(list.head, ss)) && list.head == Last(xs)
              && xs[0].next == xs[1] && xs[1].next == xs[0]
  {
    assert MovedSources(xs, if first != null || |xs| <= 1 then first else xs[1]);
    if ys != [] || |xs| <= 1 {
      MovedSourcesAreChain(list.head, xs, first, ys);
      list.nodes := Reverse(xs) + ys;
      if index != null {
        WatchedIsValid(index, ys, xs);
      }
    } else {
      forall ss ensures !SrcChain(list.head, ss) {
        SourcesAreRing(list.head, xs, ss);
      }
    }
  }

  /** gwrl_install_queued_sources, after the list has been taken. */
  method InstallTaken(list: SourceList, index: PollIndex?, src: Src?, ghost xs: seq<Src>)
    requires SrcChain(src, xs) && list.Valid() && Apart(xs, list.nodes)
    requires index != null ==> index.files == list && index.Valid() && Addable(index, xs)
    modifies list, xs`next, xs`pfd, Fields(index)`nfds, Fields(index)`slotted, Fields(index)`lkpSrc, Array(index)
    ensures index != null ==> index.slotted == old(index.slotted) + xs
    ensures old(list.nodes != []) || |xs| <= 1 ==>
              list.Valid() && list.nodes == Reverse(xs) + old(list.nodes) && (index != null ==> index.Valid())
    ensures !(old(list.nodes != []) || |xs| <= 1) ==>
              && (forall ss :: !SrcChain(list.head, ss)) && list.head == Last(xs)
              && xs[0].next == xs[1] && xs[1].next == xs[0]
  {
    ghost var first, ys := list.head, list.nodes;
    if index != null {
      Untouched(index, xs);
    }
    MoveSources(list, index, src, xs, ys, Slotted(index));
    assert xs[..|xs|] == xs;
    assert SrcChain(first, ys) == old(SrcChain(first, ys));
    Relist(list, index, xs, first, ys);
  }

  /** gwrl_install_queued_sources, for sources of one type: they go in front of its list in the order
      they were queued, exactly if it is not empty or there is only one. Two or more moved onto an empty
      list form a ring, in which the two queued last point to each other. File sources (`index`) are
      watched either way; only in the first case is the index in order. */
  method InstallQueuedSources(box: SourceBox, list: SourceList, index: PollIndex?)
    requires box.Valid() && list.Valid() && Apart(box.queued, list.nodes)
    requires index != null ==> index.files == list && index.Valid() && Addable(index, box.queued)
    modifies box, list, box.queued`next, box.queued`pfd
    modifies Fields(index)`nfds, Fields(index)`slotted, Fields(index)`lkpSrc, Array(index)
    ensures box.Valid() && box.queued == []
    ensures index != null ==> index.slotted == old(index.slotted) + old(box.queued)
    ensures old(list.nodes != [] || |box.queued| <= 1) ==>
              && list.Valid() && list.nodes == Reverse(old(box.queued)) + old(list.nodes)
              && (index != null ==> index.Valid())
    ensures !old(list.nodes != [] || |box.queued| <= 1) ==>
              && (forall ss :: !SrcChain(list.head, ss)) && list.head == Last(old(box.queued))
              && old(box.queued)[0].next == old(box.queued)[1] && old(box.queued)[1].next == old(box.queued)[0]
  {
    ghost var xs := box.queued;
    var src := box.qsrc;
    box.qsrc := null;
    box.queued := [];
    InstallTaken(list, index, src, xs);
  }
}
