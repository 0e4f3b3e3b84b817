/** The poll backend: the packed array of watched descriptors, each source's slot in it, and the table
    from descriptors to sources, kept in step with the list of file sources. */
module Poll {
  import opened Seqs
  import opened Flags
  import opened Reactor
  import opened Sources

  datatype Bit = IN | OUT | HUP | ERR | NVAL

  /** struct pollfd */
  datatype PollFd = PollFd(fd: nat, events: set<Bit>, revents: set<Bit>)

  const FREE_SLOT := PollFd(0, {}, {})

  function Mask(flags: set<Flag>): set<Bit> {
    (if RD in flags then {IN} else {}) + (if WR in flags then {OUT} else {})
  }

  /** What a source is told about the bits poll returned. Disabling a source whose descriptor is not
      open clears its other bits. */
  function Ready(bits: set<Bit>): set<Flag> {
    if NVAL in bits then {RD}
    else (if HUP in bits || ERR in bits || IN in bits then {RD} else {}) + (if OUT in bits then {WR} else {})
  }

  /** The bits a source with these flags is watched for. */
  predicate WatchedFor(flags: set<Flag>, bits: set<Bit>) {
    && (IN in bits <==> RD in flags) && (OUT in bits <==> WR in flags)
    && HUP !in bits && ERR !in bits && NVAL !in bits
  }

  lemma MaskWatches(flags: set<Flag>)
    ensures WatchedFor(flags, Mask(flags))
  {
  }

  /** What an event tells its source: input, or anything that is wrong with the descriptor, as readable; room for
      output as writable, unless the descriptor is not open. */
  predicate Tells(m: Msg, s: Src, bits: set<Bit>) {
    && m.callback == s.callback && m.userdata == s.userdata && m.src == s && m.fd == s.fd
    && (RD in m.flags <==> IN in bits || HUP in bits || ERR in bits || NVAL in bits)
    && (WR in m.flags <==> OUT in bits && NVAL !in bits)
    && m.flags <= {RD, WR}
  }

  ghost predicate On(s: Src)
    reads s`flags
  {
    ENABLED in s.flags
  }

  /** The enabled sources, in order. */
  ghost function EnabledOf(ss: seq<Src>): seq<Src>
    reads ss`flags
  {
    if ss == [] then []
    else EnabledOf(ss[..|ss| - 1]) + (if On(Last(ss)) then [Last(ss)] else [])
  }

  lemma EnabledOfOneMore(ss: seq<Src>, k: nat)
    requires k < |ss|
    ensures EnabledOf(ss[..k + 1]) == EnabledOf(ss[..k]) + (if On(ss[k]) then [ss[k]] else [])
  {
    assert ss[..k + 1][..k] == ss[..k];
  }

  lemma {:induction false} EnabledOfAreOn(ss: seq<Src>)
    ensures forall s :: s in EnabledOf(ss) ==> s in ss && On(s)
  {
    if ss != [] {
      EnabledOfAreOn(ss[..|ss| - 1]);
    }
  }

  lemma {:induction false} WithoutMembers(ss: seq<Src>, x: Src)
    requires Distinct(ss)
    ensures forall s :: s in Without(ss, x) ==> s in ss && s != x
    ensures forall s :: s in ss && s != x ==> s in Without(ss, x)
  {
    if ss != [] {
      assert ss == [ss[0]] + ss[1..];
      DistinctParts([ss[0]], ss[1..]);
      assert ss[0] in [ss[0]];
      WithoutMembers(ss[1..], x);
    }
  }

  lemma {:induction false} WithoutShorter(ss: seq<Src>, x: Src)
    ensures |Without(ss, x)| <= |ss|
  {
    if ss != [] {
      WithoutShorter(ss[1..], x);
    }
  }

  lemma WithoutElements(ss: seq<Src>, x: Src)
    requires Distinct(ss)
    ensures var r := Without(ss, x);
      forall i {:trigger r[i]} :: 0 <= i < |r| ==> r[i] != x && exists j :: 0 <= j < |ss| && ss[j] == r[i]
  {
    WithoutMembers(ss, x);
    var r := Without(ss, x);
    forall i {:trigger r[i]} | 0 <= i < |r|
      ensures r[i] != x && exists j :: 0 <= j < |ss| && ss[j] == r[i]
    {
      assert r[i] in r && r[i] in ss;
    }
  }

  lemma {:induction false} EnabledOfHasAll(ss: seq<Src>, k: nat)
    requires k < |ss| && On(ss[k])
    ensures ss[k] in EnabledOf(ss)
  {
    if k < |ss| - 1 {
      EnabledOfHasAll(ss[..|ss| - 1], k);
    }
  }

  lemma {:induction false} EnabledOfDistinct(ss: seq<Src>)
    requires Distinct(ss)
    ensures Distinct(EnabledOf(ss))
  {
    if ss != [] {
      var init := ss[..|ss| - 1];
      EnabledOfDistinct(init);
      EnabledOfAreOn(init);
      DistinctConcat(EnabledOf(init), if On(Last(ss)) then [Last(ss)] else []);
    }
  }

  function Notice(s: Src, bits: set<Bit>): Msg {
    Msg(s.callback, s.userdata, s, s.fd, Ready(bits))
  }

  function Told(s: Src, flags: set<Flag>, bits: set<Bit>): seq<Msg> {
    if ENABLED in flags && Ready(bits) != {} then [Notice(s, bits)] else []
  }

  /** The events for the sources `ss` in slot order, with the flags `fl`, poll having returned the
      bits `rv`. */
  function News(ss: seq<Src>, fl: seq<set<Flag>>, rv: seq<set<Bit>>): seq<Msg>
    requires |ss| == |fl| == |rv|
  {
    if ss == [] then [] else
      News(ss[..|ss| - 1], fl[..|ss| - 1], rv[..|ss| - 1]) + Told(Last(ss), Last(fl), Last(rv))
  }

  lemma NewsOneMore(ss: seq<Src>, fl: seq<set<Flag>>, rv: seq<set<Bit>>, k: nat)
    requires k < |ss| == |fl| == |rv|
    ensures News(ss[..k + 1], fl[..k + 1], rv[..k + 1]) == News(ss[..k], fl[..k], rv[..k]) + Told(ss[k], fl[k], rv[k])
  {
    assert ss[..k + 1][..k] == ss[..k] && fl[..k + 1][..k] == fl[..k] && rv[..k + 1][..k] == rv[..k];
  }

  /** The events that are about the source. */
  function About(ms: seq<Msg>, s: Src): seq<Msg> {
    if ms == [] then [] else About(ms[..|ms| - 1], s) + (if Last(ms).src == s then [Last(ms)] else [])
  }

  lemma AboutTold(ms: seq<Msg>, told: seq<Msg>, s: Src)
    requires |told| <= 1
    ensures About(ms + told, s) == About(ms, s) + (if told != [] && told[0].src == s then told else [])
  {
    if told != [] {
      assert (ms + told)[..|ms|] == ms && told == [told[0]];
    } else {
      assert ms + told == ms;
    }
  }

  /** An enabled source is told at most once, and if and only if poll has returned any bits for it; a disabled one
      is told nothing. */
  predicate ToldOnce(ms: seq<Msg>, s: Src, flags: set<Flag>, bits: set<Bit>) {
    if ENABLED in flags && bits != {} then |About(ms, s)| == 1 && Tells(About(ms, s)[0], s, bits)
    else About(ms, s) == []
  }

  lemma ToldTells(s: Src, flags: set<Flag>, bits: set<Bit>)
    ensures |Told(s, flags, bits)| <= 1
    ensures Told(s, flags, bits) != [] <==> ENABLED in flags && bits != {}
    ensures Told(s, flags, bits) != [] ==> Tells(Told(s, flags, bits)[0], s, bits)
  {
    if bits != {} {
      var b :| b in bits;
      assert b == IN || b == OUT || b == HUP || b == ERR || b == NVAL;
      assert Ready(bits) != {} by {
        assert RD in Ready(bits) || WR in Ready(bits);
      }
    }
  }

  lemma {:induction false} NewsAreAbout(ss: seq<Src>, fl: seq<set<Flag>>, rv: seq<set<Bit>>, s: Src)
    requires |ss| == |fl| == |rv| && s !in ss
    ensures About(News(ss, fl, rv), s) == []
  {
    if ss != [] {
      var n := |ss| - 1;
      NewsAreAbout(ss[..n], fl[..n], rv[..n], s);
      ToldTells(ss[n], fl[n], rv[n]);
      AboutTold(News(ss[..n], fl[..n], rv[..n]), Told(ss[n], fl[n], rv[n]), s);
    }
  }

  /** The events for some slots, source by source. */
  lemma {:induction false} NewsTell(ss: seq<Src>, fl: seq<set<Flag>>, rv: seq<set<Bit>>, k: nat)
    requires |ss| == |fl| == |rv| && Distinct(ss) && k < |ss|
    ensures ToldOnce(News(ss, fl, rv), ss[k], fl[k], rv[k])
  {
    var n := |ss| - 1;
    ToldTells(ss[n], fl[n], rv[n]);
    AboutTold(News(ss[..n], fl[..n], rv[..n]), Told(ss[n], fl[n], rv[n]), ss[k]);
    if k < n {
      NewsTell(ss[..n], fl[..n], rv[..n], k);
      assert ss[k] != ss[n];
    } else {
      assert ss[n] !in ss[..n];
      NewsAreAbout(ss[..n], fl[..n], rv[..n], ss[n]);
    }
  }

  /** The source `a` has a slot before that of `b`. */
  predicate SlotBefore(ss: seq<Src>, a: Src?, b: Src?) {
    exists p, q :: 0 <= p < q < |ss| && ss[p] == a && ss[q] == b
  }

  /** Every event is about one of the slots, and they stand in the order of the slots. */
  predicate InSlotOrder(ms: seq<Msg>, ss: seq<Src>) {
    && (forall i {:trigger ms[i]} :: 0 <= i < |ms| ==> ms[i].src in ss)
    && (forall i, j {:trigger ms[i], ms[j]} :: 0 <= i < j < |ms| ==> SlotBefore(ss, ms[i].src, ms[j].src))
  }

  lemma {:induction false} NewsInOrder(ss: seq<Src>, fl: seq<set<Flag>>, rv: seq<set<Bit>>)
    requires |ss| == |fl| == |rv|
    ensures InSlotOrder(News(ss, fl, rv), ss)
  {
    if ss != [] {
      var n := |ss| - 1;
      NewsInOrder(ss[..n], fl[..n], rv[..n]);
      ToldTells(ss[n], fl[n], rv[n]);
      OneMoreInOrder(News(ss[..n], fl[..n], rv[..n]), Told(ss[n], fl[n], rv[n]), ss);
    }
  }

  lemma SlotStaysBefore(ss: seq<Src>, a: Src?, b: Src?)
    requires ss != [] && SlotBefore(ss[..|ss| - 1], a, b)
    ensures SlotBefore(ss, a, b)
  {
    var ts := ss[..|ss| - 1];
    var p, q :| 0 <= p < q < |ts| && ts[p] == a && ts[q] == b;
    assert ss[p] == a && ss[q] == b;
  }

  lemma LastSlot(ss: seq<Src>, a: Src?)
    requires ss != [] && a in ss[..|ss| - 1]
    ensures SlotBefore(ss, a, Last(ss))
  {
    var n := |ss| - 1;
    var p :| 0 <= p < n && ss[..n][p] == a;
    assert ss[p] == a && ss[n] == Last(ss);
  }

  lemma OneMoreInOrder(ms: seq<Msg>, told: seq<Msg>, ss: seq<Src>)
    requires ss != [] && InSlotOrder(ms, ss[..|ss| - 1])
    requires |told| <= 1 && (told != [] ==> told[0].src == Last(ss))
    ensures InSlotOrder(ms + told, ss)
  {
    var all, n := ms + told, |ss| - 1;
    assert Last(ss) in ss && forall s :: s in ss[..n] ==> s in ss;
    forall i, j {:trigger all[i], all[j]} | 0 <= i < j < |all|
      ensures SlotBefore(ss, all[i].src, all[j].src)
    {
      assert all[i] == ms[i];
      if j < |ms| {
        assert all[j] == ms[j];
        SlotStaysBefore(ss, ms[i].src, ms[j].src);
      } else {
        assert all[j] == told[0];
        LastSlot(ss, ms[i].src);
      }
    }
  }

  /** What the first `seen` of the slots have to say: each of their sources is told of what poll returned for it,
      in slot order, and no other source of anything. */
  predicate Reported(posts: seq<Msg>, seen: nat, ss: seq<Src>, fl: seq<set<Flag>>, rv: seq<set<Bit>>)
    requires seen <= |ss| == |fl| == |rv|
  {
    && (forall k {:trigger ss[k]} :: 0 <= k < seen ==> ToldOnce(posts, ss[k], fl[k], rv[k]))
    && InSlotOrder(posts, ss[..seen])
  }

  lemma NewsReport(seen: nat, ss: seq<Src>, fl: seq<set<Flag>>, rv: seq<set<Bit>>)
    requires seen <= |ss| == |fl| == |rv| && Distinct(ss)
    ensures Reported(News(ss[..seen], fl[..seen], rv[..seen]), seen, ss, fl, rv)
  {
    NewsInOrder(ss[..seen], fl[..seen], rv[..seen]);
    forall k {:trigger ss[k]} | 0 <= k < seen
      ensures ToldOnce(News(ss[..seen], fl[..seen], rv[..seen]), ss[k], fl[k], rv[k])
    {
      NewsTell(ss[..seen], fl[..seen], rv[..seen], k);
    }
  }

  /** Of the slots gone through, only the last one can have an enabled source whose descriptor is not open. */
  predicate StopsAtBroken(seen: nat, broken: bool, fl: seq<set<Flag>>, rv: seq<set<Bit>>)
    requires seen <= |fl| == |rv|
  {
    forall j {:trigger rv[j]} :: 0 <= j < seen ==> (ENABLED in fl[j] && NVAL in rv[j] <==> broken && j == seen - 1)
  }

  /** An enabled source whose descriptor is not open. */
  predicate Broken(flags: set<Flag>, bits: set<Bit>) {
    ENABLED in flags && NVAL in bits
  }

  /** The calls of gwrl_post_evt, in this order. */
  method PostAll(q: EventQueue, posts: seq<Msg>)
    requires q.Valid()
    modifies q, (set e: Evt {:trigger e.next} | true)
    ensures q.Valid() && q.msgs == Reverse(posts) + old(q.msgs) && q.released == old(q.released)
  {
    assert posts[..0] == [] && [] + q.msgs == q.msgs;
    for k := 0 to |posts|
      invariant q.Valid() && q.msgs == Reverse(posts[..k]) + old(q.msgs) && q.released == old(q.released)
    {
      assert posts[..k + 1] == posts[..k] + [posts[k]];
      ReverseGrows(posts[..k], posts[k], old(q.msgs));
      q.PostNew(posts[k]);
    }
    assert posts[..|posts|] == posts;
  }

  /** gwrlbkd_poll, and rl->sources[GWRL_SRC_TYPE_FILE]. `lkpSrc` lacks a descriptor where the table
      holds NULL. `slotted` are the sources the slots were given to. */
  class PollIndex {
    const fds: array<PollFd>
    const files: SourceList
    var nfds: nat
    var lkpSrc: map<nat, Src>
    ghost var slotted: seq<Src>

    /** The slots in use are those of `slotted`, each with its own source's descriptor and mask; the
        others are zero. */
    ghost predicate Slots()
      reads this, fds, slotted`flags, slotted`pfd
    {
      && |slotted| == nfds <= fds.Length
      && (forall i {:trigger slotted[i]} :: 0 <= i < nfds ==>
            slotted[i].pfd == i && fds[i].fd == slotted[i].fd && fds[i].events == Mask(slotted[i].flags))
      && (forall i {:trigger fds[i]} :: nfds <= i < fds.Length ==> fds[i] == FREE_SLOT)
    }

    /** The source owns the slot its pfd points to. */
    ghost predicate Owns(s: Src)
      reads this, s`pfd
    {
      0 <= s.pfd < |slotted| && slotted[s.pfd] == s
    }

    /** Every enabled one of the sources owns a slot; the pfd of the others points somewhere. */
    ghost predicate Placed(ss: seq<Src>)
      reads this, ss`flags, ss`pfd
    {
      forall i {:trigger ss[i]} :: 0 <= i < |ss| ==> 0 <= ss[i].pfd < fds.Length && (On(ss[i]) ==> Owns(ss[i]))
    }

    /** The table finds exactly the listed sources. */
    ghost predicate Table()
      reads this, files
    {
      && (forall i {:trigger files.nodes[i]} :: 0 <= i < |files.nodes| ==>
            files.nodes[i].fd in lkpSrc && lkpSrc[files.nodes[i].fd] == files.nodes[i])
      && (forall fd {:trigger lkpSrc[fd]} :: fd in lkpSrc ==> lkpSrc[fd] in files.nodes && lkpSrc[fd].fd == fd)
    }

    /** The list and the table agree, and there is room for every source. */
    ghost predicate Indexed()
      reads this, files, files.nodes`next
    {
      && files.Valid() && nfds <= |files.nodes| <= fds.Length && Table()
      && (forall i {:trigger slotted[i]} :: 0 <= i < |slotted| ==>
            slotted[i].fd in lkpSrc && lkpSrc[slotted[i].fd] == slotted[i])
    }

    ghost predicate Valid()
      reads this, fds, files, files.nodes`next, files.nodes`flags, files.nodes`pfd, slotted`flags, slotted`pfd
    {
      Indexed() && Slots() && Placed(files.nodes)
    }

    /** No slot is spent on a disabled source. */
    ghost predicate Exact()
      reads this, slotted`flags
    {
      forall i {:trigger slotted[i]} :: 0 <= i < |slotted| ==> On(slotted[i])
    }

    /** gwrl_bkd_init */
    constructor (files: SourceList, capacity: nat)
      requires files.Valid() && files.nodes == []
      ensures Valid() && Exact() && this.files == files && fds.Length == capacity && fresh(fds)
      ensures slotted == [] && lkpSrc == map[]
    {
      this.files, nfds, lkpSrc, slotted := files, 0, map[], [];
      fds := new PollFd[capacity](_ => FREE_SLOT);
    }

    /** The next free slot goes to the source; its bits are added to those of a zero slot. */
    method TakeSlot(src: Src)
      requires Slots() && nfds < fds.Length
      requires forall i :: 0 <= i < |slotted| ==> slotted[i] != src
      modifies `nfds, `slotted, fds, src`pfd
      ensures Slots() && slotted == old(slotted) + [src] && src.pfd == old(nfds)
      ensures fds[old(nfds)].revents == {}
      ensures forall i :: 0 <= i < fds.Length && i != old(nfds) ==> fds[i] == old(fds[i])
    {
      fds[nfds] := fds[nfds].(fd := src.fd, revents := {}, events := fds[nfds].events + Mask(src.flags));
      src.pfd := nfds;
      nfds := nfds + 1;
      slotted := slotted + [src];
    }

    /** The array is cleared; `slotted` is empty again. */
    method ClearSlots()
      requires nfds <= fds.Length
      requires forall i {:trigger fds[i]} :: nfds <= i < fds.Length ==> fds[i] == FREE_SLOT
      modifies `nfds, `slotted, fds
      ensures Slots() && slotted == []
    {
      forall i | 0 <= i < nfds {
        fds[i] := FREE_SLOT;
      }
      nfds := 0;
      slotted := [];
    }

    /** The first k sources of the list have been gone through. */
    ghost predicate Recalculated(ss: seq<Src>, k: nat)
      requires k <= |ss|
      reads this, fds, ss`flags, ss`pfd, slotted`flags, slotted`pfd
    {
      && Slots() && slotted == EnabledOf(ss[..k]) && nfds <= k
      && (forall i, j :: 0 <= i < |slotted| && k <= j < |ss| ==> slotted[i] != ss[j])
      && (forall i {:trigger ss[i]} :: 0 <= i < |ss| ==>
            0 <= ss[i].pfd < fds.Length && (i < k && On(ss[i]) ==> Owns(ss[i])))
      && (forall i {:trigger fds[i]} :: 0 <= i < fds.Length ==> fds[i].revents == {})
    }

    method Reconsider(src: Src, ghost ss: seq<Src>, ghost k: nat)
      requires k < |ss| <= fds.Length && src == ss[k] && Distinct(ss) && Recalculated(ss, k)
      modifies `nfds, `slotted, fds, src`pfd
      ensures Recalculated(ss, k + 1)
    {
      EnabledOfOneMore(ss, k);
      if ENABLED in src.flags {
        TakeSlot(src);
      }
    }

    lemma RecalculatedIsValid()
      requires files.Valid() && |files.nodes| <= fds.Length && Table()
      requires Recalculated(files.nodes, |files.nodes|)
      ensures Valid() && Exact() && slotted == EnabledOf(files.nodes)
    {
      assert files.nodes[..|files.nodes|] == files.nodes;
      EnabledOfAreOn(files.nodes);
      forall i {:trigger slotted[i]} | 0 <= i < |slotted|
        ensures On(slotted[i]) && slotted[i] in files.nodes
      {
        assert slotted[i] in slotted;
      }
    }

    /** The walk over the list of gwrl_bkd_recalc_srcs. */
    method Recalculate(ghost ss: seq<Src>)
      requires SrcChain(files.head, ss) && nfds <= fds.Length && |ss| <= fds.Length
      requires forall i {:trigger fds[i]} :: nfds <= i < fds.Length ==> fds[i] == FREE_SLOT
      requires forall i {:trigger ss[i]} :: 0 <= i < |ss| ==> 0 <= ss[i].pfd < fds.Length
      modifies `nfds, `slotted, fds, ss`pfd
      ensures Recalculated(ss, |ss|)
    {
      var src := files.head;
      ClearSlots();
      ghost var k := 0;
      while src != null
        invariant 0 <= k <= |ss| && src == if k < |ss| then ss[k] else null
        invariant SrcChain(files.head, ss)
        invariant Recalculated(ss, k)
        decreases |ss| - k
      {
        assert ss[k].next == if k + 1 < |ss| then ss[k + 1] else null;
        Reconsider(src, ss, k);
        src := src.next;
        k := k + 1;
      }
    }

    /** gwrl_bkd_recalc_srcs */
    method RecalcSrcs()
      requires files.Valid() && nfds <= fds.Length && |files.nodes| <= fds.Length && Table()
      requires forall i {:trigger fds[i]} :: nfds <= i < fds.Length ==> fds[i] == FREE_SLOT
      requires forall i {:trigger files.nodes[i]} :: 0 <= i < |files.nodes| ==> 0 <= files.nodes[i].pfd < fds.Length
      modifies `nfds, `slotted, fds, files.nodes`pfd
      ensures Valid() && Exact() && slotted == EnabledOf(files.nodes)
      ensures forall i {:trigger fds[i]} :: 0 <= i < fds.Length ==> fds[i].revents == {}
    {
      Recalculate(files.nodes);
      RecalculatedIsValid();
    }

    /** The source is at the head of the list but not yet known to the backend. */
    ghost predicate Incoming(src: Src)
      reads this, fds, files, files.nodes`next, files.nodes`flags, files.nodes`pfd, slotted`flags, slotted`pfd
    {
      && files.Valid() && files.nodes != [] && files.nodes[0] == src && nfds < |files.nodes| <= fds.Length
      && Slots() && src.fd !in lkpSrc
      && (forall i {:trigger files.nodes[i]} :: 0 < i < |files.nodes| ==>
            && 0 <= files.nodes[i].pfd < fds.Length && (On(files.nodes[i]) ==> Owns(files.nodes[i]))
            && files.nodes[i].fd in lkpSrc && lkpSrc[files.nodes[i].fd] == files.nodes[i])
      && (forall fd {:trigger lkpSrc[fd]} :: fd in lkpSrc ==> lkpSrc[fd] in files.nodes && lkpSrc[fd].fd == fd)
      && (forall i {:trigger slotted[i]} :: 0 <= i < |slotted| ==>
            slotted[i].fd in lkpSrc && lkpSrc[slotted[i].fd] == slotted[i])
    }

    /** gwrl_bkd_src_add, whatever the list: a slot and an entry in the table. */
    method Watch(src: Src)
      requires Slots() && nfds < fds.Length
      requires forall i :: 0 <= i < |slotted| ==> slotted[i] != src
      modifies `nfds, `slotted, `lkpSrc, fds, src`pfd
      ensures Slots() && slotted == old(slotted) + [src] && lkpSrc == old(lkpSrc)[src.fd := src]
      ensures src.pfd == old(nfds)
    {
      TakeSlot(src);
      lkpSrc := lkpSrc[src.fd := src];
    }

    /** gwrl_bkd_src_add, for the new head of the list. */
    method AddToBackend(src: Src)
      requires Incoming(src)
      modifies `nfds, `slotted, `lkpSrc, fds, src`pfd
      ensures Valid() && lkpSrc == old(lkpSrc)[src.fd := src] && slotted == old(slotted) + [src]
      ensures Exact() == (old(Exact()) && On(src))
    {
      ghost var n, was := |slotted|, slotted;
      Watch(src);
      assert slotted[n] == src && forall i :: 0 <= i < n ==> slotted[i] == was[i];
      assert Placed(files.nodes) && Table();
    }

    /** gwrl_src_add: whether it is enabled or not, the source gets a slot. */
    method Add(src: Src)
      requires Valid() && src.fd !in lkpSrc && |files.nodes| < fds.Length
      requires src.next == null || files.nodes != []
      modifies this, fds, files, src`next, src`pfd
      ensures Valid() && Exact() == (old(Exact()) && On(src))
      ensures files.nodes == [src] + old(files.nodes) && lkpSrc == old(lkpSrc)[src.fd := src]
      ensures slotted == old(slotted) + [src]
    {
      assert forall i :: 0 <= i < |files.nodes| ==> files.nodes[i] != src;
      files.Add(src);
      AddToBackend(src);
    }

    ghost predicate Listed(src: Src)
      reads `lkpSrc
    {
      src.fd in lkpSrc && lkpSrc[src.fd] == src
    }

    /** gwrl_bkd_del_src */
    method DeleteFromBackend(src: Src)
      requires files.Valid() && nfds <= fds.Length && |files.nodes| <= fds.Length && Listed(src)
      requires forall i {:trigger files.nodes[i]} :: 0 <= i < |files.nodes| ==>
                 && 0 <= files.nodes[i].pfd < fds.Length
                 && files.nodes[i] != src && files.nodes[i].fd in lkpSrc && lkpSrc[files.nodes[i].fd] == files.nodes[i]
      requires forall fd {:trigger lkpSrc[fd]} :: fd in lkpSrc ==>
                 (lkpSrc[fd] == src || lkpSrc[fd] in files.nodes) && lkpSrc[fd].fd == fd
      requires forall i {:trigger fds[i]} :: nfds <= i < fds.Length ==> fds[i] == FREE_SLOT
      modifies `nfds, `slotted, `lkpSrc, fds, files.nodes`pfd, src`pfd
      ensures Valid() && Exact() && slotted == EnabledOf(files.nodes)
      ensures lkpSrc == old(lkpSrc) - {src.fd} && src.pfd == -1
    {
      src.pfd := -1;
      lkpSrc := lkpSrc - {src.fd};
      RecalcSrcs();
    }

    /** gwrl_src_del of a file source */
    method Delete(src: Src, prev: Src?)
      requires Valid() && Listed(src)
      requires prev != null ==> exists k :: 0 < k < |files.nodes| && files.nodes[k - 1] == prev && files.nodes[k] == src
      modifies this, fds, files, files.nodes`next, files.nodes`pfd
      ensures Valid() && Exact() && slotted == EnabledOf(files.nodes)
      ensures files.nodes == Without(old(files.nodes), src) && lkpSrc == old(lkpSrc) - {src.fd}
      ensures src.next == null && src.pfd == -1
    {
      ghost var ss := files.nodes;
      WithoutMembers(ss, src);
      WithoutShorter(ss, src);
      WithoutElements(ss, src);
      files.Delete(src, prev);
      DeleteFromBackend(src);
    }

    /** gwrl_src_enable and gwrl_bkd_enable_src */
    method Enable(src: Src)
      requires Valid() && Listed(src)
      modifies `nfds, `slotted, fds, files.nodes`pfd, src`flags
      ensures Valid() && Exact() && slotted == EnabledOf(files.nodes)
      ensures src.flags == old(src.flags) + {ENABLED}
    {
      src.flags := src.flags + {ENABLED};
      RecalcSrcs();
    }

    /** gwrl_src_disable and gwrl_bkd_disable_src. The slot the source's pfd points to is no longer its own. */
    method Disable(src: Src)
      requires Valid() && Listed(src)
      modifies `nfds, `slotted, fds, files.nodes`pfd, src`flags
      ensures Valid() && Exact() && slotted == EnabledOf(files.nodes)
      ensures src.flags == old(src.flags) - {ENABLED} && !Owns(src)
      ensures forall i {:trigger fds[i]} :: 0 <= i < fds.Length ==> fds[i].revents == {}
    {
      src.flags := src.flags - {ENABLED};
      RecalcSrcs();
    }

    method WriteMask(p: nat, flags: set<Flag>)
      requires p < fds.Length
      modifies fds
      ensures fds[p] == old(fds[p]).(events := Mask(flags))
      ensures forall i {:trigger fds[i]} :: 0 <= i < fds.Length && i != p ==> fds[i] == old(fds[i])
    {
      fds[p] := fds[p].(events := {});
      if RD in flags {
        fds[p] := fds[p].(events := fds[p].events + {IN});
      }
      if WR in flags {
        fds[p] := fds[p].(events := fds[p].events + {OUT});
      }
      assert fds[p].events == Mask(flags);
    }

    /** A mask has been written where the source's pfd points; `was` is the one it replaced. */
    ghost predicate Overwritten(src: Src, was: set<Bit>)
      reads this, fds, src`flags, src`pfd, slotted`flags, slotted`pfd
    {
      && |slotted| == nfds <= fds.Length && 0 <= src.pfd < fds.Length && fds[src.pfd].events == Mask(src.flags)
      && (forall i {:trigger slotted[i]} :: 0 <= i < nfds ==>
            && slotted[i].pfd == i && fds[i].fd == slotted[i].fd
            && (slotted[i] == src || (if i == src.pfd then was else fds[i].events) == Mask(slotted[i].flags)))
      && (forall i {:trigger fds[i]} :: nfds <= i < fds.Length ==>
            if i == src.pfd then was == {} && fds[i].fd == 0 && fds[i].revents == {} else fds[i] == FREE_SLOT)
    }

    lemma MaskedSlots(src: Src, was: set<Bit>)
      requires Overwritten(src, was)
      ensures Slots() <==> Owns(src) || Mask(src.flags) == was
    {
      if src.pfd < nfds && slotted[src.pfd] != src {
        assert Slots() ==> Mask(src.flags) == was;
      }
    }

    method Overwrite(src: Src, flags: set<Flag>)
      requires Slots() && 0 <= src.pfd < fds.Length
      modifies fds, src`flags
      ensures src.flags == flags && fds[src.pfd] == old(fds[src.pfd]).(events := Mask(flags))
      ensures forall i {:trigger fds[i]} :: 0 <= i < fds.Length && i != src.pfd ==> fds[i] == old(fds[i])
      ensures Overwritten(src, old(fds[src.pfd].events))
    {
      WriteMask(src.pfd, flags);
      src.flags := flags;
    }

    /** gwrl_src_file_update_flags: the mask is written wherever pfd points. The index survives
        exactly if the source owns that slot, or the slot had that mask and the source stays
        disabled. */
    method UpdateFlags(src: Src, flags: set<Flag>)
      requires Valid() && Listed(src)
      modifies fds, src`flags
      ensures src.flags == flags && fds[src.pfd] == old(fds[src.pfd]).(events := Mask(flags))
      ensures forall i {:trigger fds[i]} :: 0 <= i < fds.Length && i != src.pfd ==> fds[i] == old(fds[i])
      ensures WatchedFor(flags, fds[src.pfd].events)
      ensures Valid() <==> Owns(src) || (ENABLED !in flags && Mask(flags) == old(fds[src.pfd].events))
    {
      MaskWatches(flags);
      ghost var k :| 0 <= k < |files.nodes| && files.nodes[k] == src;
      Overwrite(src, flags);
      MaskedSlots(src, old(fds[src.pfd].events));
      assert Placed(files.nodes) <==> Owns(src) || ENABLED !in flags;
      assert Indexed() == old(Indexed());
    }

    /** Every slot in use is watched for what its source asks for: input if it reads, output if it writes, and
        nothing else; and every enabled listed source has such a slot. */
    lemma WatchedRightly()
      requires Valid()
      ensures forall i {:trigger slotted[i]} :: 0 <= i < nfds ==>
                fds[i].fd == slotted[i].fd && WatchedFor(slotted[i].flags, fds[i].events)
      ensures forall i {:trigger files.nodes[i]} :: 0 <= i < |files.nodes| && ENABLED in files.nodes[i].flags ==>
                var s := files.nodes[i];
                0 <= s.pfd < nfds && fds[s.pfd].fd == s.fd && WatchedFor(s.flags, fds[s.pfd].events)
    {
      forall i {:trigger slotted[i]} | 0 <= i < nfds
        ensures WatchedFor(slotted[i].flags, fds[i].events)
      {
        MaskWatches(slotted[i].flags);
      }
      forall i {:trigger files.nodes[i]} | 0 <= i < |files.nodes| && ENABLED in files.nodes[i].flags
        ensures var s := files.nodes[i];
          0 <= s.pfd < nfds && fds[s.pfd].fd == s.fd && WatchedFor(s.flags, fds[s.pfd].events)
      {
        assert Owns(files.nodes[i]) && slotted[files.nodes[i].pfd] == files.nodes[i];
      }
    }

    /** The slots in use hold each enabled listed source exactly once and nothing else. */
    lemma PolledExactly()
      requires Valid()
      ensures Exact() <==> multiset(slotted) == multiset(EnabledOf(files.nodes))
      ensures Exact() ==> nfds == |EnabledOf(files.nodes)|
    {
      var ss, es := files.nodes, EnabledOf(files.nodes);
      EnabledOfAreOn(ss);
      EnabledOfDistinct(ss);
      if Exact() {
        forall i | 0 <= i < |slotted|
          ensures slotted[i] in es
        {
          assert lkpSrc[slotted[i].fd] in ss;
          var k :| 0 <= k < |ss| && ss[k] == slotted[i];
          EnabledOfHasAll(ss, k);
        }
        forall i | 0 <= i < |es|
          ensures es[i] in slotted
        {
          assert es[i] in es;
          var k :| 0 <= k < |ss| && ss[k] == es[i];
          assert Owns(ss[k]);
        }
        SameElements(slotted, es);
      } else {
        var i :| 0 <= i < |slotted| && !On(slotted[i]);
        assert slotted[i] in multiset(slotted) && slotted[i] !in es;
      }
    }

    /** The tests of one slot's bits in gwrl_bkd_gather. They are read again after the source has been
        disabled, which has cleared them in every slot. */
    method Look(i: nat, src: Src) returns (newflags: set<Flag>, ghost broken: bool)
      requires Valid() && i < nfds && src == slotted[i]
      modifies `nfds, `slotted, fds, files.nodes`pfd, src`flags
      ensures Valid() && newflags == (if old(On(src)) then Ready(old(fds[i].revents)) else {})
      ensures broken == old(Broken(src.flags, fds[i].revents))
      ensures src.flags == if broken then old(src.flags) - {ENABLED} else old(src.flags)
      ensures Looked(broken)
    {
      newflags := {};
      broken := false;
      if ENABLED in src.flags {
        if NVAL in fds[i].revents {
          newflags := newflags + {RD};
          broken := true;
          Disable(src);
        }
        if HUP in fds[i].revents {
          newflags := newflags + {RD};
        }
        if ERR in fds[i].revents {
          newflags := newflags + {RD};
        }
        if IN in fds[i].revents {
          newflags := newflags + {RD};
        }
        if OUT in fds[i].revents {
          newflags := newflags + {WR};
        }
      }
    }

    /** A broken source has every slot assigned anew and all bits cleared; any other changes none. */
    twostate predicate Looked(broken: bool)
      reads this, fds, slotted`flags
    {
      if broken then
        Exact() && forall j {:trigger fds[j]} :: 0 <= j < fds.Length ==> fds[j].revents == {}
      else
        nfds == old(nfds) && slotted == old(slotted) && forall j :: 0 <= j < fds.Length ==> fds[j] == old(fds[j])
    }

    /** poll's answer, written into the slots in use. */
    method Answer(ready: seq<set<Bit>>)
      requires Valid() && |ready| == nfds
      modifies fds
      ensures Valid() && forall j :: 0 <= j < nfds ==> fds[j].revents == ready[j]
    {
      forall j | 0 <= j < nfds {
        fds[j] := fds[j].(revents := ready[j]);
      }
    }

    /** Slots gone through: `seen` of them as poll answered, the last of these broken if `broken`. */
    ghost predicate Gathered(seen: nat, broken: bool, ss: seq<Src>, fl: seq<set<Flag>>, ready: seq<set<Bit>>)
      reads ss`flags
    {
      && seen <= |ss| == |fl| == |ready|
      && (broken ==> seen > 0 && Broken(fl[seen - 1], ready[seen - 1]))
      && (forall j :: 0 <= j < (if broken then seen - 1 else seen) ==> !Broken(fl[j], ready[j]))
      && (forall j :: 0 <= j < |ss| ==> ss[j].flags == if broken && j == seen - 1 then fl[j] - {ENABLED} else fl[j])
    }

    /** In the middle of the loop, at slot i. */
    ghost predicate Gathering(i: nat, seen: nat, broken: bool, ss: seq<Src>, fl: seq<set<Flag>>, ready: seq<set<Bit>>)
      reads this, fds, files, files.nodes`next, files.nodes`flags, files.nodes`pfd, slotted`flags, slotted`pfd, ss`flags
    {
      && Valid() && Gathered(seen, broken, ss, fl, ready)
      && if broken then Exact() && forall j {:trigger fds[j]} :: 0 <= j < fds.Length ==> fds[j].revents == {}
         else i == seen && slotted == ss && forall j :: 0 <= j < nfds ==> fds[j].revents == ready[j]
    }

    /** One more slot has been gone through. */
    lemma OneMoreGathered(seen: nat, now: bool, ss: seq<Src>, fl: seq<set<Flag>>, ready: seq<set<Bit>>)
      requires seen < |ss| == |fl| == |ready| && now == Broken(fl[seen], ready[seen])
      requires forall j :: 0 <= j < seen ==> !Broken(fl[j], ready[j])
      requires ss[seen].flags == if now then fl[seen] - {ENABLED} else fl[seen]
      requires forall j :: 0 <= j < |ss| && j != seen ==> ss[j].flags == fl[j]
      ensures Gathered(seen + 1, now, ss, fl, ready)
    {
    }

    /** The tests of slot i in the loop. */
    method LookAt(i: nat, src: Src, ghost seen: nat, ghost broken: bool, ghost ss: seq<Src>, ghost fl: seq<set<Flag>>,
                  ghost ready: seq<set<Bit>>)
      returns (newflags: set<Flag>, ghost now: bool)
      requires Gathering(i, seen, broken, ss, fl, ready) && i < nfds && src == slotted[i]
      modifies `nfds, `slotted, fds, files.nodes`pfd, src`flags
      ensures Gathering(i + 1, if broken then seen else seen + 1, broken || now, ss, fl, ready)
      ensures if broken then newflags == {}
              else seen < |ss| && src == ss[seen] && newflags == if ENABLED in fl[seen] then Ready(ready[seen]) else {}
    {
      assert forall j {:trigger slotted[j]} :: 0 <= j < |slotted| && j != i ==> slotted[j] != src;
      newflags, now := Look(i, src);
      assert broken ==> src.flags == old(src.flags);
      if !broken {
        OneMoreGathered(seen, now, ss, fl, ready);
      }
    }

    /** The source whose descriptor a slot holds. */
    method Find(i: nat) returns (src: Src)
      requires Valid() && i < nfds
      ensures src == slotted[i] && src in files.nodes
    {
      assert slotted[i].fd in lkpSrc && lkpSrc[slotted[i].fd] == slotted[i];
      src := lkpSrc[fds[i].fd];
    }

    /** The part of a turn that looks at the slot. */
    method Visit(i: nat, ghost seen: nat, ghost broken: bool, ghost ss: seq<Src>, ghost fl: seq<set<Flag>>,
                 ghost ready: seq<set<Bit>>)
      returns (src: Src, newflags: set<Flag>, ghost seen': nat, ghost broken': bool)
      requires Gathering(i, seen, broken, ss, fl, ready) && i < nfds
      modifies `nfds, `slotted, fds, files.nodes`pfd, files.nodes`flags
      ensures Gathering(i + 1, seen', broken', ss, fl, ready)
      ensures seen' == (if broken then seen else seen + 1) && (broken ==> broken' && newflags == {})
      ensures !broken ==>
                seen < |ss| && src == ss[seen] && newflags == if ENABLED in fl[seen] then Ready(ready[seen]) else {}
    {
      src := Find(i);
      ghost var now;
      newflags, now := LookAt(i, src, seen, broken, ss, fl, ready);
      seen', broken' := if broken then seen else seen + 1, broken || now;
    }

    lemma SlotsDistinct()
      requires Slots()
      ensures Distinct(slotted)
    {
      assert forall i, j :: 0 <= i < j < |slotted| ==> slotted[i].pfd != slotted[j].pfd;
    }

    /** The loop of gwrl_bkd_gather, given what poll returned: the events of the slots up to the first broken
        source are posted, that source is disabled, and the slots after it wait for the next poll.
        `fl` are the flags of the sources in their slots, `posts` the events in posting order. */
    method GatherSlots(res: int, ready: seq<set<Bit>>, ghost fl: seq<set<Flag>>)
      returns (posts: seq<Msg>, ghost seen: nat, ghost broken: bool)
      requires Valid() && |ready| == nfds == |fl|
      requires forall j :: 0 <= j < nfds ==> fl[j] == slotted[j].flags
      modifies `nfds, `slotted, fds, files.nodes`pfd, files.nodes`flags
      ensures Valid() && (broken ==> Exact())
      ensures Gathered(seen, broken, old(slotted), fl, ready)
      ensures if res <= 0 then seen == 0 else broken || seen == |ready|
      ensures posts == News(old(slotted)[..seen], fl[..seen], ready[..seen])
    {
      ghost var ss := slotted;
      posts, seen, broken := [], 0, false;
      if res > 0 {
        Answer(ready);
        var i := 0;
        while i < nfds
          invariant Gathering(i, seen, broken, ss, fl, ready)
          invariant posts == News(ss[..seen], fl[..seen], ready[..seen])
          decreases |files.nodes| - i
        {
          ghost var k := seen;
          var src, newflags;
          src, newflags, seen, broken := Visit(i, seen, broken, ss, fl, ready);
          if newflags != {} {
            posts := posts + [Msg(src.callback, src.userdata, src, src.fd, newflags)];
          }
          if k < |ss| {
            NewsOneMore(ss, fl, ready, k);
            assert seen == k || posts == News(ss[..k], fl[..k], ready[..k]) + Told(ss[k], fl[k], ready[k]);
          }
          i := i + 1;
        }
      }
    }

    /** gwrl_bkd_gather. In terms of the bits themselves: what each source of the slots gone through is told, and
        that only a slot of an enabled source with POLLNVAL ends the gather for those after it. */
    method Gather(res: int, ready: seq<set<Bit>>, ghost fl: seq<set<Flag>>)
      returns (posts: seq<Msg>, ghost seen: nat, ghost broken: bool)
      requires Valid() && |ready| == nfds == |fl|
      requires forall j :: 0 <= j < nfds ==> fl[j] == slotted[j].flags
      modifies `nfds, `slotted, fds, files.nodes`pfd, files.nodes`flags
      ensures Valid() && (broken ==> Exact())
      ensures Gathered(seen, broken, old(slotted), fl, ready)
      ensures if res <= 0 then seen == 0 else broken || seen == |ready|
      ensures posts == News(old(slotted)[..seen], fl[..seen], ready[..seen])
      ensures Reported(posts, seen, old(slotted), fl, ready) && StopsAtBroken(seen, broken, fl, ready)
    {
      SlotsDistinct();
      ghost var ss := slotted;
      posts, seen, broken := GatherSlots(res, ready, fl);
      NewsReport(seen, ss, fl, ready);
    }
  }
}
