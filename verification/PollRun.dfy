/** Runs of the poll index: what any sequence of calls makes of the list, the flags and the slots. */
module PollRun {
  import opened Seqs
  import opened Flags
  import opened Reactor
  import opened Sources
  import opened Poll

  datatype Call =
    | Adding(src: Src)
    | Deleting(src: Src)
    | Enabling(src: Src)
    | Disabling(src: Src)
    | Updating(src: Src, flags: set<Flag>)

  /** The list of sources, the sources that have a slot, and the flags of all sources of interest. */
  datatype Watch = Watch(list: seq<Src>, slots: seq<Src>, flags: map<Src, set<Flag>>)

  ghost predicate Awake(w: Watch, s: Src) {
    s in w.flags && ENABLED in w.flags[s]
  }

  ghost function EnabledIn(ss: seq<Src>, w: Watch): seq<Src> {
    if ss == [] then []
    else EnabledIn(ss[..|ss| - 1], w) + (if Awake(w, Last(ss)) then [Last(ss)] else [])
  }

  /** The slots after gwrl_bkd_recalc_srcs. */
  ghost function Recalculate(w: Watch): Watch {
    w.(slots := EnabledIn(w.list, w))
  }

  /** What a client must see to: a source is added that is not listed and whose descriptor is not watched,
      while there is room; the other calls are about listed sources; flags are updated only of a source
      that has a slot. */
  ghost predicate Legal(w: Watch, capacity: nat, call: Call) {
    && call.src in w.flags
    && match call
       case Adding(src) => (forall s :: s in w.list ==> s.fd != src.fd) && |w.list| < capacity
       case Updating(src, _) => src in w.list && src in w.slots
       case _ => call.src in w.list
  }

  ghost function After(w: Watch, call: Call): Watch {
    match call
    case Adding(src) => w.(list := [src] + w.list, slots := w.slots + [src])
    case Deleting(src) => Recalculate(w.(list := Without(w.list, src)))
    case Enabling(src) =>
      if src in w.flags then Recalculate(w.(flags := w.flags[src := w.flags[src] + {ENABLED}])) else w
    case Disabling(src) =>
      if src in w.flags then Recalculate(w.(flags := w.flags[src := w.flags[src] - {ENABLED}])) else w
    case Updating(src, flags) => w.(flags := w.flags[src := flags])
  }

  ghost predicate LegalCalls(w: Watch, capacity: nat, calls: seq<Call>)
    decreases |calls|
  {
    calls == [] ||
    (&& LegalCalls(w, capacity, calls[..|calls| - 1])
     && Legal(AfterAll(w, calls[..|calls| - 1]), capacity, Last(calls)))
  }

  ghost function AfterAll(w: Watch, calls: seq<Call>): Watch {
    if calls == [] then w else After(AfterAll(w, calls[..|calls| - 1]), Last(calls))
  }

  // ---- What every run keeps ----

  /** Every enabled listed source has a slot, and no other source has one but a listed source. */
  ghost predicate Covered(w: Watch) {
    && Distinct(w.list) && Distinct(w.slots)
    && (forall s :: s in w.list ==> s in w.flags)
    && (forall s :: s in w.list && Awake(w, s) ==> s in w.slots)
    && (forall s :: s in w.slots ==> s in w.list)
  }

  ghost predicate AllAwake(w: Watch) {
    forall s :: s in w.slots ==> Awake(w, s)
  }

  lemma {:induction false} EnabledInAre(ss: seq<Src>, w: Watch)
    requires Distinct(ss)
    ensures Distinct(EnabledIn(ss, w))
    ensures forall s :: s in EnabledIn(ss, w) ==> s in ss && Awake(w, s)
    ensures forall s :: s in ss && Awake(w, s) ==> s in EnabledIn(ss, w)
  {
    if ss != [] {
      var init := ss[..|ss| - 1];
      EnabledInAre(init, w);
      DistinctConcat(EnabledIn(init, w), if Awake(w, Last(ss)) then [Last(ss)] else []);
      assert ss == init + [Last(ss)];
    }
  }

  lemma RecalculateCovers(w: Watch)
    requires Distinct(w.list) && forall s :: s in w.list ==> s in w.flags
    ensures Covered(Recalculate(w)) && AllAwake(Recalculate(w))
  {
    EnabledInAre(w.list, w);
    var v := Recalculate(w);
    assert v.slots == EnabledIn(w.list, w);
    assert forall s :: s in v.slots ==> s in w.list && Awake(w, s);
  }

  /** A legal call keeps the slots covering. They are all of enabled sources after it if they were before
      it and no source was added or updated without GWRL_ENABLED, or if it was any other call. */
  lemma CallKeeps(w: Watch, capacity: nat, call: Call)
    requires Covered(w) && Legal(w, capacity, call)
    ensures Covered(After(w, call))
    ensures AllAwake(After(w, call)) <==>
            match call
            case Adding(src) => AllAwake(w) && Awake(w, src)
            case Updating(src, flags) => ENABLED in flags && forall s :: s in w.slots && s != src ==> Awake(w, s)
            case _ => true
  {
    match call
    case Adding(src) =>
      var v := After(w, call);
      DistinctConcat([src], w.list);
      DistinctConcat(w.slots, [src]);
      assert src in v.slots;
      assert forall s :: s in w.slots ==> s in v.slots;
    case Deleting(src) =>
      WithoutKeepsDistinct(w.list, src);
      WithoutMembers(w.list, src);
      RecalculateCovers(w.(list := Without(w.list, src)));
    case Enabling(src) => RecalculateCovers(w.(flags := w.flags[src := w.flags[src] + {ENABLED}]));
    case Disabling(src) => RecalculateCovers(w.(flags := w.flags[src := w.flags[src] - {ENABLED}]));
    case Updating(src, flags) =>
  }

  lemma {:induction false} WithoutKeepsDistinct(ss: seq<Src>, x: Src)
    requires Distinct(ss)
    ensures Distinct(Without(ss, x))
  {
    if x in ss {
      var k :| 0 <= k < |ss| && ss[k] == x;
      WithoutAt(ss, k);
    } else {
      WithoutAbsent(ss, x);
    }
  }

  /** Whatever the calls, no enabled source is ever left unwatched. */
  lemma {:induction false} NeverUnwatched(w: Watch, capacity: nat, calls: seq<Call>)
    requires Covered(w) && LegalCalls(w, capacity, calls)
    ensures Covered(AfterAll(w, calls))
    decreases |calls|
  {
    if calls != [] {
      var before := calls[..|calls| - 1];
      NeverUnwatched(w, capacity, before);
      CallKeeps(AfterAll(w, before), capacity, Last(calls));
    }
  }

  /** The sources that are watched for nothing, told from the calls alone: a source added, or updated to be,
      without GWRL_ENABLED, until it is updated again or the slots are recalculated. */
  ghost function Idle(w: Watch, calls: seq<Call>): set<Src> {
    if calls == [] then set s | s in w.slots && !Awake(w, s)
    else
      var before := calls[..|calls| - 1];
      match Last(calls)
      case Adding(src) => Idle(w, before) + (if Awake(AfterAll(w, before), src) then {} else {src})
      case Updating(src, flags) => Idle(w, before) - {src} + (if ENABLED in flags then {} else {src})
      case _ => {}
  }

  lemma {:induction false} IdleSlots(w: Watch, capacity: nat, calls: seq<Call>)
    requires Covered(w) && LegalCalls(w, capacity, calls)
    ensures var v := AfterAll(w, calls); Idle(w, calls) == set s | s in v.slots && !Awake(v, s)
    decreases |calls|
  {
    if calls != [] {
      var before, v := calls[..|calls| - 1], AfterAll(w, calls);
      var u := AfterAll(w, before);
      IdleSlots(w, capacity, before);
      NeverUnwatched(w, capacity, before);
      CallKeeps(u, capacity, Last(calls));
      match Last(calls)
      case Adding(src) => assert forall s :: s in v.slots <==> s in u.slots || s == src;
      case Updating(_, _) =>
      case _ =>
    }
  }

  lemma ExactlyIff(w: Watch)
    requires Covered(w)
    ensures multiset(w.slots) == multiset(EnabledIn(w.list, w)) <==> AllAwake(w)
  {
    EnabledInAre(w.list, w);
    var es := EnabledIn(w.list, w);
    if AllAwake(w) {
      SameElements(w.slots, es);
    } else {
      var s :| s in w.slots && !Awake(w, s);
      assert s in multiset(w.slots) && s !in es;
    }
  }

  /** Over any run of legal calls: the slots are exactly those of the enabled listed sources if and only
      if no source is watched for nothing. */
  lemma WatchedExactlyIff(w: Watch, capacity: nat, calls: seq<Call>)
    requires Covered(w) && LegalCalls(w, capacity, calls)
    ensures var v := AfterAll(w, calls);
      multiset(v.slots) == multiset(EnabledIn(v.list, v)) <==> Idle(w, calls) == {}
  {
    var v := AfterAll(w, calls);
    NeverUnwatched(w, capacity, calls);
    IdleSlots(w, capacity, calls);
    ExactlyIff(v);
    if !AllAwake(v) {
      var s :| s in v.slots && !Awake(v, s);
      assert s in Idle(w, calls);
    }
  }

  // ---- What the calls alone say ----

  /** The call says whether the source is enabled. */
  predicate Switches(call: Call, s: Src) {
    call.src == s && (call.Enabling? || call.Disabling? || call.Updating?)
  }

  predicate SwitchesOn(call: Call, s: Src) {
    call.src == s && (call.Enabling? || (call.Updating? && ENABLED in call.flags))
  }

  /** The last of the calls that says whether the source is enabled says that it is; if none does, it was at
      the start. */
  ghost predicate LeftEnabled(w: Watch, calls: seq<Call>, s: Src) {
    || (exists k {:trigger calls[k]} :: 0 <= k < |calls| && SwitchesOn(calls[k], s) && Silent(calls, k + 1, s))
    || (Awake(w, s) && Silent(calls, 0, s))
  }

  /** From the k-th call on, none says whether the source is enabled. */
  predicate Silent(calls: seq<Call>, k: nat, s: Src) {
    forall j {:trigger calls[j]} :: k <= j < |calls| ==> !Switches(calls[j], s)
  }

  predicate Moves(call: Call, s: Src) {
    call.src == s && (call.Adding? || call.Deleting?)
  }

  /** The same for the list: the last call that adds or deletes the source adds it. */
  ghost predicate LeftListed(w: Watch, calls: seq<Call>, s: Src) {
    || (exists k {:trigger calls[k]} :: 0 <= k < |calls| && calls[k] == Adding(s) && Unmoved(calls, k + 1, s))
    || (s in w.list && Unmoved(calls, 0, s))
  }

  predicate Unmoved(calls: seq<Call>, k: nat, s: Src) {
    forall j {:trigger calls[j]} :: k <= j < |calls| ==> !Moves(calls[j], s)
  }

  /** And for any other flag: only an update changes it. */
  ghost predicate LeftFlagged(w: Watch, calls: seq<Call>, s: Src, f: Flag) {
    || (exists k {:trigger calls[k]} ::
          && 0 <= k < |calls| && calls[k].Updating? && calls[k].src == s && f in calls[k].flags
          && Unchanged(calls, k + 1, s))
    || (s in w.flags && f in w.flags[s] && Unchanged(calls, 0, s))
  }

  predicate Unchanged(calls: seq<Call>, k: nat, s: Src) {
    forall j {:trigger calls[j]} :: k <= j < |calls| ==> !(calls[j].Updating? && calls[j].src == s)
  }

  lemma LastSwitch(w: Watch, calls: seq<Call>, s: Src)
    requires calls != []
    ensures LeftEnabled(w, calls, s) <==>
            if Switches(Last(calls), s) then SwitchesOn(Last(calls), s) else LeftEnabled(w, calls[..|calls| - 1], s)
  {
    var n := |calls| - 1;
    var before := calls[..n];
    assert calls[n] == Last(calls) && forall j :: 0 <= j < n ==> before[j] == calls[j];
    if LeftEnabled(w, before, s) && !Switches(Last(calls), s) {
      if Awake(w, s) && Silent(before, 0, s) {
        assert Silent(calls, 0, s);
      } else {
        var k :| 0 <= k < n && SwitchesOn(before[k], s) && Silent(before, k + 1, s);
        assert SwitchesOn(calls[k], s) && Silent(calls, k + 1, s);
      }
    }
    if SwitchesOn(Last(calls), s) {
      assert SwitchesOn(calls[n], s) && Silent(calls, n + 1, s);
    }
  }

  lemma LastMove(w: Watch, calls: seq<Call>, s: Src)
    requires calls != []
    ensures LeftListed(w, calls, s) <==>
            if Moves(Last(calls), s) then Last(calls).Adding? else LeftListed(w, calls[..|calls| - 1], s)
  {
    var n := |calls| - 1;
    var before := calls[..n];
    assert calls[n] == Last(calls) && forall j :: 0 <= j < n ==> before[j] == calls[j];
    if LeftListed(w, before, s) && !Moves(Last(calls), s) {
      if s in w.list && Unmoved(before, 0, s) {
        assert Unmoved(calls, 0, s);
      } else {
        var k :| 0 <= k < n && before[k] == Adding(s) && Unmoved(before, k + 1, s);
        assert calls[k] == Adding(s) && Unmoved(calls, k + 1, s);
      }
    }
    if Last(calls) == Adding(s) {
      assert calls[n] == Adding(s) && Unmoved(calls, n + 1, s);
    }
  }

  lemma LastUpdate(w: Watch, calls: seq<Call>, s: Src, f: Flag)
    requires calls != []
    ensures LeftFlagged(w, calls, s, f) <==>
            if Last(calls).Updating? && Last(calls).src == s then f in Last(calls).flags
            else LeftFlagged(w, calls[..|calls| - 1], s, f)
  {
    var n := |calls| - 1;
    var before := calls[..n];
    assert calls[n] == Last(calls) && forall j :: 0 <= j < n ==> before[j] == calls[j];
    if LeftFlagged(w, before, s, f) && !(Last(calls).Updating? && Last(calls).src == s) {
      if s in w.flags && f in w.flags[s] && Unchanged(before, 0, s) {
        assert Unchanged(calls, 0, s);
      } else {
        var k :| 0 <= k < n && before[k].Updating? && before[k].src == s && f in before[k].flags
                 && Unchanged(before, k + 1, s);
        assert calls[k].Updating? && calls[k].src == s && f in calls[k].flags && Unchanged(calls, k + 1, s);
      }
    }
    if Last(calls).Updating? && Last(calls).src == s && f in Last(calls).flags {
      assert f in calls[n].flags && Unchanged(calls, n + 1, s);
    }
  }

  /** What one legal call does to the list and to the flags of a source. */
  lemma CallSays(w: Watch, capacity: nat, call: Call, s: Src)
    requires Covered(w) && Legal(w, capacity, call) && s in w.flags
    ensures var v := After(w, call);
      && v.flags.Keys == w.flags.Keys
      && (Awake(v, s) <==> if Switches(call, s) then SwitchesOn(call, s) else Awake(w, s))
      && (s in v.list <==> if Moves(call, s) then call.Adding? else s in w.list)
      && (forall f :: f != ENABLED ==>
            (f in v.flags[s] <==> if call.Updating? && call.src == s then f in call.flags else f in w.flags[s]))
  {
    if call.Deleting? {
      WithoutMembers(w.list, call.src);
    }
  }

  /** Over any run of legal calls, flags and list are what the calls say: a source is enabled, or listed, if the
      last call about that says so, or was so at the start; its other flags are those of its last update, or
      those it had. */
  lemma {:induction false} CallsSay(w: Watch, capacity: nat, calls: seq<Call>, s: Src)
    requires Covered(w) && LegalCalls(w, capacity, calls) && s in w.flags
    ensures var v := AfterAll(w, calls);
      && v.flags.Keys == w.flags.Keys
      && (ENABLED in v.flags[s] <==> LeftEnabled(w, calls, s)) && (s in v.list <==> LeftListed(w, calls, s))
      && (forall f :: f != ENABLED ==> (f in v.flags[s] <==> LeftFlagged(w, calls, s, f)))
    decreases |calls|
  {
    if calls != [] {
      var before := calls[..|calls| - 1];
      CallsSay(w, capacity, before, s);
      NeverUnwatched(w, capacity, before);
      CallSays(AfterAll(w, before), capacity, Last(calls), s);
      LastSwitch(w, calls, s);
      LastMove(w, calls, s);
      forall f | f != ENABLED
        ensures f in AfterAll(w, calls).flags[s] <==> LeftFlagged(w, calls, s, f)
      {
        LastUpdate(w, calls, s, f);
      }
    }
  }

  // ---- The index itself ----

  ghost function FlagsOf(all: set<Src>): map<Src, set<Flag>>
    reads all`flags
  {
    map s | s in all :: s.flags
  }

  ghost function Now(index: PollIndex, all: set<Src>): Watch
    reads index, index.files, all`flags
  {
    Watch(index.files.nodes, index.slotted, FlagsOf(all))
  }

  /** The sources of interest: all that are listed, and those that are not are linked to nothing. */
  ghost predicate Known(index: PollIndex, all: set<Src>)
    reads index.files, all`next
  {
    && (forall i {:trigger index.files.nodes[i]} :: 0 <= i < |index.files.nodes| ==> index.files.nodes[i] in all)
    && (forall s {:trigger s.next} :: s in all && s !in index.files.nodes ==> s.next == null)
  }

  lemma {:induction false} EnabledAgrees(ss: seq<Src>, w: Watch)
    requires forall i {:trigger ss[i]} :: 0 <= i < |ss| ==> ss[i] in w.flags && w.flags[ss[i]] == ss[i].flags
    ensures EnabledOf(ss) == EnabledIn(ss, w)
  {
    if ss != [] {
      assert forall i :: 0 <= i < |ss| - 1 ==> ss[..|ss| - 1][i] == ss[i];
      EnabledAgrees(ss[..|ss| - 1], w);
    }
  }

  /** The slots have been recalculated. */
  lemma Recalculated(index: PollIndex, all: set<Src>, v: Watch)
    requires Known(index, all) && index.files.nodes == v.list && FlagsOf(all) == v.flags
    requires index.slotted == EnabledOf(index.files.nodes)
    ensures Now(index, all) == Recalculate(v)
  {
    EnabledAgrees(v.list, v);
  }

  method AddOne(index: PollIndex, src: Src, ghost all: set<Src>)
    requires index.Valid() && Known(index, all) && src in all && |index.files.nodes| < index.fds.Length
    requires forall s :: s in index.files.nodes ==> s.fd != src.fd
    modifies index, index.fds, index.files, src`next, src`pfd
    ensures index.Valid() && Known(index, all)
    ensures index.files.nodes == [src] + old(index.files.nodes) && index.slotted == old(index.slotted) + [src]
  {
    assert src.fd !in index.lkpSrc;
    assert src !in index.files.nodes;
    index.Add(src);
  }

  method DeleteOne(index: PollIndex, src: Src, ghost all: set<Src>)
    requires index.Valid() && Known(index, all) && src in index.files.nodes
    modifies index, index.fds, index.files, index.files.nodes`next, index.files.nodes`pfd
    ensures index.Valid() && Known(index, all) && index.files.nodes == Without(old(index.files.nodes), src)
    ensures index.slotted == EnabledOf(index.files.nodes)
  {
    WithoutMembers(index.files.nodes, src);
    WithoutElements(index.files.nodes, src);
    index.Delete(src, null);
  }

  /** No flag is touched. */
  method TakeOff(index: PollIndex, src: Src, ghost all: set<Src>)
    requires index.Valid() && Known(index, all) && src in index.files.nodes
    modifies index, index.fds, index.files, index.files.nodes`next, index.files.nodes`pfd
    ensures index.Valid() && Known(index, all) && index.slotted == EnabledOf(index.files.nodes)
    ensures index.files.nodes == Without(old(index.files.nodes), src) && FlagsOf(all) == old(FlagsOf(all))
  {
    DeleteOne(index, src, all);
    assert forall s {:trigger s.flags} :: s in all ==> s.flags == old(s.flags);
  }

  method Switch(index: PollIndex, src: Src, on: bool, ghost all: set<Src>)
    requires index.Valid() && Known(index, all) && src in index.files.nodes
    modifies index`nfds, index`slotted, index.fds, index.files.nodes`pfd, src`flags
    ensures index.Valid() && Known(index, all) && index.slotted == EnabledOf(index.files.nodes)
    ensures src.flags == if on then old(src.flags) + {ENABLED} else old(src.flags) - {ENABLED}
  {
    assert index.Listed(src) && src in all;
    if on {
      index.Enable(src);
    } else {
      index.Disable(src);
    }
    assert Known(index, all) == old(Known(index, all));
  }

  /** No other flag is touched. */
  method SwitchOne(index: PollIndex, src: Src, on: bool, ghost all: set<Src>)
    requires index.Valid() && Known(index, all) && src in index.files.nodes && src in all
    modifies index`nfds, index`slotted, index.fds, index.files.nodes`pfd, src`flags
    ensures index.Valid() && Known(index, all) && index.slotted == EnabledOf(index.files.nodes)
    ensures FlagsOf(all) == old(FlagsOf(all)[src := if on then src.flags + {ENABLED} else src.flags - {ENABLED}])
  {
    Switch(index, src, on, all);
    assert forall s {:trigger s.flags} :: s in all && s != src ==> s.flags == old(s.flags);
  }

  method UpdateOne(index: PollIndex, src: Src, flags: set<Flag>, ghost all: set<Src>)
    requires index.Valid() && Known(index, all) && src in index.files.nodes && src in index.slotted
    modifies index.fds, src`flags
    ensures index.Valid() && Known(index, all) && FlagsOf(all) == old(FlagsOf(all))[src := flags]
  {
    assert src in all;
    ghost var i :| 0 <= i < |index.slotted| && index.slotted[i] == src;
    assert index.Owns(src);
    index.UpdateFlags(src, flags);
    assert Known(index, all) == old(Known(index, all));
  }

  /** Deleting a source, or switching one on or off, recalculates the slots. */
  method Remove(index: PollIndex, src: Src, ghost all: set<Src>)
    requires index.Valid() && Known(index, all) && src in index.files.nodes
    modifies index, index.fds, index.files, all
    ensures index.Valid() && Known(index, all) && Now(index, all) == old(After(Now(index, all), Deleting(src)))
  {
    ghost var w := Now(index, all);
    TakeOff(index, src, all);
    Recalculated(index, all, w.(list := Without(w.list, src)));
  }

  method Turn(index: PollIndex, src: Src, on: bool, ghost all: set<Src>)
    requires index.Valid() && Known(index, all) && src in index.files.nodes
    modifies index, index.fds, index.files, all
    ensures index.Valid() && Known(index, all)
    ensures Now(index, all) == old(After(Now(index, all), if on then Enabling(src) else Disabling(src)))
  {
    ghost var w := Now(index, all);
    assert src in all;
    SwitchOne(index, src, on, all);
    Recalculated(index, all,
                 w.(flags := w.flags[src := if on then w.flags[src] + {ENABLED} else w.flags[src] - {ENABLED}]));
  }

  /** One call does what After says, and touches no source that is not of interest. */
  method Do(index: PollIndex, call: Call, ghost all: set<Src>)
    requires index.Valid() && Known(index, all) && Legal(Now(index, all), index.fds.Length, call)
    modifies index, index.fds, index.files, all
    ensures index.Valid() && Known(index, all) && Now(index, all) == old(After(Now(index, all), call))
  {
    match call
    case Adding(src) => AddOne(index, src, all);
    case Deleting(src) => Remove(index, src, all);
    case Enabling(src) => Turn(index, src, true, all);
    case Disabling(src) => Turn(index, src, false, all);
    case Updating(src, flags) => UpdateOne(index, src, flags, all);
  }

  lemma {:induction false} LegalUpTo(w: Watch, capacity: nat, calls: seq<Call>, k: nat)
    requires LegalCalls(w, capacity, calls) && k < |calls|
    ensures LegalCalls(w, capacity, calls[..k]) && Legal(AfterAll(w, calls[..k]), capacity, calls[k])
    ensures AfterAll(w, calls[..k + 1]) == After(AfterAll(w, calls[..k]), calls[k])
    decreases |calls|
  {
    assert calls[..k + 1][..k] == calls[..k];
    if k < |calls| - 1 {
      LegalUpTo(w, capacity, calls[..|calls| - 1], k);
      assert calls[..|calls| - 1][..k] == calls[..k];
    }
  }

  /** Any legal sequence of calls: the index is kept throughout, and list, slots and flags are at the end
      those of the run of these calls on values. The slots are exactly those of the enabled listed sources
      if and only if the calls left no source watched for nothing. */
  method Run(index: PollIndex, calls: seq<Call>, ghost all: set<Src>)
    requires index.Valid() && Known(index, all) && LegalCalls(Now(index, all), index.fds.Length, calls)
    modifies index, index.fds, index.files, all
    ensures index.Valid() && Known(index, all) && Now(index, all) == AfterAll(old(Now(index, all)), calls)
    ensures multiset(index.slotted) == multiset(EnabledOf(index.files.nodes)) <==>
            Idle(old(Now(index, all)), calls) == {}
    ensures AsCalled(index, all, old(Now(index, all)), calls)
  {
    ghost var w := Now(index, all);
    Covers(index, all);
    for i := 0 to |calls|
      invariant index.Valid() && Known(index, all) && Now(index, all) == AfterAll(w, calls[..i])
    {
      LegalUpTo(w, index.fds.Length, calls, i);
      Do(index, calls[i], all);
    }
    assert calls[..|calls|] == calls;
    Exactly(index, all, w, calls);
    EachAsCalled(index, all, w, calls);
  }

  /** Each source is as the calls alone say. */
  ghost predicate AsCalled(index: PollIndex, all: set<Src>, w: Watch, calls: seq<Call>)
    reads index.files, all`flags
  {
    forall s {:trigger s.flags} :: s in all ==>
      && (ENABLED in s.flags <==> LeftEnabled(w, calls, s)) && (s in index.files.nodes <==> LeftListed(w, calls, s))
      && forall f {:trigger LeftFlagged(w, calls, s, f)} ::
           f != ENABLED ==> (f in s.flags <==> LeftFlagged(w, calls, s, f))
  }

  lemma {:induction false} SameSources(w: Watch, capacity: nat, calls: seq<Call>)
    requires Covered(w) && LegalCalls(w, capacity, calls)
    ensures AfterAll(w, calls).flags.Keys == w.flags.Keys
    decreases |calls|
  {
    if calls != [] {
      var before := calls[..|calls| - 1];
      SameSources(w, capacity, before);
      NeverUnwatched(w, capacity, before);
    }
  }

  lemma EachAsCalled(index: PollIndex, all: set<Src>, w: Watch, calls: seq<Call>)
    requires Now(index, all) == AfterAll(w, calls) && Covered(w) && LegalCalls(w, index.fds.Length, calls)
    ensures AsCalled(index, all, w, calls)
  {
    SameSources(w, index.fds.Length, calls);
    var v := AfterAll(w, calls);
    forall s {:trigger s.flags} | s in all
      ensures ENABLED in s.flags <==> LeftEnabled(w, calls, s)
      ensures s in index.files.nodes <==> LeftListed(w, calls, s)
      ensures forall f {:trigger LeftFlagged(w, calls, s, f)} :: f != ENABLED ==>
                (f in s.flags <==> LeftFlagged(w, calls, s, f))
    {
      assert FlagsOf(all)[s] == s.flags;
      assert s in v.flags.Keys;
      CallsSay(w, index.fds.Length, calls, s);
    }
  }

  lemma Exactly(index: PollIndex, all: set<Src>, w: Watch, calls: seq<Call>)
    requires Known(index, all) && Now(index, all) == AfterAll(w, calls)
    requires Covered(w) && LegalCalls(w, index.fds.Length, calls)
    ensures multiset(index.slotted) == multiset(EnabledOf(index.files.nodes)) <==> Idle(w, calls) == {}
  {
    WatchedExactlyIff(w, index.fds.Length, calls);
    EnabledAgrees(index.files.nodes, Now(index, all));
  }

  /** A valid index covers. */
  lemma Covers(index: PollIndex, all: set<Src>)
    requires index.Valid() && Known(index, all)
    ensures Covered(Now(index, all))
  {
    var w := Now(index, all);
    forall i, j | 0 <= i < j < |w.slots|
      ensures w.slots[i] != w.slots[j]
    {
      assert w.slots[i].pfd == i && w.slots[j].pfd == j;
    }
    forall s | s in w.slots
      ensures s in w.list
    {
      assert index.lkpSrc[s.fd] == s;
    }
    forall s | s in w.list && Awake(w, s)
      ensures s in w.slots
    {
      var i :| 0 <= i < |w.list| && w.list[i] == s;
      assert index.Owns(s);
    }
  }
}
