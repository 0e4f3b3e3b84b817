/** What the kernel's answers to single calls say about the turns of a drain, on values. */
module AnswerSpec {
  import opened Seqs
  import opened WriteSpec
  import opened CallbackSpec

  /** The first item is taken whole in one call; n bytes of the second are taken, and then no more. */
  function PartTaken(x: Item, y: Item, n: nat): seq<Trial>
    requires n <= |y.data|
  {
    [Trial(x, |x.data|, NoError), Trial(y, n, NoError), Trial(Back(y, n), 0, Again)]
  }

  /** The kernel did not take all that it was offered. */
  predicate Short(t: Trial) { t.err != NoError || t.n < |t.offered.data| }

  lemma TookWhole(it: Item, ts: seq<Trial>)
    requires Took(it, ts, |it.data|) && ts != []
    ensures !Short(Last(ts))
  {
  }

  /** Calls for items that are taken whole end with one that took everything. */
  lemma {:induction false} AllTookWhole(items: seq<Item>, ts: seq<Trial>)
    requires AllTook(items, ts) && ts != []
    ensures !Short(Last(ts))
    decreases |items|
  {
    var k :| 0 <= k <= |ts| && AllTook(items[..|items| - 1], ts[..k]) && Took(Last(items), ts[k..], |Last(items).data|);
    if k == |ts| {
      assert ts[..k] == ts;
      AllTookWhole(items[..|items| - 1], ts);
    } else {
      SuffixLast(ts, k);
      TookWhole(Last(items), ts[k..]);
    }
  }

  lemma {:induction false} TookFirst(it: Item, ts: seq<Trial>, k: nat)
    requires Took(it, ts, k) && ts != [] && k <= |it.data|
    ensures ts[0].n <= k && (|ts| >= 2 ==> ts[0].n < k)
    decreases |ts|
  {
    if |ts| >= 2 {
      TookFirst(it, ts[..|ts| - 1], k - Last(ts).n);
    }
  }

  /** A first call that takes everything is the only one. */
  lemma TakenAtOnce(it: Item, ts: seq<Trial>, r: Reply)
    requires Legal(it, r) && Attempts(it, ts, r) && it.data != []
    requires ts != [] ==> ts[0].err == NoError && ts[0].n == |it.data|
    ensures r == Reply(|it.data|, NoError) && |ts| == 1
  {
    if r.err == NoError {
      TookFirst(it, ts, |it.data|);
    } else if |ts| >= 2 {
      TookFirst(it, ts[..|ts| - 1], r.written);
      assert false;
    }
  }

  /** The calls of a turn that ends with a short one are all for its item. */
  lemma TurnCalls(it: Item, ts: seq<Trial>, t: Turn) returns (us: seq<Trial>)
    requires TurnTrials(it, ts, t)
    ensures us <= ts && Attempts(it, us, t.r)
    ensures us == ts || (us < ts && !Short(Last(ts)))
  {
    var k :| 0 <= k <= |ts| && Attempts(it, ts[..k], t.r) && AllTook(t.direct, ts[k..]);
    us := ts[..k];
    if k < |ts| {
      AllTookWhole(t.direct, ts[k..]);
      SuffixLast(ts, k);
    }
  }

  lemma FirstTurnWhole(it: Item, ts: seq<Trial>, t: Turn)
    requires Legal(it, t.r) && TurnTrials(it, ts, t) && it.data != []
    requires ts != [] ==> ts[0].err == NoError && ts[0].n == |it.data|
    requires forall i :: 1 <= i < |ts| ==> Short(ts[i])
    ensures t.r == Reply(|it.data|, NoError) && |ts| == 1
  {
    var us := TurnCalls(it, ts, t);
    TakenAtOnce(it, us, t.r);
  }

  /** An error after some bytes ends the calls for an item. */
  lemma CutAfter(it: Item, n: nat, err: Errno, us: seq<Trial>, r: Reply)
    requires Legal(it, r) && Attempts(it, us, r) && 0 < n < |it.data| && err != NoError
    requires us <= [Trial(it, n, NoError), Trial(Back(it, n), 0, err)]
    ensures r == Reply(n, err)
  {
    var calls := [Trial(it, n, NoError), Trial(Back(it, n), 0, err)];
    assert forall i :: 0 <= i < |us| ==> us[i] == calls[i] && Short(us[i]);
    if r.err == NoError {
      TookWhole(it, us);
      assert false;
    } else {
      assert |Back(it, r.written).data| == |Last(us).offered.data|;
    }
  }

  lemma TurnCut(it: Item, n: nat, err: Errno, ts: seq<Trial>, t: Turn)
    requires Legal(it, t.r) && TurnTrials(it, ts, t) && 0 < n < |it.data| && err != NoError
    requires ts <= [Trial(it, n, NoError), Trial(Back(it, n), 0, err)]
    ensures t.r == Reply(n, err)
  {
    var us := TurnCalls(it, ts, t);
    CutAfter(it, n, err, us, t.r);
  }

  lemma AnsweredUnfolds(items: seq<Item>, turns: seq<Turn>, tail: Tail, h: Handlers, ts: seq<Trial>)
    returns (before: seq<Turn>, f: Flow, t: Turn, k: nat)
    requires turns != [] && LegalFlow(items, turns, tail, h) && Answered(items, turns, tail, h, ts)
    ensures before == turns[..|turns| - 1] && t == Last(turns)
    ensures Queued(turns) == [] ==> Queued(before) == [] && t.during == []
    ensures LegalFlow(items, before, tail, h) && f == RunFlow(items, before, tail, h)
    ensures LegalTurn(f, t, tail, h) && RunFlow(items, turns, tail, h) == StepFlow(f, t, tail, h)
    ensures k <= |ts| && Answered(items, before, tail, h, ts[..k]) && TurnTrials(f.d.todo[0], ts[k..], t)
    ensures EndsCopied(items, turns, tail, h) <==> Copied(f.d.todo[0], t.r)
  {
    before, f, t := FlowUnfolds(items, turns, tail, h);
    k :| 0 <= k <= |ts| && Answered(items, before, tail, h, ts[..k])
         && TurnTrials(RunFlow(items, before, tail, h).d.todo[0], ts[k..], Last(turns));
  }

  /** How far a drain of x and y has come whose calls are answered like that. */
  predicate PartWay(x: Item, y: Item, n: nat, turns: nat, f: Flow, ts: seq<Trial>)
    requires n <= |y.data|
  {
    && f.added == [] && (f.d.halted <==> turns == 2)
    && match turns
       case 0 => f.d.todo == [x, y] && ts == []
       case 1 => f.d.todo == [y] && |ts| == 1
       case _ => turns == 2 && f.d.todo == [Back(y, n)]
  }

  lemma FirstIsWhole(f: Flow, t: Turn, h: Handlers, x: Item, y: Item, ts: seq<Trial>)
    requires LegalTurn(f, t, Right, h) && t.during == [] && f.d.todo == [x, y] && f.added == []
    requires TurnTrials(x, ts, t) && x.data != [] && (ts != [] ==> ts[0] == Trial(x, |x.data|, NoError))
    requires forall i :: 1 <= i < |ts| ==> Short(ts[i])
    ensures var e := StepFlow(f, t, Right, h); e.d.todo == [y] && e.added == [] && !e.d.halted
    ensures |ts| == 1 && !Copied(x, t.r)
  {
    FirstTurnWhole(x, ts, t);
    StepParts(f, t, Right, h);
  }

  lemma SecondIsCut(f: Flow, t: Turn, h: Handlers, y: Item, n: nat, ts: seq<Trial>)
    requires LegalTurn(f, t, Right, h) && t.during == [] && f.d.todo == [y] && f.added == []
    requires TurnTrials(y, ts, t) && 0 < n < |y.data| && ts <= [Trial(y, n, NoError), Trial(Back(y, n), 0, Again)]
    ensures var e := StepFlow(f, t, Right, h); e.d.todo == [Back(y, n)] && e.added == [] && e.d.halted
    ensures Copied(y, t.r)
  {
    TurnCut(y, n, Again, ts, t);
    StepParts(f, t, Right, h);
  }

  lemma PartOf(x: Item, y: Item, n: nat, ts: seq<Trial>)
    requires 0 < n < |y.data| && ts <= PartTaken(x, y, n)
    ensures forall i :: 1 <= i < |ts| ==> Short(ts[i])
    ensures ts != [] ==> ts[0] == Trial(x, |x.data|, NoError)
    ensures |ts| >= 1 ==> ts[1..] <= [Trial(y, n, NoError), Trial(Back(y, n), 0, Again)]
  {
    assert forall i :: 0 <= i < |ts| ==> ts[i] == PartTaken(x, y, n)[i];
  }

  lemma PartWayOn(x: Item, y: Item, n: nat, turns: nat, f: Flow, t: Turn, h: Handlers, ts: seq<Trial>, k: nat)
    requires x.data != [] && 0 < n < |y.data| && ts <= PartTaken(x, y, n) && k <= |ts|
    requires PartWay(x, y, n, turns, f, ts[..k]) && LegalTurn(f, t, Right, h) && t.during == []
    requires TurnTrials(f.d.todo[0], ts[k..], t)
    ensures PartWay(x, y, n, turns + 1, StepFlow(f, t, Right, h), ts)
    ensures Copied(f.d.todo[0], t.r) <==> turns == 1
  {
    PartOf(x, y, n, ts);
    if turns == 0 {
      assert ts[k..] == ts;
      FirstIsWhole(f, t, h, x, y, ts);
    } else {
      SecondIsCut(f, t, h, y, n, ts[k..]);
    }
  }

  lemma {:induction false} PartWayIs(x: Item, y: Item, n: nat, turns: seq<Turn>, h: Handlers, ts: seq<Trial>)
    requires x.data != [] && 0 < n < |y.data| && ts <= PartTaken(x, y, n) && Queued(turns) == []
    requires LegalFlow([x, y], turns, Right, h) && Answered([x, y], turns, Right, h, ts)
    ensures PartWay(x, y, n, |turns|, RunFlow([x, y], turns, Right, h), ts)
    decreases |turns|
  {
    if turns == [] {
      assert ts == [];
    } else {
      var before, f, t, k := AnsweredUnfolds([x, y], turns, Right, h, ts);
      assert ts[..k] <= PartTaken(x, y, n);
      PartWayIs(x, y, n, before, h, ts[..k]);
      PartWayOn(x, y, n, |before|, f, t, h, ts, k);
    }
  }

  /** A drain of x and y whose calls are answered like that. */
  lemma PartTakenEnds(x: Item, y: Item, n: nat, turns: seq<Turn>, h: Handlers)
    requires x.data != [] && 0 < n < |y.data| && Queued(turns) == [] && LegalFlow([x, y], turns, Right, h)
    requires Answered([x, y], turns, Right, h, PartTaken(x, y, n)) && Finished(RunFlow([x, y], turns, Right, h).d)
    ensures var f := RunFlow([x, y], turns, Right, h); f.d.todo == [Back(y, n)] && f.added == [] && f.lost == []
    ensures EndsCopied([x, y], turns, Right, h)
  {
    var ts := PartTaken(x, y, n);
    PartWayIs(x, y, n, turns, h, ts);
    var before, f, t, k := AnsweredUnfolds([x, y], turns, Right, h, ts);
    PartWayIs(x, y, n, before, h, ts[..k]);
    PartWayOn(x, y, n, |before|, f, t, h, ts, k);
    WhereTheyGo([x, y], turns, Right, h);
  }
}
