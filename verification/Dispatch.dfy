/** gwrl_dispatch: batches of callbacks that may post more events. */
module Dispatch {
  import opened Seqs
  import opened Reactor

  const REDISPATCH_MAX := 5

  /** One event dispatched, and the events its callback posted, in the order of the posts. An event
      without a callback posts nothing. */
  datatype Call = Call(msg: Msg, posts: seq<Msg>)

  function Msgs(calls: seq<Call>): (ms: seq<Msg>)
    ensures |ms| == |calls|
  {
    if calls == [] then [] else Msgs(calls[..|calls| - 1]) + [Last(calls).msg]
  }

  /** The event list after the calls, newest post first. */
  function Posted(calls: seq<Call>): seq<Msg> {
    if calls == [] then [] else Reverse(Last(calls).posts) + Posted(calls[..|calls| - 1])
  }

  function Flatten<T>(ss: seq<seq<T>>): seq<T> {
    if ss == [] then [] else Flatten(ss[..|ss| - 1]) + Last(ss)
  }

  /** The callbacks made for the events of a batch. */
  function Made(calls: seq<Call>): seq<Call> {
    if calls == [] then []
    else Made(calls[..|calls| - 1]) + (if Last(calls).msg.callback != 0 then [Last(calls)] else [])
  }

  predicate Quiet(calls: seq<Call>) {
    forall i :: 0 <= i < |calls| ==> calls[i].msg.callback == 0 ==> calls[i].posts == []
  }

  /** Batch after batch: the first is the event list at the start, each other one is what the
      callbacks of the batch before it posted. */
  predicate Rounds(start: seq<Msg>, rounds: seq<seq<Call>>) {
    rounds == [] ||
    (Rounds(start, rounds[..|rounds| - 1]) && IsRound(NextBatch(start, rounds[..|rounds| - 1]), Last(rounds)))
  }

  /** The events of the batch after these rounds. */
  function NextBatch(start: seq<Msg>, rounds: seq<seq<Call>>): seq<Msg> {
    if rounds == [] then start else Posted(Last(rounds))
  }

  /** The calls are those of a batch with these events. */
  predicate IsRound(ms: seq<Msg>, calls: seq<Call>) {
    calls != [] && Quiet(calls) && Msgs(calls) == ms
  }

  /** What the dispatch did with the list `start`, leaving `left`: it stops when a batch posts
      nothing, or after the last re-dispatch. */
  predicate Dispatched(start: seq<Msg>, rounds: seq<seq<Call>>, left: seq<Msg>) {
    && Rounds(start, rounds)
    && (rounds == [] <==> start == [])
    && |rounds| <= 1 + REDISPATCH_MAX
    && left == (if rounds == [] then [] else Posted(Last(rounds)))
    && (left != [] ==> |rounds| == 1 + REDISPATCH_MAX)
  }

  /** The callbacks made in the rounds, in order. */
  function AllMade(rounds: seq<seq<Call>>): seq<Call> {
    if rounds == [] then [] else AllMade(rounds[..|rounds| - 1]) + Made(Last(rounds))
  }

  /** The node lists taken, one for each round. */
  ghost predicate Taken(taken: seq<seq<Evt>>, rounds: seq<seq<Call>>) {
    |taken| == |rounds| && forall k :: 0 <= k < |taken| ==> |taken[k]| == |rounds[k]|
  }

  /** The cache after n nodes have been taken from it. */
  function Unstacked<T>(cached: seq<T>, n: nat): seq<T> { if n <= |cached| then cached[n..] else [] }

  lemma UnstackedTwice<T>(cached: seq<T>, m: nat, n: nat)
    ensures Unstacked(Unstacked(cached, m), n) == Unstacked(cached, m + n)
  {
  }

  /** The cache after these rounds: in each of them a node is taken for every event posted, and then the nodes of
      the batch are freed. */
  ghost function CacheAfter(cached: seq<Evt>, rounds: seq<seq<Call>>, taken: seq<seq<Evt>>, max: nat): seq<Evt>
    requires |taken| == |rounds|
  {
    if rounds == [] then cached
    else
      var n := |rounds| - 1;
      Recycled(taken[n], Unstacked(CacheAfter(cached, rounds[..n], taken[..n], max), |Posted(rounds[n])|), max)
  }

  lemma CacheExtends(cached: seq<Evt>, rounds: seq<seq<Call>>, taken: seq<seq<Evt>>, calls: seq<Call>, batch: seq<Evt>,
                     max: nat)
    requires |taken| == |rounds|
    ensures CacheAfter(cached, rounds + [calls], taken + [batch], max)
         == Recycled(batch, Unstacked(CacheAfter(cached, rounds, taken, max), |Posted(calls)|), max)
  {
    assert (rounds + [calls])[..|rounds|] == rounds && (taken + [batch])[..|taken|] == taken;
  }

  /** How many nodes there are in the cache after a round: those that were left, and those of the batch, as far as
      there is room; the ones freed first, last one on top. */
  lemma CacheFills(cached: seq<Evt>, rounds: seq<seq<Call>>, taken: seq<seq<Evt>>, max: nat)
    requires |taken| == |rounds| && rounds != []
    requires |CacheAfter(cached, rounds[..|rounds| - 1], taken[..|rounds| - 1], max)| <= max
    ensures var n := |rounds| - 1;
      var left := Unstacked(CacheAfter(cached, rounds[..n], taken[..n], max), |Posted(rounds[n])|);
      var room := if |taken[n]| <= max - |left| then |taken[n]| else max - |left|;
      CacheAfter(cached, rounds, taken, max) == Reverse(taken[n][..room]) + left
  {
    var n := |rounds| - 1;
    RecycledIs(taken[n], Unstacked(CacheAfter(cached, rounds[..n], taken[..n], max), |Posted(rounds[n])|), max);
  }

  lemma RoundsExtend(start: seq<Msg>, rounds: seq<seq<Call>>, calls: seq<Call>)
    requires Rounds(start, rounds) && IsRound(NextBatch(start, rounds), calls)
    ensures Rounds(start, rounds + [calls])
    ensures AllMade(rounds + [calls]) == AllMade(rounds) + Made(calls)
  {
    assert (rounds + [calls])[..|rounds|] == rounds;
  }

  // ---- No event is lost or run twice ----

  function Bag(calls: seq<Call>): multiset<Msg> {
    if calls == [] then multiset{} else Bag(calls[..|calls| - 1]) + multiset(Last(calls).posts)
  }

  /** Every event posted by the callbacks of the rounds. */
  function AllPosts(rounds: seq<seq<Call>>): multiset<Msg> {
    if rounds == [] then multiset{} else AllPosts(rounds[..|rounds| - 1]) + Bag(Last(rounds))
  }

  /** Every event of the batches. */
  function AllSeen(rounds: seq<seq<Call>>): multiset<Msg> {
    if rounds == [] then multiset{} else AllSeen(rounds[..|rounds| - 1]) + multiset(Msgs(Last(rounds)))
  }

  lemma {:induction false} PostedKeeps(calls: seq<Call>)
    ensures multiset(Posted(calls)) == Bag(calls)
  {
    if calls != [] {
      PostedKeeps(calls[..|calls| - 1]);
      ReverseKeeps(Last(calls).posts);
    }
  }

  /** The events there were and those posted are the events of the batches and those left. */
  lemma {:induction false} DispatchConserves(start: seq<Msg>, rounds: seq<seq<Call>>)
    requires Rounds(start, rounds)
    ensures multiset(start) + AllPosts(rounds) == AllSeen(rounds) + multiset(NextBatch(start, rounds))
    decreases |rounds|
  {
    if rounds != [] {
      DispatchConserves(start, rounds[..|rounds| - 1]);
      PostedKeeps(Last(rounds));
    }
  }

  /** A dispatch in progress: rounds done and the nodes they took, and the batch being run. */
  datatype Progress = Progress(rounds: seq<seq<Call>>, taken: seq<seq<Evt>>,
                               batch: seq<Evt>, ms: seq<Msg>, calls: seq<Call>)

  /** The lists of `q` use no node but those it had in `was`, and new ones. */
  twostate predicate OwnNodes(q: EventQueue, was: seq<Evt>)
    reads q
  {
    && (forall i :: 0 <= i < |q.pending| ==> q.pending[i] in was || fresh(q.pending[i]))
    && (forall i :: 0 <= i < |q.cached| ==> q.cached[i] in was)
  }

  // ---- A batch on values ----

  /** The calls made so far in a batch with these events, and the event list they have left. */
  predicate BatchCalls(ms: seq<Msg>, calls: seq<Call>, msgs: seq<Msg>) {
    |calls| <= |ms| && Msgs(calls) == ms[..|calls|] && Quiet(calls) && msgs == Posted(calls)
  }

  lemma OneMoreMsg(calls: seq<Call>, call: Call)
    ensures Msgs(calls + [call]) == Msgs(calls) + [call.msg]
  {
    assert (calls + [call])[..|calls|] == calls;
  }

  lemma OneMorePosted(calls: seq<Call>, call: Call)
    ensures Posted(calls + [call]) == Reverse(call.posts) + Posted(calls)
  {
    assert (calls + [call])[..|calls|] == calls;
  }

  lemma OneMoreMade(calls: seq<Call>, call: Call)
    ensures Made(calls + [call]) == Made(calls) + (if call.msg.callback != 0 then [call] else [])
  {
    assert (calls + [call])[..|calls|] == calls;
  }

  lemma OneMoreCall(ms: seq<Msg>, calls: seq<Call>, call: Call, was: seq<Msg>, now: seq<Msg>)
    requires BatchCalls(ms, calls, was) && |calls| < |ms| && call.msg == ms[|calls|]
    requires (call.msg.callback == 0 ==> call.posts == []) && now == Reverse(call.posts) + was
    ensures BatchCalls(ms, calls + [call], now)
  {
    OneMoreMsg(calls, call);
    OneMorePosted(calls, call);
    TakeOneMore(ms, |calls|);
  }

  /** What a reactor has done so far: the callbacks made, each with the events it posted; the node lists
      detached, empty ones apart; the nodes freed; and the cache. */
  datatype Log = Log(made: seq<Call>, detached: seq<seq<Evt>>, released: seq<Evt>, cached: seq<Evt>)

  /** The log of a dispatch that has got this far. */
  ghost predicate Logged(was: Log, now: Log, p: Progress, max: nat) {
    && |p.taken| == |p.rounds|
    && now.made == was.made + AllMade(p.rounds) + Made(p.calls)
    && now.detached == was.detached + p.taken + (if p.batch == [] then [] else [p.batch])
    && now.released == was.released + Flatten(p.taken)
    && now.cached == Unstacked(CacheAfter(was.cached, p.rounds, p.taken, max), |Posted(p.calls)|)
  }

  lemma LogOneMore(was: Log, mid: Log, now: Log, p: Progress, call: Call, max: nat)
    requires Logged(was, mid, p, max)
    requires now == mid.(made := mid.made + (if call.msg.callback != 0 then [call] else []),
                         cached := Unstacked(mid.cached, |call.posts|))
    ensures Logged(was, now, p.(calls := p.calls + [call]), max)
  {
    OneMorePosted(p.calls, call);
    OneMoreMade(p.calls, call);
    Associates(was.made + AllMade(p.rounds), Made(p.calls), if call.msg.callback != 0 then [call] else []);
    UnstackedTwice(CacheAfter(was.cached, p.rounds, p.taken, max), |Posted(p.calls)|, |call.posts|);
  }

  /** The batch is freed and becomes a round. */
  lemma LogOneRound(was: Log, mid: Log, now: Log, p: Progress, max: nat)
    requires Logged(was, mid, p, max) && p.batch != []
    requires now == mid.(released := mid.released + p.batch, cached := Recycled(p.batch, mid.cached, max))
    ensures var rounds, taken := p.rounds + [p.calls], p.taken + [p.batch];
      now == Log(was.made + AllMade(rounds), was.detached + taken, was.released + Flatten(taken),
                 CacheAfter(was.cached, rounds, taken, max))
  {
    var rounds, taken := p.rounds + [p.calls], p.taken + [p.batch];
    assert rounds[..|p.rounds|] == p.rounds && taken[..|p.taken|] == p.taken;
    Associates(was.made, AllMade(p.rounds), Made(p.calls));
    Associates(was.detached, p.taken, [p.batch]);
    Associates(was.released, Flatten(p.taken), p.batch);
    CacheExtends(was.cached, p.rounds, p.taken, p.calls, p.batch, max);
  }

  /** A reactor during a dispatch: the event queue, and a record of the callbacks and of the lists
      detached. */
  class Loop {
    const q: EventQueue
    ghost var made: seq<Call>
    ghost var detached: seq<seq<Evt>>

    constructor (q: EventQueue)
      ensures this.q == q && made == [] && detached == []
    {
      this.q, made, detached := q, [], [];
    }

    ghost function Done(): Log
      reads this, q`released, q`cached
    {
      Log(made, detached, q.released, q.cached)
    }

    /** The posts of a user callback: any number of new events. */
    method PostAny() returns (ghost posts: seq<Msg>)
      requires q.Valid()
      modifies q, q.cached
      ensures q.Valid() && q.msgs == Reverse(posts) + old(q.msgs)
      ensures q.released == old(q.released) && q.cached == Unstacked(old(q.cached), |posts|)
      ensures OwnNodes(q, old(q.pending) + old(q.cached))
    {
      posts := [];
      var wanted: seq<Msg> := *;
      for i := 0 to |wanted|
        invariant q.Valid()
        invariant q.msgs == Reverse(posts) + old(q.msgs)
        invariant q.released == old(q.released)
        invariant q.cached == Unstacked(old(q.cached), |posts|)
        invariant forall i :: 0 <= i < |q.pending| ==>
                    q.pending[i] in old(q.pending) || q.pending[i] in old(q.cached) || fresh(q.pending[i])
      {
        ReverseGrows(posts, wanted[i], old(q.msgs));
        UnstackedTwice(old(q.cached), |posts|, 1);
        q.PostNew(wanted[i]);
        posts := posts + [wanted[i]];
      }
    }

    /** A user callback. */
    method Callback(msg: Msg) returns (ghost posts: seq<Msg>)
      requires q.Valid() && msg.callback != 0
      modifies `made, q, q.cached
      ensures q.Valid() && made == old(made) + [Call(msg, posts)]
      ensures q.msgs == Reverse(posts) + old(q.msgs)
      ensures q.released == old(q.released) && q.cached == Unstacked(old(q.cached), |posts|)
      ensures OwnNodes(q, old(q.pending) + old(q.cached))
    {
      posts := PostAny();
      made := made + [Call(msg, posts)];
    }

    /** In the middle of a batch: the nodes taken, detached from the event list, and the calls made. */
    ghost predicate InBatch(del: Evt?, batch: seq<Evt>, ms: seq<Msg>, calls: seq<Call>)
      reads q, q.pending, q.cached, batch
    {
      && q.Valid() && Chain(del, batch) && Bears(batch, ms)
      && Apart(batch, q.pending) && Apart(batch, q.cached)
      && BatchCalls(ms, calls, q.msgs)
    }

    /** Call one event's callback and move on to the next event. */
    method RunEvent(evt: Evt, ghost del: Evt?, ghost batch: seq<Evt>, ghost ms: seq<Msg>, ghost calls: seq<Call>)
      returns (nextEvt: Evt?, ghost call: Call)
      requires InBatch(del, batch, ms, calls) && |calls| < |batch| && evt == batch[|calls|]
      modifies `made, q, q.cached
      ensures InBatch(del, batch, ms, calls + [call]) && call.msg == ms[|calls|]
      ensures nextEvt == if |calls| + 1 < |batch| then batch[|calls| + 1] else null
      ensures made == old(made) + (if call.msg.callback != 0 then [call] else [])
      ensures q.released == old(q.released) && q.cached == Unstacked(old(q.cached), |call.posts|)
      ensures OwnNodes(q, old(q.pending) + old(q.cached))
    {
      ghost var posts := [];
      if evt.msg.callback != 0 {
        posts := Callback(evt.msg);
      }
      call := Call(ms[|calls|], posts);
      OneMoreCall(ms, calls, call, old(q.msgs), q.msgs);
      nextEvt := evt.next;
    }

    /** Detach the event list: it becomes the next batch. */
    method Take() returns (evt: Evt?, ghost batch: seq<Evt>, ghost ms: seq<Msg>)
      requires q.Valid()
      modifies `detached, q`events, q`pending, q`msgs
      ensures InBatch(evt, batch, ms, []) && batch == old(q.pending) && ms == old(q.msgs)
      ensures q.pending == [] && detached == old(detached) + (if batch == [] then [] else [batch])
      ensures q.cached == old(q.cached) && q.released == old(q.released)
    {
      evt, batch, ms := q.events, q.pending, q.msgs;
      detached := detached + (if batch == [] then [] else [batch]);
      q.events := null;
      q.pending, q.msgs := [], [];
    }

    /** Free the nodes of a batch that has been run. */
    method EndBatch(del: Evt?, ghost batch: seq<Evt>, ghost ms: seq<Msg>, ghost calls: seq<Call>)
      requires InBatch(del, batch, ms, calls)
      modifies q, batch
      ensures q.Valid() && q.msgs == old(q.msgs) && q.pending == old(q.pending)
      ensures q.released == old(q.released) + batch && q.cached == Recycled(batch, old(q.cached), q.cacheMax)
      ensures forall i :: 0 <= i < |q.cached| ==> q.cached[i] in batch || q.cached[i] in old(q.cached)
    {
      RecycledNodes(batch, q.cached, q.cacheMax);
      ghost var was := q.cached;
      q.FreeList(del, batch);
      assert forall i :: 0 <= i < |q.cached| ==> q.cached[i] in Recycled(batch, was, q.cacheMax);
    }

    /** Where a dispatch of `start` stands. */
    ghost predicate Dispatching(start: seq<Msg>, was: Log, p: Progress)
      reads this, q
    {
      && Rounds(start, p.rounds) && Taken(p.taken, p.rounds)
      && p.ms == NextBatch(start, p.rounds) && Logged(was, Done(), p, q.cacheMax)
    }

    /** One event of a dispatch. */
    method RunOne(evt: Evt, del: Evt?, ghost start: seq<Msg>, ghost was: Log,
                  ghost p: Progress)
      returns (nextEvt: Evt?, ghost p': Progress)
      requires InBatch(del, p.batch, p.ms, p.calls) && |p.calls| < |p.batch| && evt == p.batch[|p.calls|]
      requires Dispatching(start, was, p)
      modifies `made, q, q.cached
      ensures |p'.calls| == |p.calls| + 1 && p' == p.(calls := p'.calls)
      ensures InBatch(del, p.batch, p.ms, p'.calls) && Dispatching(start, was, p')
      ensures nextEvt == if |p'.calls| < |p.batch| then p.batch[|p'.calls|] else null
      ensures OwnNodes(q, old(q.pending) + old(q.cached))
    {
      ghost var mid, call := Done(), Call(BLANK, []);
      nextEvt, call := RunEvent(evt, del, p.batch, p.ms, p.calls);
      p' := p.(calls := p.calls + [call]);
      LogOneMore(was, mid, Done(), p, call, q.cacheMax);
    }

    /** The end of a batch: its nodes are freed, and it becomes a round. */
    method CloseBatch(del: Evt?, ghost start: seq<Msg>, ghost was: Log, ghost p: Progress)
      returns (ghost rounds: seq<seq<Call>>, ghost taken: seq<seq<Evt>>)
      requires InBatch(del, p.batch, p.ms, p.calls) && |p.calls| == |p.batch| > 0
      requires Dispatching(start, was, p)
      modifies q, p.batch
      ensures rounds == p.rounds + [p.calls] && taken == p.taken + [p.batch]
      ensures Rounds(start, rounds) && Taken(taken, rounds)
      ensures Done() == Log(was.made + AllMade(rounds), was.detached + taken, was.released + Flatten(taken),
                                CacheAfter(was.cached, rounds, taken, q.cacheMax))
      ensures q.Valid() && q.msgs == Posted(p.calls) && q.pending == old(q.pending)
      ensures forall i :: 0 <= i < |q.cached| ==> q.cached[i] in p.batch || q.cached[i] in old(q.cached)
    {
      ghost var mid := Done();
      EndBatch(del, p.batch, p.ms, p.calls);
      RoundsExtend(start, p.rounds, p.calls);
      rounds, taken := p.rounds + [p.calls], p.taken + [p.batch];
      LogOneRound(was, mid, Done(), p, q.cacheMax);
    }

    /** The end of a batch that is followed by another one. */
    method Redispatch(del: Evt?, ghost start: seq<Msg>, ghost was: Log, ghost p: Progress)
      returns (evt: Evt?, ghost p': Progress)
      requires InBatch(del, p.batch, p.ms, p.calls) && |p.calls| == |p.batch| > 0 && q.pending != []
      requires Dispatching(start, was, p)
      modifies `detached, q, p.batch
      ensures InBatch(evt, p'.batch, p'.ms, []) && p'.batch != [] && p'.calls == []
      ensures Dispatching(start, was, p')
      ensures p'.rounds == p.rounds + [p.calls] && p'.taken == p.taken + [p.batch]
      ensures evt == p'.batch[0]
    {
      ghost var rounds, taken := CloseBatch(del, start, was, p);
      ghost var batch, ms;
      evt, batch, ms := Take();
      p' := Progress(rounds, taken, batch, ms, []);
    }

    /** The loop of gwrl_dispatch, at event `evt`, after `repost` re-dispatches; `first` are the nodes
        of the first batch. */
    ghost predicate Standing(start: seq<Msg>, was: Log, first: seq<Evt>,
                             evt: Evt?, del: Evt?, repost: nat, p: Progress)
      reads this, q, q.pending, q.cached, p.batch
    {
      && InBatch(del, p.batch, p.ms, p.calls) && Dispatching(start, was, p)
      && evt == (if |p.calls| < |p.batch| then p.batch[|p.calls|] else null)
      && repost == |p.rounds| <= REDISPATCH_MAX
      && (evt == null && p.batch != [] ==> q.pending == [] || repost == REDISPATCH_MAX)
      && (p.batch != [] <==> start != [])
      && (p.rounds != [] ==> p.batch != [])
      && first == (if p.taken == [] then p.batch else p.taken[0])
    }

    /** The change to the next batch. */
    method NextRound(del: Evt?, repost: nat, ghost start: seq<Msg>, ghost was: Log, ghost first: seq<Evt>,
                     ghost p: Progress)
      returns (evt: Evt?, ghost p': Progress)
      requires InBatch(del, p.batch, p.ms, p.calls) && |p.calls| == |p.batch| > 0 && q.pending != []
      requires Dispatching(start, was, p) && repost == |p.rounds| < REDISPATCH_MAX && start != []
      requires first == if p.taken == [] then p.batch else p.taken[0]
      modifies `detached, q, p.batch
      ensures Standing(start, was, first, evt, evt, repost + 1, p')
    {
      evt, p' := Redispatch(del, start, was, p);
    }

    /** One turn of the loop: an event, and the change to the next batch if it was the last one. */
    method Turn(evt: Evt, del: Evt?, repost: nat, ghost start: seq<Msg>, ghost was: Log,
                ghost first: seq<Evt>, ghost p: Progress)
      returns (evt': Evt?, del': Evt?, repost': nat, ghost p': Progress)
      requires Standing(start, was, first, evt, del, repost, p)
      modifies this, q, q.cached, p.batch
      ensures Standing(start, was, first, evt', del', repost', p')
      ensures repost' == repost + 1 || (repost' == repost && p'.batch == p.batch && |p'.calls| == |p.calls| + 1)
    {
      evt', p' := RunOne(evt, del, start, was, p);
      del', repost' := del, repost;
      if evt' == null && q.events != null && repost < REDISPATCH_MAX {
        evt', p' := NextRound(del, repost, start, was, first, p');
        repost' := repost + 1;
        del' := evt';
      }
    }

    /** The start of the loop: the event list is detached. */
    method Begin() returns (evt: Evt?, ghost p: Progress)
      requires q.Valid()
      modifies `detached, q`events, q`pending, q`msgs
      ensures Standing(old(q.msgs), old(Done()), old(q.pending), evt, evt, 0, p)
    {
      ghost var batch, ms;
      evt, batch, ms := Take();
      p := Progress([], [], batch, ms, []);
    }

    /** After the loop: the last batch is freed. */
    method Finish(del: Evt?, repost: nat, ghost start: seq<Msg>, ghost was: Log,
                  ghost first: seq<Evt>, ghost p: Progress)
      returns (ghost rounds: seq<seq<Call>>, ghost taken: seq<seq<Evt>>)
      requires Standing(start, was, first, null, del, repost, p)
      modifies q, p.batch
      ensures q.Valid() && Dispatched(start, rounds, q.msgs)
      ensures Taken(taken, rounds) && (taken != [] ==> taken[0] == first)
      ensures Done() == Log(was.made + AllMade(rounds), was.detached + taken, was.released + Flatten(taken),
                                CacheAfter(was.cached, rounds, taken, q.cacheMax))
    {
      rounds, taken := p.rounds, p.taken;
      if del != null {
        rounds, taken := CloseBatch(del, start, was, p);
      }
    }

    /** gwrl_dispatch: it ends whatever the callbacks post, calls each event taken once, in list order,
        and leaves the posts of the last batch. The rounds are those of the callbacks made, with the events
        these posted; the nodes taken are the lists detached, and each is given to gwrl_evt_free once. */
    method Dispatch() returns (ghost rounds: seq<seq<Call>>, ghost taken: seq<seq<Evt>>)
      requires q.Valid()
      modifies this, q, (set e: Evt {:trigger e.next} | true)
      ensures q.Valid() && Dispatched(old(q.msgs), rounds, q.msgs)
      ensures made == old(made) + AllMade(rounds)
      ensures Taken(taken, rounds) && (taken != [] ==> taken[0] == old(q.pending))
      ensures detached == old(detached) + taken && q.released == old(q.released) + Flatten(taken)
      ensures q.cached == CacheAfter(old(q.cached), rounds, taken, q.cacheMax)
    {
      var repost := 0;
      var evt;
      ghost var p;
      ghost var start, was, first := q.msgs, Done(), q.pending;
      evt, p := Begin();
      var del := evt;
      while evt != null
        invariant Standing(start, was, first, evt, del, repost, p)
        decreases REDISPATCH_MAX - repost, |p.batch| - |p.calls|
      {
        evt, del, repost, p := Turn(evt, del, repost, start, was, first, p);
      }
      rounds, taken := Finish(del, repost, start, was, first, p);
    }
  }
}
