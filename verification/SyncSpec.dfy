/** The synchronous write attempt: what becomes of a buffer the kernel took in part or not at all. */
module SyncSpec {
  import opened Seqs
  import opened WriteSpec

  /** An event posted back to the proactor: GWRL_SYNC_WRITE with the buffer, GWRL_SYNC_CLOSE with the
      rest, GWRL_SYNC_ERROR with errno and a buffer. */
  datatype Post = Wrote(it: Item) | SawClose(rest: Handed) | SawError(err: Errno, op: WriteOp, buf: Handed)

  /** `queued`: the items given to gwpr_asynchronous_write, in order. */
  datatype Result = Result(posts: seq<Post>, queued: seq<Item>)

  /** gwpr_synchronous_write_result. The buffer's len has been cut to what was written before it is
      queued. */
  function SyncResult(it: Item, r: Reply): Result
    requires Legal(it, r)
  {
    var short := r.written < |it.data|;
    var rest := Handed(it.data[r.written..], 0);
    var cut := Front(it, r.written);
    Result([Wrote(cut)] +
           (if Hangup(r.err) then [SawClose(rest)]
            else if r.err == NoError || (r.written == 0 && Blocked(r.err)) then []
            else [SawError(r.err, it.op, rest)]),
           (if short && (r.err == NoError || Blocked(r.err)) then [cut] else []) +
           (if r.written == 0 && Blocked(r.err) then [cut] else []))
  }

  /** What is posted, errno by errno: the completion first; after it one event for a descriptor that was closed,
      one for any other error, and one for a socket that is full if something was written, but none if
      nothing was. */
  predicate PostedFor(it: Item, r: Reply, posts: seq<Post>)
    requires r.written <= |it.data|
  {
    var rest := Handed(it.data[r.written..], 0);
    && posts != [] && posts[0] == Wrote(Front(it, r.written))
    && match r.err
       case NoError => |posts| == 1
       case Again => if r.written == 0 then |posts| == 1 else posts[1..] == [SawError(Again, it.op, rest)]
       case WouldBlock => if r.written == 0 then |posts| == 1 else posts[1..] == [SawError(WouldBlock, it.op, rest)]
       case ConnReset => posts[1..] == [SawClose(rest)]
       case BrokenPipe => posts[1..] == [SawClose(rest)]
       case OtherError(_) => posts[1..] == [SawError(r.err, it.op, rest)]
  }

  lemma SyncPosts(it: Item, r: Reply)
    requires Legal(it, r)
    ensures PostedFor(it, r, SyncResult(it, r).posts)
  {
    var ps := SyncResult(it, r).posts;
    assert |ps| == 2 ==> ps[1..] == [ps[1]];
  }

  /** Only a full socket has the buffer queued, cut to what was written; twice if that is nothing. */
  lemma SyncQueues(it: Item, r: Reply)
    requires Legal(it, r)
    ensures var q, cut := SyncResult(it, r).queued, Front(it, r.written);
      q == if !r.err.Again? && !r.err.WouldBlock? then [] else if r.written > 0 then [cut] else [cut, cut]
  {
    assert r.err == NoError ==> r.written == |it.data|;
  }

  /** The bytes the completion events report. */
  function Completed(posts: seq<Post>): seq<Octet> {
    if posts == [] then []
    else (if posts[0].Wrote? then Wire(posts[0].it) else []) + Completed(posts[1..])
  }

  /** The completion event reports exactly the bytes the kernel took, whatever went wrong. */
  lemma SyncAccounting(it: Item, r: Reply)
    requires Legal(it, r)
    ensures Completed(SyncResult(it, r).posts) == Wire(Front(it, r.written))
  {
    var ps := SyncResult(it, r).posts;
    var tail := ps[1..];
    assert |tail| <= 1 && (tail != [] ==> tail[1..] == [] && !tail[0].Wrote?);
    assert Completed(tail) == [];
    assert Completed(ps) == Wire(ps[0].it) + [];
  }

  /** Nothing is queued of the bytes the kernel did not take, so the stream survives exactly when
      it took them all. */
  lemma SyncConservesIff(it: Item, r: Reply)
    requires Legal(it, r) && Distinct(it.data)
    ensures Wire(Front(it, r.written)) + Stream(SyncResult(it, r).queued) == Wire(it) <==> r.written == |it.data|
  {
    var w, q, cut := r.written, SyncResult(it, r).queued, Front(it, r.written);
    StreamOfOne(cut);
    if w == |it.data| {
      assert cut == it;
    } else {
      assert q == [] || q == [cut] || (q == [cut, cut] && q[1..] == [cut] && Stream(q) == []);
      var lost := Wire(it)[w];
      assert lost in Wire(it) && lost !in Wire(cut) && lost !in Stream(q);
    }
  }

  /** What is queued are bytes the kernel has taken. */
  lemma SyncQueuesTaken(it: Item, r: Reply)
    requires Legal(it, r)
    ensures r.written == |it.data| ==> SyncResult(it, r).queued == []
    ensures forall o :: o in Stream(SyncResult(it, r).queued) ==> o in Wire(Front(it, r.written))
  {
    var q, cut := SyncResult(it, r).queued, Front(it, r.written);
    StreamOfOne(cut);
    assert q == [] || q == [cut] || (q == [cut, cut] && q[1..] == [cut]);
  }

  /** A write that would block after w bytes: the w bytes are queued again, and errorcb is told of an
      error that the code elsewhere takes for none. */
  lemma SyncPartialBlocked(it: Item, r: Reply)
    requires Legal(it, r) && Partial(it, r) && Blocked(r.err)
    ensures SyncResult(it, r).queued == [Front(it, r.written)]
    ensures SawError(r.err, it.op, Handed(it.data[r.written..], 0)) in SyncResult(it, r).posts
  {
    assert SyncResult(it, r).posts[1] == SawError(r.err, it.op, Handed(it.data[r.written..], 0));
  }
}
