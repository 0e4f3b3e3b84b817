/** The order of the bytes in a drain with callbacks. */
module FlowOrder {
  import opened Seqs
  import opened WriteSpec
  import opened CallbackSpec

  // ---- Sequences of bytes ----

  /** The sequence without the elements of `x`. */
  function Sans<T(==)>(s: seq<T>, x: seq<T>): seq<T> {
    if s == [] then [] else Sans(s[..|s| - 1], x) + (if Last(s) in x then [] else [Last(s)])
  }

  lemma {:induction false} SansAppends<T>(s: seq<T>, t: seq<T>, x: seq<T>)
    ensures Sans(s + t, x) == Sans(s, x) + Sans(t, x)
  {
    if t == [] {
      assert s + t == s;
    } else {
      assert (s + t)[..|s + t| - 1] == s + t[..|t| - 1];
      SansAppends(s, t[..|t| - 1], x);
      Associates(Sans(s, x), Sans(t[..|t| - 1], x), if Last(t) in x then [] else [Last(t)]);
    }
  }

  lemma {:induction false} SansAll<T>(s: seq<T>, x: seq<T>)
    requires forall o :: o in s ==> o in x
    ensures Sans(s, x) == []
  {
    if s != [] {
      assert forall o :: o in s[..|s| - 1] ==> o in s;
      SansAll(s[..|s| - 1], x);
    }
  }

  lemma {:induction false} SansNone<T>(s: seq<T>, x: seq<T>)
    requires forall o :: o in s ==> o !in x
    ensures Sans(s, x) == s
  {
    if s != [] {
      assert forall o :: o in s[..|s| - 1] ==> o in s;
      SansNone(s[..|s| - 1], x);
    }
  }

  /** In `s` no `b` comes after an `a`. */
  predicate Astray<T(==)>(s: seq<T>, a: T, b: T) {
    forall i, j :: 0 <= i < j < |s| ==> !(s[i] == a && s[j] == b)
  }

  lemma {:induction false} SansHas<T>(s: seq<T>, x: seq<T>, a: T)
    requires a in s && a !in x
    ensures a in Sans(s, x)
  {
    if a != Last(s) {
      SansHas(s[..|s| - 1], x, a);
    }
  }

  /** Elements put in between do not bring two others into order. */
  lemma {:induction false} AstrayStays<T>(s: seq<T>, x: seq<T>, a: T, b: T)
    requires Astray(Sans(s, x), a, b) && a !in x && b !in x
    ensures Astray(s, a, b)
  {
    if s != [] {
      var init, r := s[..|s| - 1], Sans(s[..|s| - 1], x);
      assert forall i :: 0 <= i < |r| ==> Sans(s, x)[i] == r[i];
      AstrayStays(init, x, a, b);
      assert Last(s) == b ==> Sans(s, x)[|r|] == b;
      assert Last(s) == b ==> a !in r;
      if a in init {
        SansHas(init, x, a);
      }
      forall i, j | 0 <= i < j < |s|
        ensures !(s[i] == a && s[j] == b)
      {
        assert s[i] == init[i];
        if j < |s| - 1 {
          assert s[j] == init[j];
        }
      }
    }
  }

  /** A `b` comes before any `a`. */
  predicate Precedes<T(==)>(s: seq<T>, b: T, a: T) {
    exists j :: 0 <= j < |s| && s[j] == b && a !in s[..j + 1]
  }

  lemma PrecedesStays<T>(s: seq<T>, t: seq<T>, b: T, a: T)
    requires Precedes(s, b, a)
    ensures Precedes(s + t, b, a)
  {
    var j :| 0 <= j < |s| && s[j] == b && a !in s[..j + 1];
    assert (s + t)[..j + 1] == s[..j + 1] && (s + t)[j] == b;
  }

  lemma PrecedesIsAstray<T>(s: seq<T>, b: T, a: T)
    requires Precedes(s, b, a) && Distinct(s)
    ensures Astray(s, a, b)
  {
    var k :| 0 <= k < |s| && s[k] == b && a !in s[..k + 1];
    forall i, j | 0 <= i < j < |s|
      ensures !(s[i] == a && s[j] == b)
    {
      if s[j] == b {
        assert j == k;
        assert s[i] == s[..k + 1][i];
      }
    }
  }

  lemma {:induction false} AtMostOnce<T>(s: seq<T>, x: T)
    requires Distinct(s)
    ensures multiset(s)[x] <= 1
  {
    if s != [] {
      AtMostOnce(s[..|s| - 1], x);
      assert s == s[..|s| - 1] + [Last(s)];
    }
  }

  lemma {:induction false} DistinctBelow<T>(s: seq<T>, t: seq<T>)
    requires Distinct(t) && multiset(s) <= multiset(t)
    ensures Distinct(s) && forall x :: x in s ==> x in t
  {
    forall i, j | 0 <= i < j < |s|
      ensures s[i] != s[j]
    {
      AtMostOnce(t, s[i]);
      assert s == s[..j] + [s[j]] + s[j + 1..] && s[..j][i] == s[i] && s[i] in s[..j];
      assert multiset(s)[s[i]] == multiset(s[..j])[s[i]] + multiset([s[j]])[s[i]] + multiset(s[j + 1..])[s[i]];
    }
    forall x | x in s
      ensures x in t
    {
      assert x in multiset(s) && x in multiset(t);
    }
  }

  // ---- Direct writes among the others ----

  lemma TurnSent(f: Flow, t: Turn, tail: Tail, h: Handlers, x: seq<Octet>)
    requires LegalTurn(f, t, tail, h)
    requires Sans(f.sent, x) == Sans(f.d.accepted, x) && forall o :: o in Stream(t.direct) ==> o in x
    ensures var e := StepFlow(f, t, tail, h); Sans(e.sent, x) == Sans(e.d.accepted, x)
  {
    StepParts(f, t, tail, h);
    var w := Wire(Front(f.d.todo[0], t.r.written));
    SansAll(Stream(t.direct), x);
    SansAppends(f.sent, w + Stream(t.direct), x);
    SansAppends(w, Stream(t.direct), x);
    SansAppends(f.d.accepted, w, x);
  }

  /** Without the bytes written directly, the kernel took those of the drain. */
  lemma {:induction false} SentSans(items: seq<Item>, turns: seq<Turn>, tail: Tail, h: Handlers, x: seq<Octet>)
    requires LegalFlow(items, turns, tail, h)
    requires forall o :: o in Stream(RunFlow(items, turns, tail, h).direct) ==> o in x
    ensures var f := RunFlow(items, turns, tail, h); Sans(f.sent, x) == Sans(f.d.accepted, x)
    decreases |turns|
  {
    if turns != [] {
      var before, f, t := FlowUnfolds(items, turns, tail, h);
      StreamAppends(f.direct, t.direct);
      SentSans(items, before, tail, h, x);
      TurnSent(f, t, tail, h, x);
    }
  }

  lemma {:induction false} SentCounts(items: seq<Item>, turns: seq<Turn>, tail: Tail, h: Handlers)
    requires LegalFlow(items, turns, tail, h)
    ensures var f := RunFlow(items, turns, tail, h);
      multiset(f.sent) == multiset(f.d.accepted) + multiset(Stream(f.direct))
    decreases |turns|
  {
    if turns != [] {
      var before, f, t := FlowUnfolds(items, turns, tail, h);
      StreamAppends(f.direct, t.direct);
      SentCounts(items, before, tail, h);
      StepParts(f, t, tail, h);
    }
  }

  lemma SentIsFrom(items: seq<Item>, turns: seq<Turn>, tail: Tail, h: Handlers, o: Octet)
    requires LegalFlow(items, turns, tail, h)
    ensures var f := RunFlow(items, turns, tail, h); o in f.sent <==> o in f.d.accepted || o in Stream(f.direct)
  {
    var f := RunFlow(items, turns, tail, h);
    SentCounts(items, turns, tail, h);
    assert o in multiset(f.sent) <==> o in multiset(f.d.accepted) || o in multiset(Stream(f.direct));
  }

  // ---- Orderly drains ----

  /** The bytes still to be written of the list being drained, at the time of the callback. */
  function Rest(f: Flow, t: Turn): seq<Octet>
    requires f.d.todo != [] && t.r.written <= |f.d.todo[0].data|
  {
    Stream([Back(f.d.todo[0], t.r.written)] + f.d.todo[1..])
  }

  /** No callback writes bytes directly while others are still to be written. */
  ghost predicate InTurn(items: seq<Item>, turns: seq<Turn>, tail: Tail, h: Handlers)
    requires LegalFlow(items, turns, tail, h)
    decreases |turns|
  {
    turns == [] ||
    (var before := turns[..|turns| - 1];
     && InTurn(items, before, tail, h)
     && (Stream(Last(turns).direct) == [] || Rest(RunFlow(items, before, tail, h), Last(turns)) == []))
  }

  lemma TodoIs(f: Flow, t: Turn)
    requires f.d.todo != [] && t.r.written <= |f.d.todo[0].data|
    ensures Stream(f.d.todo) == Wire(Front(f.d.todo[0], t.r.written)) + Rest(f, t)
  {
    var it, w := f.d.todo[0], t.r.written;
    var all := [Back(it, w)] + f.d.todo[1..];
    assert all[0] == Back(it, w) && all[1..] == f.d.todo[1..];
    WireSplits(it, w);
    Associates(Wire(Front(it, w)), Wire(Back(it, w)), Stream(f.d.todo[1..]));
  }

  lemma CleanTurnLeaves(f: Flow, t: Turn, tail: Tail, h: Handlers)
    requires LegalTurn(f, t, tail, h) && Clean(t.r, h) && Strays(f.added, t.during, tail) == []
    ensures Stream(StepFlow(f, t, tail, h).d.todo) == Rest(f, t)
  {
    var it, w := f.d.todo[0], t.r.written;
    assert f.d.todo + [] == f.d.todo;
    assert StepFlow(f, t, tail, h).d == Step(f.d, t.r, h);
    CleanStepLeaves(f.d, t.r, h);
    StreamAppends([Back(it, w)], f.d.todo[1..]);
    StreamOfOne(Back(it, w));
    StreamAppends(if w == |it.data| then [] else [Back(it, w)], f.d.todo[1..]);
    assert w == |it.data| ==> [] + Stream(f.d.todo[1..]) == Stream(f.d.todo[1..]);
  }

  lemma Exchange<T>(sent: seq<T>, w: seq<T>, d: seq<T>, r: seq<T>)
    requires d == [] || r == []
    ensures (sent + (w + d)) + r == (sent + (w + r)) + d
  {
  }

  lemma InTurnStep(f: Flow, t: Turn, tail: Tail, h: Handlers, items: seq<Item>)
    requires LegalTurn(f, t, tail, h) && Clean(t.r, h) && Strays(f.added, t.during, tail) == []
    requires Stream(t.direct) == [] || Rest(f, t) == []
    requires f.sent + Stream(f.d.todo) == Stream(items) + Stream(f.direct)
    ensures var e := StepFlow(f, t, tail, h); e.sent + Stream(e.d.todo) == Stream(items) + Stream(e.direct)
  {
    TodoIs(f, t);
    CleanTurnLeaves(f, t, tail, h);
    StreamAppends(f.direct, t.direct);
    Exchange(f.sent, Wire(Front(f.d.todo[0], t.r.written)), Stream(t.direct), Rest(f, t));
    Associates(Stream(items), Stream(f.direct), Stream(t.direct));
  }

  lemma CleanBefore(before: seq<Turn>, t: Turn, h: Handlers)
    requires AllClean(Replies(before + [t]), h)
    ensures AllClean(Replies(before), h) && Clean(t.r, h)
  {
    var turns := before + [t];
    assert turns[..|before|] == before && Replies(turns)[|before|] == t.r;
    assert forall i :: 0 <= i < |before| ==> Replies(before)[i] == Replies(turns)[i];
  }

  lemma NoStrays(items: seq<Item>, before: seq<Turn>, t: Turn, tail: Tail, h: Handlers)
    requires LegalFlow(items, before, tail, h) && (tail == Unset || |Queued(before + [t])| <= 1)
    ensures tail == Unset || |Queued(before)| <= 1
    ensures Strays(RunFlow(items, before, tail, h).added, t.during, tail) == []
  {
    assert (before + [t])[..|before|] == before;
    WhereTheyGo(items, before, tail, h);
  }

  /** A clean drain whose callbacks keep in turn: the bytes taken and left are the old ones followed by
      those written directly. */
  lemma {:induction false} OrderlyFlow(items: seq<Item>, turns: seq<Turn>, tail: Tail, h: Handlers)
    requires LegalFlow(items, turns, tail, h) && AllClean(Replies(turns), h)
    requires InTurn(items, turns, tail, h) && (tail == Unset || |Queued(turns)| <= 1)
    ensures var f := RunFlow(items, turns, tail, h); f.sent + Stream(f.d.todo) == Stream(items) + Stream(f.direct)
    decreases |turns|
  {
    if turns == [] {
      assert [] + Stream(items) == Stream(items) + [];
    } else {
      var before, f, t := FlowUnfolds(items, turns, tail, h);
      CleanBefore(before, t, h);
      NoStrays(items, before, t, tail, h);
      OrderlyFlow(items, before, tail, h);
      InTurnStep(f, t, tail, h, items);
    }
  }

  // ---- Bytes that overtake others ----

  /** While nothing is queued, the drain is that of the old items, and everything was written directly. */
  lemma NothingQueued(items: seq<Item>, turns: seq<Turn>, tail: Tail, h: Handlers)
    requires LegalFlow(items, turns, tail, h) && RunFlow(items, turns, tail, h).added == []
    ensures var f := RunFlow(items, turns, tail, h); f.given == items && f.direct == Asked(turns)
  {
    WhereTheyGo(items, turns, tail, h);
    DirectFirst(items, turns, tail, h);
    assert Queued(turns) == [];
    assert Asked(turns) + [] == Asked(turns);
  }

  lemma SameBytes<T>(accepted: seq<T>, todo: seq<T>, w: seq<T>, r: seq<T>, direct: seq<T>, sent: seq<T>, all: seq<T>)
    requires accepted + todo == all && todo == w + r && multiset(sent) == multiset(accepted) + multiset(direct)
    ensures accepted + (w + r) == all
    ensures multiset(sent) + multiset(w) + multiset(r) == multiset(all) + multiset(direct)
  {
    assert multiset(accepted + todo) == multiset(all);
  }

  /** Bytes taken, left and written directly in a turn of which nothing was queued before. */
  lemma TurnBytes(items: seq<Item>, before: seq<Turn>, t: Turn, tail: Tail, h: Handlers)
    requires LegalFlow(items, before, tail, h) && AllClean(Replies(before), h)
    requires LegalTurn(RunFlow(items, before, tail, h), t, tail, h) && t.direct != []
    ensures var f := RunFlow(items, before, tail, h); var w := Wire(Front(f.d.todo[0], t.r.written));
      && f.d.accepted + (w + Rest(f, t)) == Stream(items)
      && multiset(f.sent) + multiset(w) + multiset(Rest(f, t)) == multiset(Stream(items)) + multiset(Stream(Asked(before)))
  {
    var f := RunFlow(items, before, tail, h);
    NothingQueued(items, before, tail, h);
    FlowIsDrain(items, before, tail, h);
    DrainConserves(items, Replies(before), h);
    SentCounts(items, before, tail, h);
    TodoIs(f, t);
    SameBytes(f.d.accepted, Stream(f.d.todo), Wire(Front(f.d.todo[0], t.r.written)), Rest(f, t), Stream(f.direct),
              f.sent, Stream(items));
  }

  lemma Overtaken<T>(taken: seq<T>, sent: seq<T>, w: seq<T>, r: seq<T>, d: seq<T>, whole: seq<T>) returns (a: T, b: T)
    requires r != [] && d != [] && Distinct(whole)
    requires multiset(taken) + multiset(sent) + multiset(w) + multiset(r) + multiset(d) <= multiset(whole)
    ensures a == r[0] && b == d[0] && Precedes(taken + (sent + (w + d)), b, a)
  {
    a, b := r[0], d[0];
    AtMostOnce(whole, a);
    assert a in multiset(r);
    assert a !in multiset(taken) && a !in multiset(sent) && a !in multiset(w) && a !in multiset(d);
    var all, j := taken + (sent + (w + d)), |taken| + |sent| + |w|;
    assert all[j] == b;
    assert a !in all;
    assert forall i :: 0 <= i < j + 1 ==> all[..j + 1][i] == all[i];
  }

  lemma FirstOfRest<T>(accepted: seq<T>, w: seq<T>, r: seq<T>)
    requires r != []
    ensures r[0] in accepted + (w + r)
  {
    assert (accepted + (w + r))[|accepted| + |w|] == r[0];
  }

  lemma BytesOfTurn<T>(taken: seq<T>, sent: seq<T>, w: seq<T>, r: seq<T>, all: seq<T>, asked: seq<T>, d: seq<T>,
                       more: seq<T>)
    requires multiset(sent) + multiset(w) + multiset(r) == multiset(all) + multiset(asked)
    ensures multiset(taken) + multiset(sent) + multiset(w) + multiset(r) + multiset(d) <=
            multiset(taken + (all + (asked + (d + more))))
  {
    var less := multiset(taken) + multiset(sent) + multiset(w) + multiset(r) + multiset(d);
    assert less == multiset(taken) + (multiset(sent) + multiset(w) + multiset(r)) + multiset(d);
    assert multiset(taken + (all + (asked + (d + more)))) == less + multiset(more);
  }

  /** A turn in which a byte is overtaken. */
  lemma OvertakenInTurn(items: seq<Item>, before: seq<Turn>, t: Turn, tail: Tail, h: Handlers, taken: seq<Octet>)
    returns (a: Octet, b: Octet)
    requires LegalFlow(items, before, tail, h) && AllClean(Replies(before), h)
    requires LegalTurn(RunFlow(items, before, tail, h), t, tail, h)
    requires Stream(t.direct) != [] && Rest(RunFlow(items, before, tail, h), t) != []
    requires Distinct(taken + (Stream(items) + (Stream(Asked(before)) + (Stream(t.direct) + Stream(t.during)))))
    ensures a in Stream(items) && b in Stream(t.direct)
    ensures var f := RunFlow(items, before, tail, h);
      Precedes(taken + (f.sent + (Wire(Front(f.d.todo[0], t.r.written)) + Stream(t.direct))), b, a)
  {
    var f := RunFlow(items, before, tail, h);
    var w := Wire(Front(f.d.todo[0], t.r.written));
    assert t.direct != [];
    TurnBytes(items, before, t, tail, h);
    var whole := taken + (Stream(items) + (Stream(Asked(before)) + (Stream(t.direct) + Stream(t.during))));
    BytesOfTurn(taken, f.sent, w, Rest(f, t), Stream(items), Stream(Asked(before)), Stream(t.direct), Stream(t.during));
    a, b := Overtaken(taken, f.sent, w, Rest(f, t), Stream(t.direct), whole);
    FirstOfRest(f.d.accepted, w, Rest(f, t));
  }

  lemma AskedBytes(before: seq<Turn>, t: Turn)
    ensures Stream(Asked(before + [t])) == Stream(Asked(before)) + (Stream(t.direct) + Stream(t.during))
  {
    assert (before + [t])[..|before|] == before;
    StreamAppends(Asked(before), t.direct + t.during);
    StreamAppends(t.direct, t.during);
  }

  lemma DropLast<T>(a: seq<T>, b: seq<T>, c: seq<T>, d: seq<T>)
    requires Distinct(a + (b + (c + d)))
    ensures Distinct(a + (b + c))
  {
    assert a + (b + (c + d)) == (a + (b + c)) + d;
    DistinctParts(a + (b + c), d);
  }

  lemma SentUnfolds(items: seq<Item>, turns: seq<Turn>, tail: Tail, h: Handlers)
    returns (before: seq<Turn>, f: Flow, t: Turn)
    requires turns != [] && LegalFlow(items, turns, tail, h)
    ensures before == turns[..|turns| - 1] && t == Last(turns) && turns == before + [t]
    ensures LegalFlow(items, before, tail, h) && f == RunFlow(items, before, tail, h) && LegalTurn(f, t, tail, h)
    ensures var e := RunFlow(items, turns, tail, h);
      && e.sent == f.sent + (Wire(Front(f.d.todo[0], t.r.written)) + Stream(t.direct))
      && e.direct == f.direct + t.direct
  {
    before, f, t := FlowUnfolds(items, turns, tail, h);
    StepParts(f, t, tail, h);
  }

  /** Some callback wrote a byte while one was waiting that was there before: in what the kernel took, the
      new byte is before the old one, if that was taken at all. */
  lemma {:induction false} OvertakenBytes(items: seq<Item>, turns: seq<Turn>, tail: Tail, h: Handlers,
                                          taken: seq<Octet>)
    returns (a: Octet, b: Octet)
    requires LegalFlow(items, turns, tail, h) && AllClean(Replies(turns), h) && !InTurn(items, turns, tail, h)
    requires Distinct(taken + (Stream(items) + Stream(Asked(turns))))
    ensures var f := RunFlow(items, turns, tail, h);
      a in Stream(items) && b in Stream(f.direct) && Precedes(taken + f.sent, b, a)
    decreases |turns|
  {
    var before, f, t := SentUnfolds(items, turns, tail, h);
    CleanBefore(before, t, h);
    AskedBytes(before, t);
    StreamAppends(f.direct, t.direct);
    if InTurn(items, before, tail, h) {
      a, b := OvertakenInTurn(items, before, t, tail, h, taken);
    } else {
      DropLast(taken, Stream(items), Stream(Asked(before)), Stream(t.direct) + Stream(t.during));
      a, b := OvertakenBytes(items, before, tail, h, taken);
      var more := Wire(Front(f.d.todo[0], t.r.written)) + Stream(t.direct);
      PrecedesStays(taken + f.sent, more, b, a);
      Associates(taken, f.sent, more);
    }
  }
}
