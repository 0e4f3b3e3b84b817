/** Facts about sequences that the list proofs share. */
module Seqs {

  predicate Distinct<T(==)>(s: seq<T>) {
    forall i, j :: 0 <= i < j < |s| ==> s[i] != s[j]
  }

  predicate Apart<T(==)>(xs: seq<T>, ys: seq<T>) {
    forall i, j :: 0 <= i < |xs| && 0 <= j < |ys| ==> xs[i] != ys[j]
  }

  predicate Off<T(==)>(x: T, xs: seq<T>) {
    forall i :: 0 <= i < |xs| ==> xs[i] != x
  }

  lemma ApartSnoc<T>(xs: seq<T>, x: T, ys: seq<T>)
    requires Apart(xs, ys) && Off(x, ys)
    ensures Apart(xs + [x], ys) && Apart(ys, xs + [x])
  {
  }

  lemma ApartConcat<T>(xs: seq<T>, ys: seq<T>, zs: seq<T>)
    requires Apart(xs, zs) && Apart(ys, zs)
    ensures Apart(xs + ys, zs) && Apart(zs, xs + ys)
  {
  }

  lemma Associates<T>(a: seq<T>, b: seq<T>, c: seq<T>)
    ensures (a + b) + c == a + (b + c)
  {
  }

  lemma SliceGrows<T>(a: seq<T>, b: seq<T>, c: seq<T>)
    requires a <= b <= c
    ensures c[|a|..] == b[|a|..] + c[|b|..]
  {
  }

  lemma TakeOneMore<T>(s: seq<T>, k: nat)
    requires k < |s|
    ensures s[..k + 1] == s[..k] + [s[k]]
  {
  }

  function Last<T>(s: seq<T>): T
    requires s != []
  {
    s[|s| - 1]
  }

  lemma SuffixLast<T>(s: seq<T>, k: nat)
    requires k < |s|
    ensures Last(s[k..]) == Last(s)
  {
  }

  /** Sequences that differ at most in their first element have the same last one. */
  lemma SameLast<T>(xs: seq<T>, ys: seq<T>)
    requires |xs| == |ys| >= 2 && xs[1..] == ys[1..]
    ensures Last(xs) == Last(ys)
  {
    SuffixLast(xs, 1);
    SuffixLast(ys, 1);
  }

  lemma DistinctConcat<T>(xs: seq<T>, ys: seq<T>)
    requires Distinct(xs) && Distinct(ys) && forall x :: x in xs ==> x !in ys
    ensures Distinct(xs + ys)
  {
    forall i, j | 0 <= i < j < |xs + ys|
      ensures (xs + ys)[i] != (xs + ys)[j]
    {
      if i < |xs| <= j {
        assert xs[i] in xs && ys[j - |xs|] in ys;
      }
    }
  }

  lemma DistinctParts<T>(xs: seq<T>, ys: seq<T>)
    requires Distinct(xs + ys)
    ensures Distinct(xs) && Distinct(ys) && forall x :: x in xs ==> x !in ys
  {
    var all := xs + ys;
    assert forall i :: 0 <= i < |xs| ==> all[i] == xs[i];
    assert forall i :: 0 <= i < |ys| ==> all[|xs| + i] == ys[i];
  }

  function Reverse<T>(s: seq<T>): (r: seq<T>)
    ensures |r| == |s|
  {
    if s == [] then [] else Reverse(s[1..]) + [s[0]]
  }

  lemma {:induction false} ReverseAppends<T>(xs: seq<T>, ys: seq<T>)
    ensures Reverse(xs + ys) == Reverse(ys) + Reverse(xs)
  {
    if xs == [] {
      assert xs + ys == ys;
    } else {
      assert (xs + ys)[1..] == xs[1..] + ys;
      ReverseAppends(xs[1..], ys);
    }
  }

  lemma ReverseGrows<T>(xs: seq<T>, x: T, rest: seq<T>)
    ensures Reverse(xs + [x]) + rest == [x] + (Reverse(xs) + rest)
  {
    ReverseAppends(xs, [x]);
    assert Reverse([x]) == [x];
    Associates([x], Reverse(xs), rest);
  }

  lemma {:induction false} ReverseAt<T>(s: seq<T>, k: nat)
    requires k < |s|
    ensures Reverse(s)[k] == s[|s| - 1 - k]
  {
    assert Reverse(s) == Reverse(s[1..]) + [s[0]];
    if k < |s| - 1 {
      ReverseAt(s[1..], k);
    }
  }

  lemma {:induction false} ReverseKeeps<T>(s: seq<T>)
    ensures multiset(Reverse(s)) == multiset(s)
  {
    if s != [] {
      ReverseKeeps(s[1..]);
      assert s == [s[0]] + s[1..];
    }
  }

  /** Taking one element out of a sequence. */
  lemma TakenOut<T>(ys: seq<T>, j: nat)
    requires j < |ys| && Distinct(ys)
    ensures var rest := ys[..j] + ys[j + 1..];
      && Distinct(rest) && ys[j] !in rest && multiset(ys) == multiset(rest) + multiset{ys[j]}
      && (forall y :: y in rest ==> y in ys) && (forall y :: y in ys && y != ys[j] ==> y in rest)
  {
    var rest := ys[..j] + ys[j + 1..];
    assert ys == ys[..j] + ([ys[j]] + ys[j + 1..]);
    assert forall i :: 0 <= i < |rest| ==> rest[i] == ys[if i < j then i else i + 1];
  }

  lemma HeadOut<T>(xs: seq<T>)
    requires xs != [] && Distinct(xs)
    ensures Distinct(xs[1..]) && xs[0] !in xs[1..] && multiset(xs) == multiset(xs[1..]) + multiset{xs[0]}
    ensures forall x :: x in xs <==> x == xs[0] || x in xs[1..]
  {
    assert xs == [xs[0]] + xs[1..];
  }

  lemma {:induction false} SameElements<T>(xs: seq<T>, ys: seq<T>)
    requires Distinct(xs) && Distinct(ys)
    requires (forall x :: x in xs ==> x in ys) && (forall y :: y in ys ==> y in xs)
    ensures multiset(xs) == multiset(ys) && |xs| == |ys|
  {
    assert forall i :: 0 <= i < |ys| ==> ys[i] in ys;
    if xs != [] {
      assert xs[0] in xs;
      var j :| 0 <= j < |ys| && ys[j] == xs[0];
      var rest := ys[..j] + ys[j + 1..];
      TakenOut(ys, j);
      HeadOut(xs);
      SameElements(xs[1..], rest);
      assert multiset(ys) == multiset(xs[1..]) + multiset{xs[0]};
    }
  }
}
