/** The lists of input sources: adding and the three ways of deleting. */
module Sources {
  import opened Seqs
  import opened Reactor

  /** The nodes from `head` along `next` are exactly `ss`, null-terminated. */
  ghost predicate SrcChain(head: Src?, ss: seq<Src>)
    reads ss`next
  {
    && head == (if ss == [] then null else ss[0])
    && (forall i {:trigger ss[i].next} :: 0 <= i < |ss| ==> ss[i].next == if i + 1 < |ss| then ss[i + 1] else null)
    && Distinct(ss)
  }

  /** The list without `x`; the same list if `x` is not in it. */
  ghost function Without(ss: seq<Src>, x: Src): seq<Src> {
    if ss == [] then []
    else if ss[0] == x then ss[1..]
    else [ss[0]] + Without(ss[1..], x)
  }

  lemma {:induction false} WithoutAbsent(ss: seq<Src>, x: Src)
    requires x !in ss
    ensures Without(ss, x) == ss
  {
    if ss != [] {
      WithoutAbsent(ss[1..], x);
    }
  }

  lemma {:induction false} WithoutAt(ss: seq<Src>, k: nat)
    requires k < |ss| && Distinct(ss)
    ensures Without(ss, ss[k]) == ss[..k] + ss[k + 1..]
  {
    if k > 0 {
      WithoutAt(ss[1..], k - 1);
      assert ss[1..][..k - 1] == ss[1..k] && ss[1..][k..] == ss[k + 1..];
      assert [ss[0]] + ss[1..k] == ss[..k];
    }
  }

  lemma WithoutNode<T>(ss: seq<T>, k: nat)
    requires k < |ss| && Distinct(ss)
    ensures var r := ss[..k] + ss[k + 1..];
      Distinct(r) && |r| == |ss| - 1 && forall i :: 0 <= i < |r| ==> r[i] == ss[if i < k then i else i + 1]
  {
  }

  /** A list whose node k has been bypassed. */
  lemma ChainWithout(head: Src?, ss: seq<Src>, k: nat)
    requires k < |ss| && Distinct(ss)
    requires head == if k == 0 then (if 1 < |ss| then ss[1] else null) else ss[0]
    requires forall i {:trigger ss[i].next} :: 0 <= i < |ss| && i != k && i + 1 != k ==>
               ss[i].next == if i + 1 < |ss| then ss[i + 1] else null
    requires k > 0 ==> ss[k - 1].next == if k + 1 < |ss| then ss[k + 1] else null
    ensures SrcChain(head, Without(ss, ss[k]))
  {
    WithoutAt(ss, k);
    WithoutNode(ss, k);
    var r := ss[..k] + ss[k + 1..];
    forall i | 0 <= i < |r|
      ensures r[i].next == if i + 1 < |r| then r[i + 1] else null
    {
      var j := if i < k then i else i + 1;
      assert r[i] == ss[j];
      if i + 1 < |r| {
        assert r[i + 1] == ss[if i + 1 < k then i + 1 else i + 2];
      }
    }
    assert head == if r == [] then null else r[0];
  }

  /** rl->sources[type]. */
  class SourceList {
    var head: Src?
    ghost var nodes: seq<Src>

    ghost predicate Valid()
      reads this, nodes`next
    {
      SrcChain(head, nodes)
    }

    constructor ()
      ensures Valid() && nodes == []
    {
      head, nodes := null, [];
    }

    /** gwrl_src_add, which links the node only if the list is not empty. */
    method Add(src: Src)
      requires Valid() && src !in nodes && (src.next == null || nodes != [])
      modifies this, src`next
      ensures Valid() && nodes == [src] + old(nodes)
    {
      if head != null {
        src.next := head;
      }
      head := src;
      nodes := [src] + nodes;
    }

    /** gwrl_src_del: past the predecessor given, at the head, or by search through the pointers to
        pointers; all three give the same list. */
    method Delete(src: Src, prev: Src?)
      requires Valid()
      requires prev != null ==> exists k :: 0 < k < |nodes| && nodes[k - 1] == prev && nodes[k] == src
      modifies this, nodes`next
      ensures Valid() && nodes == Without(old(nodes), src)
      ensures src in old(nodes) ==> src.next == null
    {
      if prev != null {
        ghost var k :| 0 < k < |nodes| && nodes[k - 1] == prev && nodes[k] == src;
        assert nodes[k].next == if k + 1 < |nodes| then nodes[k + 1] else null;
        prev.next := src.next;
        src.next := null;
        ChainWithout(head, nodes, k);
        nodes := Without(nodes, src);
      } else if src == head {
        assert nodes[0].next == if 1 < |nodes| then nodes[1] else null;
        head := head.next;
        src.next := null;
        ChainWithout(head, nodes, 0);
        nodes := Without(nodes, src);
      } else {
        Search(src);
      }
    }

    /** The search: `owner` is the node whose next field `search` points to, null for the head. */
    method Search(src: Src)
      requires Valid() && src != head
      modifies this, nodes`next
      ensures Valid() && nodes == Without(old(nodes), src) && head == old(head)
      ensures src in old(nodes) ==> src.next == null
    {
      var owner: Src? := null;
      var at := head;
      ghost var k := 0;
      while at != null
        invariant 0 <= k <= |nodes| && at == if k < |nodes| then nodes[k] else null
        invariant owner == if k > 0 then nodes[k - 1] else null
        invariant src !in nodes[..k]
        invariant Valid() && nodes == old(nodes) && head == old(head)
        decreases |nodes| - k
      {
        assert nodes[k].next == if k + 1 < |nodes| then nodes[k + 1] else null;
        if at == src {
          owner.next := at.next;
          src.next := null;
          ChainWithout(head, nodes, k);
          nodes := Without(nodes, src);
          return;
        }
        owner := at;
        at := at.next;
        assert nodes[..k + 1] == nodes[..k] + [nodes[k]];
        k := k + 1;
      }
      assert nodes[..k] == nodes;
      WithoutAbsent(nodes, src);
    }
  }
}
