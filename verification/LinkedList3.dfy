/** The doubly linked lists of structure/LinkedList3.h: the links of the nodes, and the sequences that they make. */
module LinkedList3 {
  import opened Common
  import opened Lists

  datatype Node<T> = Node(p: Option<T>, n: Option<T>)

  /** The nodes of l are linked in this order, behind `prev`. */
  ghost predicate Chain<T>(nodes: map<T, Node<T>>, prev: Option<T>, l: seq<T>)
    decreases |l|
  {
    l == [] || (l[0] in nodes && nodes[l[0]] == Node(prev, Head(l[1..])) && Chain(nodes, Some(l[0]), l[1..]))
  }

  /** nodes' has the links of nodes but for those of l. */
  ghost predicate SameBut<T>(nodes: map<T, Node<T>>, nodes': map<T, Node<T>>, l: seq<T>) {
    forall y :: y !in l && y in nodes ==> y in nodes' && nodes'[y] == nodes[y]
  }

  lemma {:induction false} ChainFrame<T>(nodes: map<T, Node<T>>, nodes': map<T, Node<T>>, prev: Option<T>, l: seq<T>)
    requires Chain(nodes, prev, l) && forall y :: y in l && y in nodes ==> y in nodes' && nodes'[y] == nodes[y]
    ensures Chain(nodes', prev, l)
    decreases |l|
  {
    if l == [] {
    } else {
      ChainFrame(nodes, nodes', Some(l[0]), l[1..]);
    }
  }

  /** What the links of a node say. */
  lemma {:induction false} ChainAt<T>(nodes: map<T, Node<T>>, prev: Option<T>, l: seq<T>, i: nat)
    requires Chain(nodes, prev, l) && i < |l|
    ensures l[i] in nodes
    ensures nodes[l[i]].p == if i == 0 then prev else Some(l[i - 1])
    ensures nodes[l[i]].n == if i + 1 == |l| then None else Some(l[i + 1])
    decreases |l|
  {
    if i == 0 {
    } else {
      ChainAt(nodes, Some(l[0]), l[1..], i - 1);
    }
  }

  lemma {:induction false} ChainNext<T>(nodes: map<T, Node<T>>, prev: Option<T>, l: seq<T>, x: T)
    requires Chain(nodes, prev, l) && x in l
    ensures x in nodes && nodes[x].n == NextOf(l, x)
    ensures nodes[x].n.Some? ==> nodes[x].n.value in l[1..]
    decreases |l|
  {
    if l[0] == x {
    } else {
      ChainNext(nodes, Some(l[0]), l[1..], x);
    }
  }

  lemma {:induction false} ChainPrev<T>(nodes: map<T, Node<T>>, prev: Option<T>, l: seq<T>, x: T)
    requires Chain(nodes, prev, l) && x in l
    ensures x in nodes
    ensures if x == l[0] then nodes[x].p == prev else nodes[x].p.Some? && nodes[x].p.value in l
    decreases |l|
  {
    if l[0] == x {
    } else {
      ChainPrev(nodes, Some(l[0]), l[1..], x);
    }
  }

  lemma {:induction false} ChainNextOrPrev<T>(nodes: map<T, Node<T>>, prev: Option<T>, l: seq<T>, x: T)
    requires Chain(nodes, prev, l) && NoDup(l) && x in l && |l| >= 2
    ensures x in nodes
    ensures nodes[x].n.Some? ==> nodes[x].n.value == NextOrPrev(l, x)
    ensures nodes[x].n.None? ==> nodes[x].p == Some(NextOrPrev(l, x))
    decreases |l|
  {
    if l[0] == x {
    } else if |l| == 2 {
      assert l[1..] == [x];
    } else {
      ChainNextOrPrev(nodes, Some(l[0]), l[1..], x);
    }
  }

  // ----- the functions of the header, on the links

  function LinkedAfter<T(==)>(nodes: map<T, Node<T>>, x: T, ref: T): map<T, Node<T>>
    requires ref in nodes
  {
    var n := nodes[ref].n;
    var nodes1 := nodes[x := Node(Some(ref), n)];
    var nodes2 := nodes1[ref := nodes1[ref].(n := Some(x))];
    if n.Some? && n.value in nodes2 then nodes2[n.value := nodes2[n.value].(p := Some(x))] else nodes2
  }

  function Unlinked<T(==)>(nodes: map<T, Node<T>>, x: T): map<T, Node<T>>
    requires x in nodes
  {
    var p, n := nodes[x].p, nodes[x].n;
    var nodes1 := if p.Some? && p.value in nodes then nodes[p.value := nodes[p.value].(n := n)] else nodes;
    if n.Some? && n.value in nodes1 then nodes1[n.value := nodes1[n.value].(p := p)] else nodes1
  }

  lemma {:induction false} ChainInsert<T>(nodes: map<T, Node<T>>, prev: Option<T>, l: seq<T>, x: T, ref: T)
    requires Chain(nodes, prev, l) && NoDup(l) && ref in l && x !in l && ref in nodes
    ensures Chain(LinkedAfter(nodes, x, ref), prev, InsertAfter(l, ref, x))
    decreases |l|
  {
    var nodes' := LinkedAfter(nodes, x, ref);
    ChainNext(nodes, prev, l, ref);
    if l[0] == ref {
      var rest := l[1..];
      assert ([ref, x] + rest)[1..] == [x] + rest && ([x] + rest)[1..] == rest;
      if rest != [] {
        ChainFrame(nodes, nodes', Some(rest[0]), rest[1..]);
      }
    } else {
      ChainNext(nodes, Some(l[0]), l[1..], ref);
      ChainInsert(nodes, Some(l[0]), l[1..], x, ref);
      var r := InsertAfter(l[1..], ref, x);
      assert ([l[0]] + r)[1..] == r;
    }
  }

  lemma {:induction false} ChainRemove<T>(nodes: map<T, Node<T>>, prev: Option<T>, l: seq<T>, x: T)
    requires Chain(nodes, prev, l) && NoDup(l) && x in l && x in nodes && (prev.Some? ==> prev.value !in l)
    ensures Chain(Unlinked(nodes, x), prev, Without(l, x))
    decreases |l|
  {
    var rest := l[1..];
    if l[0] == x {
      WithoutAbsent(rest, x);
      if rest != [] {
        ChainFrame(nodes, Unlinked(nodes, x), Some(rest[0]), rest[1..]);
      }
    } else {
      ChainRemove(nodes, Some(l[0]), rest, x);
      RemoveLater(nodes, prev, l, x);
      var w := Without(rest, x);
      assert ([l[0]] + w)[1..] == w;
    }
  }

  /** The first node of a list when a later one is taken out. */
  lemma RemoveLater<T>(nodes: map<T, Node<T>>, prev: Option<T>, l: seq<T>, x: T)
    requires Chain(nodes, prev, l) && NoDup(l) && x in l && l[0] != x && x in nodes
    ensures l[0] in Unlinked(nodes, x) && Unlinked(nodes, x)[l[0]] == Node(prev, Head(Without(l[1..], x)))
  {
    var rest := l[1..];
    ChainNext(nodes, Some(l[0]), rest, x);
    ChainPrev(nodes, Some(l[0]), rest, x);
    if rest[0] == x {
      WithoutAbsent(rest[1..], x);
    }
  }

  /** Only the links of the list are changed. */
  lemma InsertFrame<T>(nodes: map<T, Node<T>>, l: seq<T>, x: T, ref: T)
    requires Chain(nodes, None, l) && ref in l && ref in nodes
    ensures SameBut(nodes, LinkedAfter(nodes, x, ref), l + [x])
  {
    ChainNext(nodes, None, l, ref);
  }

  lemma RemoveFrame<T>(nodes: map<T, Node<T>>, l: seq<T>, x: T)
    requires Chain(nodes, None, l) && x in l && x in nodes
    ensures SameBut(nodes, Unlinked(nodes, x), l)
  {
    ChainNext(nodes, None, l, x);
    ChainPrev(nodes, None, l, x);
  }

  class Links<T(==,!new)> {
    var nodes: map<T, Node<T>>

    constructor ()
      ensures nodes == map[]
    {
      nodes := map[];
    }

    method InitLonely(x: T)
      modifies this
      ensures Chain(nodes, None, [x]) && SameBut(old(nodes), nodes, [x])
    {
      nodes := nodes[x := Node(None, None)];
    }

    method InitAfter(x: T, ref: T, ghost l: seq<T>)
      requires Chain(nodes, None, l) && NoDup(l) && ref in l && x !in l
      modifies this
      ensures Chain(nodes, None, InsertAfter(l, ref, x)) && SameBut(old(nodes), nodes, l + [x])
    {
      ChainNext(nodes, None, l, ref);
      ChainInsert(nodes, None, l, x, ref);
      InsertFrame(nodes, l, x, ref);
      ghost var was := nodes;
      var n := nodes[ref].n;
      nodes := nodes[x := Node(Some(ref), n)];
      nodes := nodes[ref := nodes[ref].(n := Some(x))];
      if n.Some? {
        ChainNext(was, None, l, ref);
        ChainHas(was, None, l, n.value);
        nodes := nodes[n.value := nodes[n.value].(p := Some(x))];
      }
    }

    /** The part of LinkedList3Node_Free after the iterators have jumped. */
    method Free(x: T, ghost l: seq<T>)
      requires Chain(nodes, None, l) && NoDup(l) && x in l
      modifies this
      ensures Chain(nodes, None, Without(l, x)) && SameBut(old(nodes), nodes, l)
    {
      ChainNext(nodes, None, l, x);
      ChainPrev(nodes, None, l, x);
      ChainRemove(nodes, None, l, x);
      RemoveFrame(nodes, l, x);
      ghost var was := nodes;
      var p, n := nodes[x].p, nodes[x].n;
      if p.Some? {
        ChainHas(was, None, l, p.value);
        nodes := nodes[p.value := nodes[p.value].(n := n)];
      }
      if n.Some? {
        ChainHas(was, None, l, n.value);
        nodes := nodes[n.value := nodes[n.value].(p := p)];
      }
    }

    method IsLonely(x: T, ghost l: seq<T>) returns (lonely: bool)
      requires Chain(nodes, None, l) && NoDup(l) && x in l
      ensures lonely <==> |l| == 1
    {
      ghost var i :| 0 <= i < |l| && l[i] == x;
      ChainAt(nodes, None, l, i);
      lonely := nodes[x].p.None? && nodes[x].n.None?;
    }

    method NextOrPrev(x: T, ghost l: seq<T>) returns (other: T)
      requires Chain(nodes, None, l) && NoDup(l) && x in l && |l| >= 2
      ensures other == Lists.NextOrPrev(l, x)
    {
      ChainNextOrPrev(nodes, None, l, x);
      other := if nodes[x].n.Some? then nodes[x].n.value else nodes[x].p.value;
    }

    /** The start of the list that x is in. */
    method First(x: T, ghost l: seq<T>) returns (first: T)
      requires Chain(nodes, None, l) && x in l
      ensures l != [] && first == l[0]
    {
      ghost var i :| 0 <= i < |l| && l[i] == x;
      first := x;
      ChainAt(nodes, None, l, i);
      while nodes[first].p.Some?
        invariant 0 <= i < |l| && l[i] == first && first in nodes
        invariant nodes[first].p == if i == 0 then None else Some(l[i - 1])
        decreases i
      {
        first := nodes[first].p.value;
        i := i - 1;
        ChainAt(nodes, None, l, i);
      }
    }
  }

  lemma {:induction false} ChainHas<T>(nodes: map<T, Node<T>>, prev: Option<T>, l: seq<T>, x: T)
    requires Chain(nodes, prev, l) && x in l
    ensures x in nodes
    decreases |l|
  {
    if l[0] == x {
    } else {
      ChainHas(nodes, Some(l[0]), l[1..], x);
    }
  }
}
