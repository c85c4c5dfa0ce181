/** Doubly linked lists threaded through links that live inside their owners. A link may be in at
    most one list at a time; the operations find out which from its pointers alone. */
module IntrusiveList {
  import opened Bytes
  import opened Sequences

  class Link<T> {
    const owner: Maybe<T>
    var next: Link?<T>
    var prev: Link?<T>
    ghost var list: List?<T>  // the list this link is part of

    constructor (owner: Maybe<T>)
      ensures this.owner == owner && Loose()
    {
      this.owner := owner;
      next, prev, list := null, null, null;
    }

    /** In no list, pointing nowhere. */
    ghost predicate Loose()
      reads this
    {
      list == null && next == null && prev == null
    }

    /** Between the sentinels of a well-formed list. */
    ghost predicate Placed()
      reads this, list, if list == null then [] else list.Chain()
    {
      list != null && list.Valid() && this in list.nodes
    }
  }

  /** Neighbours point at each other and the ends point nowhere. */
  ghost predicate Joined<T>(c: seq<Link<T>>)
    reads c
  {
    && |c| >= 2
    && c[0].prev == null && c[|c| - 1].next == null
    && (forall i :: 0 <= i < |c| - 1 ==> c[i].next == c[i + 1])
    && (forall i :: 1 <= i < |c| ==> c[i].prev == c[i - 1])
  }

  class List<T> {
    const head: Link<T>
    const tail: Link<T>
    ghost var nodes: seq<Link<T>>

    /** The links between the two sentinels, with them. */
    ghost function Chain(): seq<Link<T>>
      reads this
    {
      [head] + nodes + [tail]
    }

    ghost predicate Valid()
      reads this, Chain()
    {
      && Distinct(Chain()) && Joined(Chain())
      && forall x :: x in Chain() ==> x.list == this
    }

    constructor ()
      ensures Valid() && nodes == [] && fresh(head) && fresh(tail)
    {
      head := new Link(None);
      tail := new Link(None);
      nodes := [];
      new;
      head.next, tail.prev := tail, head;
      head.list, tail.list := this, this;
    }
  }

  lemma JoinedWithout<T>(c: seq<Link<T>>, c': seq<Link<T>>, k: nat)
    requires 0 < k < |c| - 1 && c' == c[..k] + c[k + 1..]
    requires c[0].prev == null && c[|c| - 1].next == null
    requires forall i :: 0 <= i < |c| - 1 && i != k - 1 && i != k ==> c[i].next == c[i + 1]
    requires forall i :: 1 <= i < |c| && i != k + 1 && i != k ==> c[i].prev == c[i - 1]
    requires c[k - 1].next == c[k + 1] && c[k + 1].prev == c[k - 1]
    ensures Joined(c')
  {
    forall i | 0 <= i < |c'| - 1 ensures c'[i].next == c'[i + 1] {
      if i < k { assert c'[i] == c[i]; } else { assert c'[i] == c[i + 1]; }
      if i + 1 < k { assert c'[i + 1] == c[i + 1]; } else { assert c'[i + 1] == c[i + 2]; }
    }
    forall i | 1 <= i < |c'| ensures c'[i].prev == c'[i - 1] {
      if i < k { assert c'[i] == c[i]; } else { assert c'[i] == c[i + 1]; }
      if i - 1 < k { assert c'[i - 1] == c[i - 1]; } else { assert c'[i - 1] == c[i]; }
    }
  }

  lemma ChainWithout<T>(c: seq<Link<T>>, nodes: seq<Link<T>>, i: nat)
    requires |nodes| + 2 == |c| && i < |nodes| && nodes == c[1..|c| - 1]
    ensures [c[0]] + (nodes[..i] + nodes[i + 1..]) + [c[|c| - 1]] == c[..i + 1] + c[i + 2..]
  {
  }

  /** The pointer surgery: bypass the link, which is at place k of a chain, or in none. */
  method Bypass<T>(x: Link<T>, ghost c: seq<Link<T>>, ghost k: nat)
    requires if c == [] then x.next == null && x.prev == null
             else 0 < k < |c| - 1 && c[k] == x && Distinct(c) && Joined(c)
    modifies x, x.next, x.prev
    ensures x.Loose()
    ensures forall y: Link<T> | old(allocated(y)) && y != x :: y.list == old(y.list)
    ensures c != [] ==> Joined(c[..k] + c[k + 1..])
  {
    ghost var p, n := x.prev, x.next;
    assert c != [] ==> p == c[k - 1] && n == c[k + 1];
    if x.prev != null {
      x.prev.next := x.next;
    }
    if x.next != null {
      x.next.prev := x.prev;
    }
    x.prev := null;
    x.next := null;
    x.list := null;
    if c != [] {
      assert forall i :: 0 <= i < |c| && i != k - 1 && i != k ==> c[i].next == old(c[i].next);
      assert forall i :: 0 <= i < |c| && i != k + 1 && i != k ==> c[i].prev == old(c[i].prev);
      JoinedWithout(c, c[..k] + c[k + 1..], k);
    }
  }

  /** Unlink and keep account of it in the list, if any. */
  method Unlink<T>(x: Link<T>)
    requires x.Loose() || x.Placed()
    modifies x, x.next, x.prev, x.list
    ensures x.Loose()
    ensures var home := old(x.list); home != null ==> home.Valid() && home.nodes == Without(old(home.nodes), x)
  {
    hide Joined, Distinct, Without;
    ghost var home: List?<T>, i: nat := x.list, 0;
    ghost var c: seq<Link<T>>, c': seq<Link<T>>, nodes: seq<Link<T>> := [], [], [];
    if home != null {
      c, nodes := home.Chain(), home.nodes;
      i, c' := Locate(home, x);
    }
    Bypass(x, c, i + 1);
    assert forall y :: y in c' ==> y.list == home;
    if home != null {
      home.nodes := nodes[..i] + nodes[i + 1..];
      assert home.Chain() == c';
    }
  }

  /** Where a link is in its list, and what remains of the list without it. */
  lemma Locate<T>(home: List<T>, x: Link<T>) returns (i: nat, c': seq<Link<T>>)
    requires home.Valid() && x in home.nodes
    ensures
      var c, nodes := home.Chain(), home.nodes;
      && i < |nodes| && |c| == |nodes| + 2 && c[i + 1] == x
      && Without(nodes, x) == nodes[..i] + nodes[i + 1..]
      && c' == c[..i + 1] + c[i + 2..] == [home.head] + (nodes[..i] + nodes[i + 1..]) + [home.tail]
      && Distinct(c') && forall y :: y in c' ==> y.list == home && y != x
  {
    hide Joined, Distinct, Without;
    var c, nodes := home.Chain(), home.nodes;
    i :| 0 <= i < |nodes| && nodes[i] == x;
    MiddleOf(c, nodes);
    WithoutAt(nodes, i);
    ChainWithout(c, nodes, i);
    DistinctWithout(c, i + 1);
    c' := c[..i + 1] + c[i + 2..];
  }

  /** Unlink, whatever list the link is in, if any. No other list in the heap is affected. */
  method Remove<T>(x: Link<T>)
    requires x.Loose() || x.Placed()
    modifies x, x.next, x.prev, x.list
    ensures x.Loose()
    ensures var home := old(x.list); home != null ==> home.Valid() && home.nodes == Without(old(home.nodes), x)
    ensures forall l: List<T> | old(allocated(l)) && l != old(x.list) && old(l.Valid()) ::
      l.Valid() && l.nodes == old(l.nodes)
  {
    NeighboursOwned(x);
    hide Joined, Distinct, Without;
    Unlink(x);
  }

  /** The neighbours of a placed link are in the same list. */
  lemma NeighboursOwned<T>(x: Link<T>)
    requires x.Loose() || x.Placed()
    ensures x.next != null ==> x.next.list == x.list != null
    ensures x.prev != null ==> x.prev.list == x.list != null
  {
    if x.list != null {
      var c, nodes := x.list.Chain(), x.list.nodes;
      var i :| 0 <= i < |nodes| && nodes[i] == x;
      assert c[i + 1] == x;
      Neighbours(c, i + 1);
      assert c[i] in c && c[i + 2] in c;
    }
  }

  lemma Neighbours<T>(c: seq<Link<T>>, k: nat)
    requires Joined(c) && 0 < k < |c| - 1
    ensures c[k].prev == c[k - 1] && c[k].next == c[k + 1]
  {
  }

  lemma MiddleOf<T>(c: seq<T>, nodes: seq<T>)
    requires |c| >= 2 && c == [c[0]] + nodes + [c[|c| - 1]] && Distinct(c)
    ensures nodes == c[1..|c| - 1] && Distinct(nodes)
  {
    assert forall i :: 0 <= i < |nodes| ==> nodes[i] == c[i + 1];
  }

  lemma DistinctWithout<T>(c: seq<T>, k: nat)
    requires k < |c| && Distinct(c)
    ensures Distinct(c[..k] + c[k + 1..]) && c[k] !in c[..k] + c[k + 1..]
  {
  }

  // ---- Placing ----

  lemma JoinedWith<T>(c: seq<Link<T>>, c': seq<Link<T>>, x: Link<T>, k: nat)
    requires 0 < k < |c| && c' == c[..k] + [x] + c[k..]
    requires c[0].prev == null && c[|c| - 1].next == null
    requires forall i :: 0 <= i < |c| - 1 && i != k - 1 ==> c[i].next == c[i + 1]
    requires forall i :: 1 <= i < |c| && i != k ==> c[i].prev == c[i - 1]
    requires c[k - 1].next == x && c[k].prev == x && x.next == c[k] && x.prev == c[k - 1]
    ensures Joined(c')
  {
    assert c'[k] == x && c'[0] == c[0] && c'[|c'| - 1] == c[|c| - 1];
    forall i | 0 <= i < |c'| - 1 ensures c'[i].next == c'[i + 1] {
      if i < k { assert c'[i] == c[i]; } else if i > k { assert c'[i] == c[i - 1]; }
      if i + 1 < k { assert c'[i + 1] == c[i + 1]; } else if i + 1 > k { assert c'[i + 1] == c[i]; }
    }
    forall i | 1 <= i < |c'| ensures c'[i].prev == c'[i - 1] {
      if i < k { assert c'[i] == c[i]; } else if i > k { assert c'[i] == c[i - 1]; }
      if i - 1 < k { assert c'[i - 1] == c[i - 1]; } else if i - 1 > k { assert c'[i - 1] == c[i - 2]; }
    }
  }

  lemma DistinctWith<T>(c: seq<T>, x: T, k: nat)
    requires k <= |c| && Distinct(c) && x !in c
    ensures Distinct(c[..k] + [x] + c[k..])
  {
    var c' := c[..k] + [x] + c[k..];
    forall i, j | 0 <= i < |c'| && 0 <= j < |c'| && i != j ensures c'[i] != c'[j] {
      assert i != k ==> c'[i] == c[if i < k then i else i - 1];
      assert j != k ==> c'[j] == c[if j < k then j else j - 1];
    }
  }

  /** The pointer surgery of both placements: put a loose link at place k of a chain. */
  method SpliceBefore<T>(x: Link<T>, t: Link<T>, ghost c: seq<Link<T>>, ghost k: nat, ghost l: List<T>)
    requires x.Loose() && x !in c && Distinct(c) && Joined(c) && 0 < k < |c| && c[k] == t
    modifies x, t, t.prev
    ensures Joined(c[..k] + [x] + c[k..]) && x.list == l
    ensures forall y: Link<T> | old(allocated(y)) && y != x :: y.list == old(y.list)
  {
    assert t.prev == c[k - 1];
    x.next := t;
    x.prev := t.prev;
    t.prev := x;
    if x.prev != null {
      x.prev.next := x;
    }
    x.list := l;
    assert forall i :: 0 <= i < |c| && i != k - 1 ==> c[i].next == old(c[i].next);
    assert forall i :: 0 <= i < |c| && i != k ==> c[i].prev == old(c[i].prev);
    JoinedWith(c, c[..k] + [x] + c[k..], x, k);
  }

  method SpliceAfter<T>(x: Link<T>, t: Link<T>, ghost c: seq<Link<T>>, ghost k: nat, ghost l: List<T>)
    requires x.Loose() && x !in c && Distinct(c) && Joined(c) && 0 < k < |c| && c[k - 1] == t
    modifies x, t, t.next
    ensures Joined(c[..k] + [x] + c[k..]) && x.list == l
    ensures forall y: Link<T> | old(allocated(y)) && y != x :: y.list == old(y.list)
  {
    assert t.next == c[k];
    x.next := t.next;
    t.next := x;
    x.prev := t;
    if x.next != null {
      x.next.prev := x;
    }
    x.list := l;
    assert forall i :: 0 <= i < |c| && i != k - 1 ==> c[i].next == old(c[i].next);
    assert forall i :: 0 <= i < |c| && i != k ==> c[i].prev == old(c[i].prev);
    JoinedWith(c, c[..k] + [x] + c[k..], x, k);
  }

  /** The list's nodes once x has been taken out of it, wherever x was. */
  ghost function Rest<T>(l: List<T>, x: Link<T>): seq<Link<T>>
    reads l, x
  {
    if x.list == l then Without(l.nodes, x) else l.nodes
  }

  lemma Ends<T>(l: List<T>)
    requires l.Valid()
    ensures
      var c := l.Chain();
      && l.head.next == c[1] && l.tail.prev == c[|c| - 2]
      && c[1] in c && c[|c| - 2] in c
      && (l.nodes == [] <==> l.head.next == l.tail)
      && (l.nodes != [] ==> l.head.next == l.nodes[0] && l.tail.prev == l.nodes[|l.nodes| - 1])
  {
    var c := l.Chain();
    assert c[0] == l.head && c[|c| - 1] == l.tail;
    assert l.nodes != [] ==> c[1] == l.nodes[0] && c[|c| - 2] == l.nodes[|l.nodes| - 1];
  }

  method AttachBack<T>(l: List<T>, x: Link<T>)
    requires l.Valid() && x.Loose()
    modifies l, x, l.tail, l.tail.prev
    ensures l.Valid() && l.nodes == old(l.nodes) + [x]
  {
    hide Joined, Distinct;
    ghost var c, nodes := l.Chain(), l.nodes;
    ghost var k := |c| - 1;
    assert c[k] == l.tail && c[..k] == [l.head] + nodes && c[k..] == [l.tail];
    assert x !in c;
    DistinctWith(c, x, k);
    SpliceBefore(x, l.tail, c, k, l);
    l.nodes := nodes + [x];
    assert l.Chain() == c[..k] + [x] + c[k..];
    assert forall y :: y in l.Chain() ==> y.list == l;
  }

  method AttachFront<T>(l: List<T>, x: Link<T>)
    requires l.Valid() && x.Loose()
    modifies l, x, l.head, l.head.next
    ensures l.Valid() && l.nodes == [x] + old(l.nodes)
  {
    hide Joined, Distinct;
    ghost var c, nodes := l.Chain(), l.nodes;
    assert c[0] == l.head && c[..1] == [l.head] && c[1..] == nodes + [l.tail];
    assert x !in c;
    DistinctWith(c, x, 1);
    SpliceAfter(x, l.head, c, 1, l);
    l.nodes := [x] + nodes;
    assert l.Chain() == c[..1] + [x] + c[1..];
    assert forall y :: y in l.Chain() ==> y.list == l;
  }

  method PlaceBack<T>(l: List<T>, x: Link<T>)
    requires l.Valid() && x.Loose()
    modifies l, x, l.tail, l.tail.prev
    ensures l.Valid() && l.nodes == old(l.nodes) + [x]
    ensures forall m: List<T> | old(allocated(m)) && m != l && old(m.Valid()) :: m.Valid() && m.nodes == old(m.nodes)
  {
    Ends(l);
    hide Joined, Distinct;
    AttachBack(l, x);
  }

  method PlaceFront<T>(l: List<T>, x: Link<T>)
    requires l.Valid() && x.Loose()
    modifies l, x, l.head, l.head.next
    ensures l.Valid() && l.nodes == [x] + old(l.nodes)
    ensures forall m: List<T> | old(allocated(m)) && m != l && old(m.Valid()) :: m.Valid() && m.nodes == old(m.nodes)
  {
    Ends(l);
    hide Joined, Distinct;
    AttachFront(l, x);
  }

  /** Push at the back: the link leaves whatever list it was in, this one included, and becomes
      the last of this one. No other list in the heap is affected. */
  method PushBack<T>(l: List<T>, x: Link<T>)
    requires l.Valid() && (x.Loose() || x.Placed())
    modifies l, l.Chain(), x, x.next, x.prev, x.list
    ensures l.Valid() && l.nodes == old(Rest(l, x)) + [x]
    ensures var home := old(x.list); home != null && home != l ==>
      home.Valid() && home.nodes == Without(old(home.nodes), x)
    ensures forall m: List<T> | old(allocated(m)) && m != old(x.list) && m != l && old(m.Valid()) ::
      m.Valid() && m.nodes == old(m.nodes)
  {
    hide Joined, Distinct, Without;
    ghost var c, nodes := l.Chain(), l.nodes;
    WithoutMembers(nodes, x);
    Remove(x);
    Ends(l);
    assert forall y :: y in l.Chain() ==> y in c;
    assert l.tail in l.Chain() && l.tail.prev in l.Chain();
    PlaceBack(l, x);
  }

  /** Push at the front. */
  method PushFront<T>(l: List<T>, x: Link<T>)
    requires l.Valid() && (x.Loose() || x.Placed())
    modifies l, l.Chain(), x, x.next, x.prev, x.list
    ensures l.Valid() && l.nodes == [x] + old(Rest(l, x))
    ensures var home := old(x.list); home != null && home != l ==>
      home.Valid() && home.nodes == Without(old(home.nodes), x)
    ensures forall m: List<T> | old(allocated(m)) && m != old(x.list) && m != l && old(m.Valid()) ::
      m.Valid() && m.nodes == old(m.nodes)
  {
    hide Joined, Distinct, Without;
    ghost var c, nodes := l.Chain(), l.nodes;
    WithoutMembers(nodes, x);
    Remove(x);
    Ends(l);
    assert forall y :: y in l.Chain() ==> y in c;
    assert l.head in l.Chain() && l.head.next in l.Chain();
    PlaceFront(l, x);
  }

  // ---- Access and removal at the ends ----

  method Empty<T>(l: List<T>) returns (r: bool)
    requires l.Valid()
    ensures r <==> l.nodes == []
  {
    Ends(l);
    r := l.head.next == l.tail;
  }

  method Front<T>(l: List<T>) returns (r: Maybe<T>)
    requires l.Valid()
    ensures r == if l.nodes == [] then None else l.nodes[0].owner
  {
    Ends(l);
    var empty := Empty(l);
    r := if empty then None else l.head.next.owner;
  }

  method Back<T>(l: List<T>) returns (r: Maybe<T>)
    requires l.Valid()
    ensures r == if l.nodes == [] then None else l.nodes[|l.nodes| - 1].owner
  {
    Ends(l);
    var empty := Empty(l);
    r := if empty then None else l.tail.prev.owner;
  }

  lemma MiddleDistinct<T>(l: List<T>)
    requires l.Valid()
    ensures Distinct(l.nodes)
  {
    MiddleOf(l.Chain(), l.nodes);
  }

  lemma PlacedHere<T>(l: List<T>, i: nat)
    requires l.Valid() && i < |l.nodes|
    ensures l.nodes[i].Placed() && l.nodes[i].list == l
    ensures l.nodes[i].next in l.Chain() && l.nodes[i].prev in l.Chain()
  {
    var c := l.Chain();
    assert c[i + 1] == l.nodes[i];
    Neighbours(c, i + 1);
    assert c[i] in c && c[i + 1] in c && c[i + 2] in c;
  }

  lemma PlacedIn<T>(l: List<T>, x: Link<T>)
    requires l.Valid() && x in l.nodes
    ensures x.Placed() && x.list == l && x in l.Chain() && x.next in l.Chain() && x.prev in l.Chain()
  {
    var i :| 0 <= i < |l.nodes| && l.nodes[i] == x;
    PlacedHere(l, i);
    assert l.Chain()[i + 1] == x;
  }

  method PopFront<T>(l: List<T>)
    requires l.Valid() && l.nodes != []
    modifies l, l.Chain()
    ensures l.Valid() && l.nodes == old(l.nodes)[1..] && old(l.nodes)[0].Loose()
    ensures forall m: List<T> | old(allocated(m)) && m != l && old(m.Valid()) :: m.Valid() && m.nodes == old(m.nodes)
    ensures forall y: Link<T> | old(allocated(y)) && old(y.Loose()) :: y.Loose()
  {
    Ends(l);
    PlacedHere(l, 0);
    MiddleDistinct(l);
    WithoutAt(l.nodes, 0);
    NeighboursOwned(l.nodes[0]);
    assert l.nodes[..0] + l.nodes[1..] == l.nodes[1..];
    hide Joined, Distinct, Without;
    Remove(l.head.next);
  }

  method PopBack<T>(l: List<T>)
    requires l.Valid() && l.nodes != []
    modifies l, l.Chain()
    ensures l.Valid() && l.nodes == old(l.nodes)[..|old(l.nodes)| - 1] && old(l.nodes)[|old(l.nodes)| - 1].Loose()
    ensures forall m: List<T> | old(allocated(m)) && m != l && old(m.Valid()) :: m.Valid() && m.nodes == old(m.nodes)
    ensures forall y: Link<T> | old(allocated(y)) && old(y.Loose()) :: y.Loose()
  {
    ghost var n := |l.nodes| - 1;
    Ends(l);
    PlacedHere(l, n);
    MiddleDistinct(l);
    WithoutAt(l.nodes, n);
    NeighboursOwned(l.nodes[n]);
    assert l.nodes[..n] + l.nodes[n + 1..] == l.nodes[..n];
    hide Joined, Distinct, Without;
    Remove(l.tail.prev);
  }

  /** Pop until empty: every former node is loose afterwards. */
  method Clear<T>(l: List<T>)
    requires l.Valid()
    modifies l, l.Chain()
    ensures l.Valid() && l.nodes == []
    ensures forall y :: y in old(l.nodes) ==> y.Loose()
    ensures forall m: List<T> | old(allocated(m)) && m != l && old(m.Valid()) :: m.Valid() && m.nodes == old(m.nodes)
    ensures forall y: Link<T> | old(allocated(y)) && old(y.Loose()) :: y.Loose()
  {
    hide Joined, Distinct;
    ghost var all, k := l.nodes, 0;
    var empty := Empty(l);
    while !empty
      invariant 0 <= k <= |all| && l.Valid() && l.nodes == all[k..]
      invariant empty <==> l.nodes == []
      invariant forall y :: y in all[..k] ==> y.Loose()
      invariant forall m: List<T> | old(allocated(m)) && m != l && old(m.Valid()) ::
        m.Valid() && m.nodes == old(m.nodes)
      invariant forall y: Link<T> | old(allocated(y)) && old(y.Loose()) :: y.Loose()
      decreases |all| - k
    {
      ghost var now, was := l.Chain(), old(l.Chain());
      assert forall i :: 0 <= i < |now| ==> now[i] == was[if i == 0 then 0 else i + k];
      PopFront(l);
      k := k + 1;
      empty := Empty(l);
    }
  }

  // ---- Taking over a link's place ----

  lemma JoinedInstead<T>(c: seq<Link<T>>, y: Link<T>, k: nat)
    requires 0 < k < |c| - 1
    requires c[0].prev == null && c[|c| - 1].next == null
    requires forall i :: 0 <= i < |c| - 1 && i != k - 1 && i != k ==> c[i].next == c[i + 1]
    requires forall i :: 1 <= i < |c| && i != k && i != k + 1 ==> c[i].prev == c[i - 1]
    requires c[k - 1].next == y && c[k + 1].prev == y && y.next == c[k + 1] && y.prev == c[k - 1]
    ensures Joined(c[k := y])
  {
  }

  /** The pointer surgery: a new link y, made with x's pointers, takes x's place in a chain. */
  method Substitute<T>(x: Link<T>, y: Link<T>, ghost c: seq<Link<T>>, ghost k: nat)
    requires y != x && y.Loose() && y !in c
    requires if c == [] then x.Loose() else 0 < k < |c| - 1 && c[k] == x && Distinct(c) && Joined(c)
    modifies x, y, x.next, x.prev
    ensures x.Loose() && y.list == old(x.list) && (c == [] ==> y.Loose())
    ensures c != [] ==> Joined(c[k := y])
    ensures forall z: Link<T> | old(allocated(z)) && z != x && z != y :: z.list == old(z.list)
  {
    assert c != [] ==> x.prev == c[k - 1] && x.next == c[k + 1];
    y.next := x.next;
    y.prev := x.prev;
    if y.prev != null {
      y.prev.next := y;
    }
    if y.next != null {
      y.next.prev := y;
    }
    y.list := x.list;
    x.next := null;
    x.prev := null;
    x.list := null;
    if c != [] {
      assert forall i :: 0 <= i < |c| && i != k - 1 && i != k ==> c[i].next == old(c[i].next);
      assert forall i :: 0 <= i < |c| && i != k + 1 && i != k ==> c[i].prev == old(c[i].prev);
      JoinedInstead(c, y, k);
    }
  }

  lemma DistinctInstead<T>(c: seq<T>, y: T, k: nat)
    requires k < |c| && Distinct(c) && y !in c
    ensures Distinct(c[k := y]) && c[k] !in c[k := y]
  {
  }

  method TakePlace<T>(x: Link<T>, owner: Maybe<T>) returns (y: Link<T>)
    requires x.Loose() || x.Placed()
    modifies x, x.next, x.prev, x.list
    ensures fresh(y) && y.owner == owner && x.Loose()
    ensures old(x.list) == null ==> y.Loose()
    ensures
      var home := old(x.list);
      home != null ==> home.Valid() && exists i ::
        0 <= i < |old(home.nodes)| && old(home.nodes)[i] == x && home.nodes == old(home.nodes)[i := y]
  {
    hide Joined, Distinct;
    ghost var home, i := x.list, 0;
    ghost var c: seq<Link<T>>, c': seq<Link<T>>, nodes: seq<Link<T>> := [], [], [];
    if home != null {
      c, nodes := home.Chain(), home.nodes;
      i :| 0 <= i < |nodes| && nodes[i] == x;
      assert c[i + 1] == x && Distinct(c) && Joined(c);
    }
    y := new Link(owner);
    if home != null {
      assert y !in c;
      DistinctInstead(c, y, i + 1);
    }
    Substitute(x, y, c, i + 1);
    if home != null {
      home.nodes := nodes[i := y];
      ghost var c' := home.Chain();
      assert c' == c[i + 1 := y];
      assert forall z :: z in c' ==> z.list == home by {
        assert forall z :: z in c' ==> z == y || (z in c && z != x);
      }
      assert Joined(c');
      assert nodes[i] == x;
    }
  }

  /** A new link for a moved owner: it takes exactly the old link's position, or none if the old
      link had none, and the old link is loose. No other list in the heap is affected. */
  method Replace<T>(x: Link<T>, owner: Maybe<T>) returns (y: Link<T>)
    requires x.Loose() || x.Placed()
    modifies x, x.next, x.prev, x.list
    ensures fresh(y) && y.owner == owner && x.Loose()
    ensures old(x.list) == null ==> y.Loose()
    ensures
      var home := old(x.list);
      home != null ==> home.Valid() && exists i ::
        0 <= i < |old(home.nodes)| && old(home.nodes)[i] == x && home.nodes == old(home.nodes)[i := y]
    ensures forall m: List<T> | old(allocated(m)) && m != old(x.list) && old(m.Valid()) ::
      m.Valid() && m.nodes == old(m.nodes)
  {
    NeighboursOwned(x);
    hide Joined, Distinct;
    y := TakePlace(x, owner);
  }

  // ---- Moving a whole list ----

  lemma JoinedEnds<T>(c: seq<Link<T>>, h: Link<T>, t: Link<T>)
    requires |c| >= 3
    requires forall i :: 1 <= i < |c| - 2 ==> c[i].next == c[i + 1]
    requires forall i :: 2 <= i < |c| - 1 ==> c[i].prev == c[i - 1]
    requires h.prev == null && t.next == null && h.next == c[1] && c[1].prev == h && t.prev == c[|c| - 2]
      && c[|c| - 2].next == t
    ensures Joined([h] + c[1..|c| - 1] + [t])
  {
    var c' := [h] + c[1..|c| - 1] + [t];
    assert c'[0] == h && c'[|c'| - 1] == t && forall i :: 1 <= i < |c| - 1 ==> c'[i] == c[i];
  }

  /** The pointer surgery of a move: all nodes of a chain, none of which is copied, come to stand
      between two other sentinels; the chain's own sentinels are joined to each other. */
  method Rehang<T>(ah: Link<T>, at: Link<T>, bh: Link<T>, bt: Link<T>, ghost c: seq<Link<T>>, ghost l: List<T>)
    requires |c| >= 3 && Distinct(c) && Joined(c) && c[0] == bh && c[|c| - 1] == bt
    requires ah !in c && at !in c && ah != at && ah.prev == null && at.next == null
    modifies ah, at, c
    ensures Joined([ah] + c[1..|c| - 1] + [at]) && Joined([bh, bt])
    ensures forall z: Link<T> | old(allocated(z)) :: z.list == if z in c[1..|c| - 1] then l else old(z.list)
  {
    ghost var n := |c|;
    assert bh.next == c[1] && bt.prev == c[n - 2] && bh.prev == null && bt.next == null;
    ah.next := bh.next;
    ah.next.prev := ah;
    at.prev := bt.prev;
    at.prev.next := at;
    bh.next := null;
    bt.prev := null;
    bt.next := bh.next;
    bh.next := bt;
    bt.prev := bh;
    forall y | y in c[1..n - 1] {
      y.list := l;
    }
    assert forall i :: 1 <= i < n - 2 ==> c[i].next == old(c[i].next);
    assert forall i :: 2 <= i < n - 1 ==> c[i].prev == old(c[i].prev);
    JoinedEnds(c, ah, at);
  }

  method TakeOver<T>(a: List<T>, b: List<T>)
    requires a.Valid() && b.Valid() && a != b && a.nodes == [] && b.nodes != []
    modifies a, b, a.head, a.tail, b.Chain()
    ensures a.Valid() && b.Valid() && a.nodes == old(b.nodes) && b.nodes == []
    ensures forall y: Link<T> | old(allocated(y)) && old(y.Loose()) :: y.Loose()
  {
    hide Joined, Distinct;
    ghost var c, nodes := b.Chain(), b.nodes;
    Sentinels(a);
    Sentinels(b);
    MiddleOf(c, nodes);
    assert Joined(c) && Distinct(c) && c[0] == b.head && c[|c| - 1] == b.tail;
    assert forall z :: z in c ==> z.list == b;
    Rehang(a.head, a.tail, b.head, b.tail, c, a);
    a.nodes, b.nodes := nodes, [];
    assert a.Chain() == [a.head] + c[1..|c| - 1] + [a.tail];
    assert b.Chain() == [b.head, b.tail];
    DistinctEnds(c, a.head, a.tail);
    DistinctPair(b.head, b.tail);
    assert forall z :: z in nodes ==> z.list == a;
  }

  lemma DistinctEnds<T>(c: seq<T>, h: T, t: T)
    requires |c| >= 2 && Distinct(c) && h !in c && t !in c && h != t
    ensures Distinct([h] + c[1..|c| - 1] + [t])
  {
    var c' := [h] + c[1..|c| - 1] + [t];
    assert forall i :: 1 <= i < |c| - 1 ==> c'[i] == c[i];
  }

  lemma DistinctPair<T>(h: T, t: T)
    requires h != t
    ensures Distinct([h, t])
  {
  }

  lemma Sentinels<T>(l: List<T>)
    requires l.Valid()
    ensures l.head != l.tail && l.head.prev == null && l.tail.next == null
    ensures l.head.list == l && l.tail.list == l && l.head in l.Chain() && l.tail in l.Chain()
    ensures l.head !in l.nodes && l.tail !in l.nodes
  {
    var c := l.Chain();
    assert c[0] == l.head && c[|c| - 1] == l.tail;
    assert forall i :: 0 <= i < |l.nodes| ==> c[i + 1] == l.nodes[i];
  }

  method Transfer<T>(a: List<T>, b: List<T>)
    requires a.Valid() && b.Valid() && a != b && a.nodes == [] && b.nodes != []
    modifies a, b, a.head, a.tail, b.Chain()
    ensures a.Valid() && b.Valid() && a.nodes == old(b.nodes) && b.nodes == []
    ensures forall y: Link<T> | old(allocated(y)) && old(y.Loose()) :: y.Loose()
    ensures forall m: List<T> | old(allocated(m)) && m != a && m != b && old(m.Valid()) ::
      m.Valid() && m.nodes == old(m.nodes)
  {
    Sentinels(a);
    hide Distinct;
    ghost var c := b.Chain();
    assert forall z :: z in c ==> z.list == b;
    TakeOver(a, b);
    forall m: List<T> | old(allocated(m)) && m != a && m != b && old(m.Valid())
      ensures m.Valid() && m.nodes == old(m.nodes) {
      ghost var d := old(m.Chain());
      assert forall z :: z in d ==> old(z.list) == m && z !in c && z != a.head && z != a.tail;
      assert m.Chain() == d;
      assert forall i :: 0 <= i < |d| ==> d[i] in d;
      assert forall i :: 0 <= i < |d| ==>
        d[i].next == old(d[i].next) && d[i].prev == old(d[i].prev) && d[i].list == old(d[i].list);
    }
  }

  /** Move assignment: this list drops its own nodes and takes over the other's, in order; the
      other is left empty. Assigning a list to itself does nothing. */
  method MoveFrom<T>(a: List<T>, b: List<T>)
    requires a.Valid() && b.Valid()
    modifies a, b, a.Chain(), b.Chain()
    ensures a.Valid() && b.Valid() && a.nodes == old(b.nodes)
    ensures a != b ==> b.nodes == [] && forall y :: y in old(a.nodes) ==> y.Loose()
    ensures forall m: List<T> | old(allocated(m)) && m != a && m != b && old(m.Valid()) ::
      m.Valid() && m.nodes == old(m.nodes)
  {
    hide Joined, Distinct;
    if a == b {
      return;
    }
    Sentinels(a);
    Clear(a);
    var empty := Empty(b);
    if empty {
      return;
    }
    Transfer(a, b);
  }
}
