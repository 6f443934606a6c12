/** The intrusive doubly linked list of src/lib/kernel/list.c, pointers and all.

    A list has two sentinels.  The ghost sequence `elems` names the interior elements in
    order; Valid() says the prev/next pointers spell out exactly that sequence.  Where the
    C functions take element pointers only, ghost indices say which elements they are. */
module LinkedList {
  import opened Basics
  import opened Ordering

  class Elem {
    var prev: Elem?
    var next: Elem?

    constructor ()
      ensures prev == null && next == null
    {
      prev, next := null, null;
    }
  }

  type Less = (Elem, Elem) -> bool

  /** All links of c are in place, except the next links out of the positions in X and the
      prev links into the positions right after those. */
  ghost predicate LinkedExcept(c: seq<Elem>, X: set<int>)
    reads c
  {
    && (forall i {:trigger c[i].next} | 0 <= i < |c| - 1 && i !in X :: c[i].next == c[i + 1])
    && (forall i {:trigger c[i].prev} | 1 <= i < |c| && i - 1 !in X :: c[i].prev == c[i - 1])
  }

  /** Each element's links point at its neighbours in c; the ends point nowhere. */
  ghost predicate Linked(c: seq<Elem>)
    reads c
  {
    c != [] && LinkedExcept(c, {}) && c[0].prev == null && c[|c| - 1].next == null
  }

  // ---- pointer surgery on a chain -------------------------------------------------------

  /** The assignments of list_insert. */
  method Link(before: Elem, elem: Elem, ghost c: seq<Elem>, ghost i: nat)
    requires NoDuplicates(c) && Linked(c) && i < |c| - 1 && before == c[i + 1] && elem !in c
    modifies elem, c
    ensures NoDuplicates(c[..i + 1] + [elem] + c[i + 1..]) && Linked(c[..i + 1] + [elem] + c[i + 1..])
  {
    elem.prev := before.prev;
    elem.next := before;
    before.prev.next := elem;
    before.prev := elem;
    InsertedLinks(c, elem, i);
  }

  lemma InsertedLinks(c: seq<Elem>, elem: Elem, i: nat)
    requires NoDuplicates(c) && i < |c| - 1 && elem !in c && LinkedExcept(c, {i})
    requires c[0].prev == null && c[|c| - 1].next == null
    requires c[i].next == elem && elem.prev == c[i] && elem.next == c[i + 1] && c[i + 1].prev == elem
    ensures NoDuplicates(c[..i + 1] + [elem] + c[i + 1..]) && Linked(c[..i + 1] + [elem] + c[i + 1..])
  {
    var n := c[..i + 1] + [elem] + c[i + 1..];
    assert forall k {:trigger n[k]} | 0 <= k < |n| ::
        n[k] == if k <= i then c[k] else if k == i + 1 then elem else c[k - 1];
  }

  /** The assignments of list_remove. */
  method Unlink(elem: Elem, ghost c: seq<Elem>, ghost i: nat) returns (next: Elem)
    requires NoDuplicates(c) && Linked(c) && 0 < i < |c| - 1 && elem == c[i]
    modifies c
    ensures NoDuplicates(c[..i] + c[i + 1..]) && Linked(c[..i] + c[i + 1..])
    ensures next == c[i + 1]
  {
    elem.prev.next := elem.next;
    elem.next.prev := elem.prev;
    RemovedLinks(c, i);
    next := elem.next;
  }

  lemma RemovedLinks(c: seq<Elem>, i: nat)
    requires NoDuplicates(c) && 0 < i < |c| - 1 && LinkedExcept(c, {i - 1, i})
    requires c[0].prev == null && c[|c| - 1].next == null
    requires c[i - 1].next == c[i + 1] && c[i + 1].prev == c[i - 1]
    ensures NoDuplicates(c[..i] + c[i + 1..]) && Linked(c[..i] + c[i + 1..])
  {
    var n := c[..i] + c[i + 1..];
    assert forall k {:trigger n[k]} | 0 <= k < |n| :: n[k] == if k < i then c[k] else c[k + 1];
  }

  /** First half of list_splice: take c[f+1] to c[l] out of the chain.  The rest is a chain again,
      and the run stays linked inside. */
  method Cut(first: Elem, lastIn: Elem, ghost c: seq<Elem>, ghost f: nat, ghost l: nat)
    requires NoDuplicates(c) && Linked(c) && f < l < |c| - 1
    requires first == c[f + 1] && lastIn == c[l]
    modifies c
    ensures NoDuplicates(c[..f + 1] + c[l + 1..]) && Linked(c[..f + 1] + c[l + 1..])
    ensures LinkedExcept(c[f + 1..l + 1], {})
  {
    first.prev.next := lastIn.next;
    lastIn.next.prev := first.prev;
    CutLinks(c, f, l);
  }

  lemma CutLinks(c: seq<Elem>, f: nat, l: nat)
    requires NoDuplicates(c) && f < l < |c| - 1 && LinkedExcept(c, {f, l})
    requires c[0].prev == null && c[|c| - 1].next == null
    requires c[f].next == c[l + 1] && c[l + 1].prev == c[f]
    ensures NoDuplicates(c[..f + 1] + c[l + 1..]) && Linked(c[..f + 1] + c[l + 1..])
    ensures LinkedExcept(c[f + 1..l + 1], {})
  {
    var n, run := c[..f + 1] + c[l + 1..], c[f + 1..l + 1];
    assert forall k {:trigger n[k]} | 0 <= k < |n| :: n[k] == if k <= f then c[k] else c[k + (l - f)];
    assert forall k {:trigger run[k]} | 0 <= k < |run| :: run[k] == c[f + 1 + k];
  }

  /** Second half of list_splice: put the run into a chain, between d[i] and d[i+1]. */
  method Paste(before: Elem, first: Elem, lastIn: Elem, ghost d: seq<Elem>, ghost run: seq<Elem>, ghost i: nat)
    requires NoDuplicates(d) && Linked(d) && i < |d| - 1 && before == d[i + 1]
    requires NoDuplicates(run) && LinkedExcept(run, {}) && run != [] && first == run[0] && lastIn == run[|run| - 1]
    requires forall x | x in run :: x !in d
    modifies d, run
    ensures NoDuplicates(d[..i + 1] + run + d[i + 1..]) && Linked(d[..i + 1] + run + d[i + 1..])
  {
    assert first in run && lastIn in run && before in d && d[i] in d;
    first.prev := before.prev;
    lastIn.next := before;
    before.prev.next := first;
    before.prev := lastIn;
    PastedLinks(d, run, i);
  }

  /** Where position b of a chain is once c[f+1..l+1] has been taken out. */
  ghost function Shifted(b: nat, f: nat, l: nat): (i: nat)
    requires f <= l && (b < f || l <= b)
  {
    if b < f then b else b - (l - f)
  }

  /** Both halves within one chain. */
  method Relocate(before: Elem, first: Elem, lastIn: Elem, ghost c: seq<Elem>, ghost b: nat, ghost f: nat, ghost l: nat)
    requires NoDuplicates(c) && Linked(c) && f < l < |c| - 1 && (b < f || l <= b < |c| - 1)
    requires before == c[b + 1] && first == c[f + 1] && lastIn == c[l]
    modifies c
    ensures var rest, i := c[..f + 1] + c[l + 1..], Shifted(b, f, l);
            var n := rest[..i + 1] + c[f + 1..l + 1] + rest[i + 1..];
            NoDuplicates(n) && Linked(n)
  {
    hide Linked, LinkedExcept, NoDuplicates;
    RunAndRest(c, f, l);
    Beside(c, b, f, l);
    Cut(first, lastIn, c, f, l);
    Paste(before, first, lastIn, c[..f + 1] + c[l + 1..], c[f + 1..l + 1], Shifted(b, f, l));
  }

  lemma Beside(c: seq<Elem>, b: nat, f: nat, l: nat)
    requires f < l < |c| - 1 && (b < f || l <= b < |c| - 1)
    ensures var rest, i := c[..f + 1] + c[l + 1..], Shifted(b, f, l); i < |rest| - 1 && rest[i + 1] == c[b + 1]
  {
  }

  /** The run and the rest of a chain share no node. */
  lemma RunAndRest(c: seq<Elem>, f: nat, l: nat)
    requires NoDuplicates(c) && f < l < |c| - 1
    ensures var rest, run := c[..f + 1] + c[l + 1..], c[f + 1..l + 1];
            && NoDuplicates(run) && run[0] == c[f + 1] && run[|run| - 1] == c[l]
            && (forall x | x in run :: x in c && x !in rest) && (forall x | x in rest :: x in c)
  {
    var rest, run := c[..f + 1] + c[l + 1..], c[f + 1..l + 1];
    assert forall k {:trigger run[k]} | 0 <= k < |run| :: run[k] == c[f + 1 + k];
    assert forall k {:trigger rest[k]} | 0 <= k < |rest| :: rest[k] == if k <= f then c[k] else c[k + (l - f)];
  }

  /** Both halves between two chains that share no node. */
  method Transfer(before: Elem, first: Elem, lastIn: Elem, ghost c: seq<Elem>, ghost f: nat, ghost l: nat,
                  ghost d: seq<Elem>, ghost i: nat)
    requires NoDuplicates(c) && Linked(c) && f < l < |c| - 1 && first == c[f + 1] && lastIn == c[l]
    requires NoDuplicates(d) && Linked(d) && i < |d| - 1 && before == d[i + 1]
    requires forall x | x in d :: x !in c
    modifies c, d
    ensures var rest := c[..f + 1] + c[l + 1..]; NoDuplicates(rest) && Linked(rest)
    ensures var n := d[..i + 1] + c[f + 1..l + 1] + d[i + 1..]; NoDuplicates(n) && Linked(n)
  {
    hide Linked, LinkedExcept, NoDuplicates;
    ghost var rest, run := c[..f + 1] + c[l + 1..], c[f + 1..l + 1];
    RunAndRest(c, f, l);
    label Uncut:
    Cut(first, lastIn, c, f, l);
    assert forall x | x in d :: x !in c && unchanged@Uncut(x);
    StaysLinked@Uncut(d);
    label Unpasted:
    assert forall x | x in rest :: x !in d && x !in run;
    Paste(before, first, lastIn, d, run, i);
    assert forall x | x in rest :: unchanged@Unpasted(x);
    StaysLinked@Unpasted(rest);
  }

  /** A chain none of whose nodes has changed. */
  twostate lemma StaysLinked(c: seq<Elem>)
    requires old(Linked(c)) && forall x | x in c :: unchanged(x)
    ensures Linked(c)
  {
    forall i {:trigger c[i]} | 0 <= i < |c| ensures c[i].next == old(c[i].next) && c[i].prev == old(c[i].prev) {
      assert c[i] in c;
    }
  }

  lemma PastedLinks(d: seq<Elem>, run: seq<Elem>, i: nat)
    requires NoDuplicates(d) && NoDuplicates(run) && run != [] && i < |d| - 1 && forall x | x in run :: x !in d
    requires LinkedExcept(d, {i}) && LinkedExcept(run, {}) && d[0].prev == null && d[|d| - 1].next == null
    requires d[i].next == run[0] && run[0].prev == d[i] && run[|run| - 1].next == d[i + 1]
             && d[i + 1].prev == run[|run| - 1]
    ensures NoDuplicates(d[..i + 1] + run + d[i + 1..]) && Linked(d[..i + 1] + run + d[i + 1..])
  {
    var n := d[..i + 1] + run + d[i + 1..];
    assert forall k {:trigger n[k]} | 0 <= k < |n| ::
        n[k] == if k <= i then d[k] else if k <= i + |run| then run[k - i - 1] else d[k - |run|];
    PastedOnce(d, run, i);
  }

  lemma PastedOnce(d: seq<Elem>, run: seq<Elem>, i: nat)
    requires NoDuplicates(d) && NoDuplicates(run) && i < |d| - 1 && forall x | x in run :: x !in d
    ensures NoDuplicates(d[..i + 1] + run + d[i + 1..])
  {
    var n := d[..i + 1] + run + d[i + 1..];
    forall p, q | 0 <= p < q < |n| ensures n[p] != n[q] {
      assert p <= i ==> n[p] == d[p];
      assert i < p <= i + |run| ==> n[p] in run;
      assert p > i + |run| ==> n[p] == d[p - |run|];
      assert q <= i ==> n[q] == d[q];
      assert i < q <= i + |run| ==> n[q] in run;
      assert q > i + |run| ==> n[q] == d[q - |run|];
    }
  }

  // ---- the same changes seen on the sequence of interior elements -----------------------

  /** s with s[f..l] moved to just before what stands at position b, outside of it. */
  ghost function Spliced<T>(s: seq<T>, b: nat, f: nat, l: nat): (r: seq<T>)
    requires f <= l <= |s| && (b < f || l <= b <= |s|)
    ensures |r| == |s|
  {
    if b < f then s[..b] + s[f..l] + s[b..f] + s[l..] else s[..f] + s[l..b] + s[f..l] + s[b..]
  }

  ghost function ChainOf(h: Elem, e: seq<Elem>, t: Elem): (c: seq<Elem>)
    ensures |c| == |e| + 2 && c[0] == h && c[|e| + 1] == t
    ensures forall i {:trigger c[i]} | 1 <= i <= |e| :: c[i] == e[i - 1]
  {
    [h] + e + [t]
  }

  lemma ChainOfInserted(h: Elem, e: seq<Elem>, t: Elem, x: Elem, i: nat)
    requires i <= |e|
    ensures var c := ChainOf(h, e, t); ChainOf(h, e[..i] + [x] + e[i..], t) == c[..i + 1] + [x] + c[i + 1..]
  {
  }

  lemma ChainOfRemoved(h: Elem, e: seq<Elem>, t: Elem, i: nat)
    requires i < |e|
    ensures var c, d := ChainOf(h, e, t), ChainOf(h, e[..i] + e[i + 1..], t);
            d == c[..i + 1] + c[i + 2..] && d[i + 1] == c[i + 2]
  {
  }

  lemma ChainOfCut(h: Elem, e: seq<Elem>, t: Elem, f: nat, l: nat)
    requires f <= l <= |e|
    ensures var c := ChainOf(h, e, t);
            ChainOf(h, e[..f] + e[l..], t) == c[..f + 1] + c[l + 1..] && c[f + 1..l + 1] == e[f..l]
  {
  }

  lemma ChainOfPasted(h: Elem, e: seq<Elem>, t: Elem, run: seq<Elem>, i: nat)
    requires i <= |e|
    ensures var c := ChainOf(h, e, t); ChainOf(h, e[..i] + run + e[i..], t) == c[..i + 1] + run + c[i + 1..]
  {
  }

  lemma SplicedIsPasted<T>(e: seq<T>, b: nat, f: nat, l: nat)
    requires f <= l <= |e| && (b < f || l <= b <= |e|)
    ensures var rest, i := e[..f] + e[l..], Shifted(b, f, l);
            i <= |rest| && Spliced(e, b, f, l) == rest[..i] + e[f..l] + rest[i..]
  {
    var rest, i := e[..f] + e[l..], Shifted(b, f, l);
    if b < f {
      assert rest[..i] == e[..b] && rest[i..] == e[b..f] + e[l..];
    } else {
      assert rest[..i] == e[..f] + e[l..b] && rest[i..] == e[b..];
    }
  }

  lemma SplicedNothing<T>(s: seq<T>, b: nat, f: nat)
    requires b <= |s| && f <= |s|
    ensures Spliced(s, b, f, f) == s
  {
    assert s[f..f] == [];
    if b < f {
      FourParts(s, b, f, f);
    } else {
      FourParts(s, f, f, b);
    }
  }

  lemma SplicedMembers<T>(s: seq<T>, b: nat, f: nat, l: nat)
    requires f <= l <= |s| && (b < f || l <= b <= |s|)
    ensures (set x | x in Spliced(s, b, f, l)) == set x | x in s
  {
    var r := Spliced(s, b, f, l);
    if b < f {
      FourParts(s, b, f, l);
      Swapped(s[..b], s[b..f], s[f..l], s[l..]);
    } else {
      FourParts(s, f, l, b);
      Swapped(s[..f], s[f..l], s[l..b], s[b..]);
    }
  }

  lemma FourParts<T>(s: seq<T>, a: nat, b: nat, c: nat)
    requires a <= b <= c <= |s|
    ensures s == s[..a] + s[a..b] + s[b..c] + s[c..]
  {
  }

  lemma Swapped<T>(p: seq<T>, q: seq<T>, r: seq<T>, t: seq<T>)
    ensures (set x | x in p + q + r + t) == set x | x in p + r + q + t
  {
    assert forall x :: x in p + q + r + t <==> x in p || x in q || x in r || x in t;
    assert forall x :: x in p + r + q + t <==> x in p || x in q || x in r || x in t;
  }

  lemma ChainNodes(h: Elem, e: seq<Elem>, t: Elem)
    ensures forall x :: x in ChainOf(h, e, t) <==> x in {h, t} + set y | y in e
  {
  }

  lemma TakenChain(h: Elem, e: seq<Elem>, t: Elem, p: nat, q: nat)
    requires p < q < |e|
    ensures var c, n := ChainOf(h, e, t), ChainOf(h, Spliced(e, p, q, q + 1), t);
            n[p + 2] == c[p + 1] && forall k {:trigger n[k]} | q + 2 <= k <= |e| + 1 :: n[k] == c[k]
  {
  }

  lemma RunNodes(h: Elem, e: seq<Elem>, t: Elem, f: nat, l: nat)
    requires NoDuplicates(ChainOf(h, e, t)) && f <= l <= |e|
    ensures forall x | x in e[f..l] :: x != h && x != t && x !in e[..f] + e[l..]
  {
    RunApart(h, e, t, f, l);
    ChainNodes(h, e[..f] + e[l..], t);
  }

  lemma TransferredNodes(e: seq<Elem>, o: seq<Elem>, b: nat, f: nat, l: nat)
    requires b <= |e| && f <= l <= |o|
    ensures forall x :: x in e[..b] + o[f..l] + e[b..] <==> x in e || x in o[f..l]
    ensures forall x | x in o[f..l] :: x in o
    ensures forall x | x in o[..f] + o[l..] :: x in o
  {
    assert e == e[..b] + e[b..];
  }

  /** The run is in none of the nodes that stay. */
  lemma RunApart(h: Elem, e: seq<Elem>, t: Elem, f: nat, l: nat)
    requires NoDuplicates(ChainOf(h, e, t)) && f <= l <= |e|
    ensures NoDuplicates(e[f..l]) && forall x | x in e[f..l] :: x !in ChainOf(h, e[..f] + e[l..], t)
  {
    var c, d, run := ChainOf(h, e, t), ChainOf(h, e[..f] + e[l..], t), e[f..l];
    assert forall k {:trigger run[k]} | 0 <= k < |run| :: run[k] == c[f + 1 + k];
    assert forall k {:trigger d[k]} | 0 <= k < |d| :: d[k] == if k <= f then c[k] else c[k + (l - f)];
  }

  // ---- the list ------------------------------------------------------------------------

  class List {
    const head: Elem
    const tail: Elem
    ghost var elems: seq<Elem>

    /** All nodes from head to tail. */
    ghost function Chain(): (c: seq<Elem>)
      reads this
      ensures |c| == |elems| + 2
    {
      ChainOf(head, elems, tail)
    }

    /** The footprint of the list. */
    ghost function Nodes(): set<Elem>
      reads this
    {
      {head, tail} + set x | x in elems
    }

    ghost predicate Valid()
      reads this, Nodes()
    {
      NoDuplicates(Chain()) && Linked(Chain())
    }

    /** list_init */
    constructor ()
      ensures Valid() && elems == [] && fresh(head) && fresh(tail)
    {
      var h := new Elem();
      var t := new Elem();
      h.next := t;
      t.prev := h;
      head, tail := h, t;
      elems := [];
    }

    lemma ElemAt(i: nat)
      requires i < |elems|
      ensures Chain()[i + 1] == elems[i]
    {
    }

    /** A node stands at one position only. */
    lemma SamePosition(i: nat, j: nat)
      requires Valid() && i <= |elems| + 1 && j <= |elems| + 1 && Chain()[i] == Chain()[j]
      ensures i == j
    {
    }

    /** list_next of the node at position i of the chain. */
    method Next(elem: Elem, ghost i: nat) returns (next: Elem)
      requires Valid() && i <= |elems| && elem == Chain()[i]
      ensures Valid() && next == Chain()[i + 1]
    {
      next := elem.next;
    }

    /** list_prev of the node at position i of the chain. */
    method Prev(elem: Elem, ghost i: nat) returns (prev: Elem)
      requires Valid() && 1 <= i <= |elems| + 1 && elem == Chain()[i]
      ensures prev == Chain()[i - 1]
    {
      prev := elem.prev;
    }

    /** list_insert, where BEFORE stands at position i of the list (|elems| is the tail). */
    method Insert(before: Elem, elem: Elem, ghost i: nat)
      requires Valid() && i <= |elems| && before == Chain()[i + 1]
      requires elem !in Nodes()
      modifies this, elem, Nodes()
      ensures Valid() && elems == old(elems[..i] + [elem] + elems[i..])
    {
      hide NoDuplicates, Linked, LinkedExcept, ChainOf;
      ChainNodes(head, elems, tail);
      Link(before, elem, Chain(), i);
      ChainOfInserted(head, elems, tail, elem, i);
      elems := elems[..i] + [elem] + elems[i..];
    }

    /** list_push_front */
    method PushFront(elem: Elem)
      requires Valid() && elem !in Nodes()
      modifies this, elem, Nodes()
      ensures Valid() && elems == [elem] + old(elems)
    {
      Insert(head.next, elem, 0);
    }

    /** list_push_back */
    method PushBack(elem: Elem)
      requires Valid() && elem !in Nodes()
      modifies this, elem, Nodes()
      ensures Valid() && elems == old(elems) + [elem]
    {
      Insert(tail, elem, |elems|);
    }

    /** list_remove of the element at position i; returns the element that followed it. */
    method Remove(elem: Elem, ghost i: nat) returns (next: Elem)
      requires Valid() && i < |elems| && elem == elems[i]
      modifies this, Nodes()
      ensures Valid() && elems == old(elems[..i] + elems[i + 1..])
      ensures next == Chain()[i + 1]
    {
      hide NoDuplicates, Linked, LinkedExcept, ChainOf;
      ChainNodes(head, elems, tail);
      next := Unlink(elem, Chain(), i + 1);
      ChainOfRemoved(head, elems, tail, i);
      elems := elems[..i] + elems[i + 1..];
    }

    /** list_pop_front */
    method PopFront() returns (front: Elem)
      requires Valid() && elems != []
      modifies this, Nodes()
      ensures Valid() && front == old(elems[0]) && elems == old(elems[1..])
    {
      front := head.next;
      var _ := Remove(front, 0);
    }

    /** list_splice of the elements at positions f up to l, to just before position b of the same
        list.  BEFORE must stand outside the moved range. */
    method Splice(before: Elem, first: Elem, last: Elem, ghost b: nat, ghost f: nat, ghost l: nat)
      requires Valid() && f <= l <= |elems| && (b < f || l <= b <= |elems|)
      requires before == Chain()[b + 1] && first == Chain()[f + 1] && last == Chain()[l + 1]
      modifies this, Nodes()
      ensures Valid() && Nodes() == old(Nodes())
      ensures elems == Spliced(old(elems), b, f, l)
    {
      hide NoDuplicates, Linked, LinkedExcept, ChainOf, Spliced, Shifted;
      if first == last {
        SamePosition(f + 1, l + 1);
        SplicedNothing(elems, b, f);
        return;
      }
      if f == l { assert false; }
      ghost var e := elems;
      ChainNodes(head, e, tail);
      var lastIn := Prev(last, l + 1);
      Relocate(before, first, lastIn, Chain(), b, f, l);
      ChainOfCut(head, e, tail, f, l);
      SplicedIsPasted(e, b, f, l);
      ChainOfPasted(head, e[..f] + e[l..], tail, e[f..l], Shifted(b, f, l));
      SplicedMembers(e, b, f, l);
      elems := Spliced(e, b, f, l);
    }

    /** list_splice of the elements at positions f up to l of another list, to just before
        position b of this one. */
    method SpliceFrom(other: List, before: Elem, first: Elem, last: Elem, ghost b: nat, ghost f: nat, ghost l: nat)
      requires Valid() && other.Valid() && Nodes() !! other.Nodes() && b <= |elems| && f <= l <= |other.elems|
      requires before == Chain()[b + 1] && first == other.Chain()[f + 1] && last == other.Chain()[l + 1]
      modifies this, other, Nodes(), other.Nodes()
      ensures Valid() && other.Valid() && Nodes() !! other.Nodes()
      ensures elems == old(elems[..b] + other.elems[f..l] + elems[b..])
      ensures other.elems == old(other.elems[..f] + other.elems[l..])
    {
      hide NoDuplicates, Linked, LinkedExcept, ChainOf;
      ghost var e, o := elems, other.elems;
      if first == last {
        other.SamePosition(f + 1, l + 1);
        assert e == e[..b] + o[f..l] + e[b..] && o == o[..f] + o[l..];
        return;
      }
      if f == l { assert false; }
      ChainNodes(other.head, o, other.tail);
      ChainNodes(head, e, tail);
      var lastIn := other.Prev(last, l + 1);
      Transfer(before, first, lastIn, other.Chain(), f, l, Chain(), b);
      ChainOfCut(other.head, o, other.tail, f, l);
      ChainOfPasted(head, e, tail, o[f..l], b);
      RunNodes(other.head, o, other.tail, f, l);
      other.elems := o[..f] + o[l..];
      elems := e[..b] + o[f..l] + e[b..];
      TransferredNodes(e, o, b, f, l);
      assert Nodes() == {head, tail} + (set x | x in e) + set x | x in o[f..l];
      assert other.Nodes() == {other.head, other.tail} + set x | x in o[..f] + o[l..];
    }

    /** find_end_of_run over the elements at positions i up to k. */
    method FindEndOfRun(a: Elem, b: Elem, less: Less, ghost i: nat, ghost k: nat)
        returns (r: Elem, ghost j: nat)
      requires Valid() && i < k <= |elems| && a == Chain()[i + 1] && b == Chain()[k + 1]
      ensures j == i + RunLength(less, elems[i..k]) && j <= k && r == Chain()[j + 1]
      ensures i + RunLength(less, elems[i..k]) < |Chain()| - 1 && r == Chain()[i + RunLength(less, elems[i..k]) + 1]
    {
      r, j := a.next, i + 1;
      while r != b && !less(r, r.prev)
        invariant i < j <= k && r == Chain()[j + 1]
        invariant i + RunLength(less, elems[i..k]) == j - 1 + RunLength(less, elems[j - 1..k])
        decreases k - j
      {
        RunStep(less, elems, j, k);
        r, j := r.next, j + 1;
      }
      assert r == b ==> j == k;
      assert r != b ==> r == elems[j] && r.prev == elems[j - 1];
    }

    /** The step of inplace_merge that takes the head of the right run: advance past it, then
        move it to just before A0. */
    method TakeRight(a0: Elem, a1b0: Elem, ghost p: nat, ghost q: nat) returns (next: Elem)
      requires Valid() && p < q < |elems| && a0 == Chain()[p + 1] && a1b0 == Chain()[q + 1]
      modifies this, Nodes()
      ensures Valid() && Nodes() == old(Nodes())
      ensures elems == Spliced(old(elems), p, q, q + 1)
      ensures next == Chain()[q + 2] && a0 == Chain()[p + 2]
      ensures forall k {:trigger Chain()[k]} | q + 2 <= k <= |elems| + 1 :: Chain()[k] == old(Chain())[k]
    {
      hide Spliced, NoDuplicates, Linked, ChainOf;
      TakenChain(head, elems, tail, p, q);
      next := Next(a1b0, q + 1);
      var moved := Prev(next, q + 2);
      Splice(a0, moved, next, p, q, q + 1);
    }

    /** inplace_merge of the runs at positions i..j and j..k. */
    method InplaceMerge(first: Elem, middle: Elem, end: Elem, less: Less, ghost i: nat, ghost j: nat, ghost k: nat)
      requires Valid() && i <= j <= k <= |elems|
      requires first == Chain()[i + 1] && middle == Chain()[j + 1] && end == Chain()[k + 1]
      modifies this, Nodes()
      ensures Valid() && Nodes() == old(Nodes())
      ensures elems == old(elems[..i] + Merge(less, elems[i..j], elems[j..k]) + elems[k..])
    {
      hide *;
      var a0, a1b0 := first, middle;
      ghost var p, q, s := i, j, elems;
      MergeStarts(less, s, i, j, k);
      while a0 != a1b0 && a1b0 != end
        invariant Valid() && Nodes() == old(Nodes()) && |elems| == |s| && i <= p <= q <= k
        invariant a0 == Chain()[p + 1] && a1b0 == Chain()[q + 1] && end == Chain()[k + 1]
        invariant Merging(less, s, elems, i, j, k, p, q)
        decreases k - p
      {
        ElemAt(p);
        ElemAt(q);
        if !less(a1b0, a0) {
          MergeTakesLeft(less, s, elems, i, j, k, p, q);
          a0 := Next(a0, p + 1);
          p := p + 1;
        } else {
          MergeTakesRight(less, s, elems, i, j, k, p, q);
          a1b0 := TakeRight(a0, a1b0, p, q);
          p, q := p + 1, q + 1;
        }
      }
      if a0 == a1b0 {
        SamePosition(p + 1, q + 1);
      } else {
        SamePosition(q + 1, k + 1);
      }
      MergeEnds(less, s, elems, i, j, k, p, q);
    }

    /** One pass of list_sort: merges adjacent pairs of runs and counts the output runs. */
    method SortPass(less: Less) returns (outputRunCnt: nat)
      requires Valid()
      modifies this, Nodes()
      ensures Valid() && Nodes() == old(Nodes())
      ensures elems == Pass(less, old(elems)) && outputRunCnt == PassCount(less, old(elems))
    {
      hide Passing, Pass, PassCount, Merge, RunLength, NoDuplicates, Linked;
      outputRunCnt := 0;
      ghost var s, p := elems, 0;
      PassStarts(less, s);
      var a0 := Next(head, 0);
      while a0 != tail
        invariant Valid() && Nodes() == old(Nodes()) && |elems| == |s| && p <= |s|
        invariant a0 == Chain()[p + 1]
        invariant Passing(less, s, elems, p, outputRunCnt)
        decreases |s| - p
      {
        outputRunCnt := outputRunCnt + 1;
        var a1b0, j := FindEndOfRun(a0, tail, less, p, |elems|);
        if a1b0 == tail {
          SamePosition(j + 1, |elems| + 1);
          PassTakesLast(less, s, elems, p, outputRunCnt - 1);
          p := |s|;
          break;
        }
        var b1, k := FindEndOfRun(a1b0, tail, less, j, |elems|);
        PassTakesPair(less, s, elems, p, j, k, outputRunCnt - 1);
        InplaceMerge(a0, a1b0, b1, less, p, j, k);
        a0, p := b1, k;
      }
      if a0 == tail {
        SamePosition(p + 1, |elems| + 1);
      }
      PassEnds(less, s, elems, outputRunCnt);
    }

    /** list_sort: for any strict weak order, the same nodes, in order, ties left in place. */
    method Sort(less: Less, ghost S: set<Elem>)
      requires Valid() && Within(elems, S) && StrictWeakOrder(less, S)
      modifies this, Nodes()
      ensures Valid() && Nodes() == old(Nodes())
      ensures Sorted(less, elems) && StableRearrangement(less, S, old(elems), elems)
    {
      hide *;
      ghost var s := elems;
      var outputRunCnt := SortPass(less);
      PassRearranges(less, S, s);
      PassHalvesRuns(less, S, s);
      while outputRunCnt > 1
        invariant Valid() && Nodes() == old(Nodes()) && Within(elems, S)
        invariant StableRearrangement(less, S, s, elems)
        invariant Runs(less, elems) <= outputRunCnt
        decreases outputRunCnt
      {
        ghost var e, before := elems, outputRunCnt;
        outputRunCnt := SortPass(less);
        PassRearranges(less, S, e);
        PassHalvesRuns(less, S, e);
        HalfIsLess(Runs(less, e), before);
        RearrangeTwice(less, S, s, e, elems);
      }
      AtMostOneRun(less, S, elems);
    }
  }

  // ---- the sequences behind the loops ---------------------------------------------------

  lemma RunStep(less: Less, s: seq<Elem>, j: nat, k: nat)
    requires 1 <= j < k <= |s| && !less(s[j], s[j - 1])
    ensures RunLength(less, s[j - 1..k]) == 1 + RunLength(less, s[j..k])
  {
    assert s[j - 1..k][1..] == s[j..k];
  }

  /** Halfway through a merge of s[i..j] with s[j..k]: e[i..p] is final, e[p..q] and e[q..k]
      are what is left of the two runs. */
  ghost predicate Merging(less: Less, s: seq<Elem>, e: seq<Elem>, i: nat, j: nat, k: nat, p: nat, q: nat)
    requires |e| == |s| && i <= j <= k <= |s| && i <= p <= q <= k
  {
    && e[..i] == s[..i] && e[k..] == s[k..]
    && Merge(less, s[i..j], s[j..k]) == e[i..p] + Merge(less, e[p..q], e[q..k])
  }

  lemma MergeStarts(less: Less, s: seq<Elem>, i: nat, j: nat, k: nat)
    requires i <= j <= k <= |s|
    ensures Merging(less, s, s, i, j, k, i, j)
  {
    assert s[i..i] == [];
  }

  /** Taking the first element of one run: the finished part grows by it. */
  lemma Take(m: seq<Elem>, done: seq<Elem>, done': seq<Elem>, x: Elem, before: seq<Elem>, after: seq<Elem>)
    requires m == done + before && before == [x] + after && done' == done + [x]
    ensures m == done' + after
  {
  }

  lemma MergeTakesLeft(less: Less, s: seq<Elem>, e: seq<Elem>, i: nat, j: nat, k: nat, p: nat, q: nat)
    requires |e| == |s| && i <= j <= k <= |s| && i <= p < q < k
    requires Merging(less, s, e, i, j, k, p, q) && !less(e[q], e[p])
    ensures Merging(less, s, e, i, j, k, p + 1, q)
  {
    hide Merge;
    UnfoldMerge(less, e[p..q], e[q..k]);
    assert e[p..q][1..] == e[p + 1..q];
    Take(Merge(less, s[i..j], s[j..k]), e[i..p], e[i..p + 1], e[p],
         Merge(less, e[p..q], e[q..k]), Merge(less, e[p + 1..q], e[q..k]));
  }

  lemma UnfoldMerge(less: Less, a: seq<Elem>, b: seq<Elem>)
    requires a != [] && b != []
    ensures Merge(less, a, b) == if less(b[0], a[0]) then [b[0]] + Merge(less, a, b[1..])
            else [a[0]] + Merge(less, a[1..], b)
  {
  }

  /** What moving the single element at q to p does to the pieces. */
  lemma SplicedOne(e: seq<Elem>, p: nat, q: nat, i: nat, k: nat)
    requires i <= p < q < k <= |e|
    ensures var n := Spliced(e, p, q, q + 1);
            && n[..i] == e[..i] && n[k..] == e[k..]
            && n[i..p + 1] == e[i..p] + [e[q]] && n[p + 1..q + 1] == e[p..q] && n[q + 1..k] == e[q..k][1..]
  {
    var n := Spliced(e, p, q, q + 1);
    SplicedAt(e, p, q);
    hide Spliced;
    assert n[..i] == e[..i] && n[k..] == e[k..];
    assert n[i..p + 1] == e[i..p] + [e[q]];
    assert n[p + 1..q + 1] == e[p..q];
    assert n[q + 1..k] == e[q..k][1..];
  }

  lemma SplicedAt(e: seq<Elem>, p: nat, q: nat)
    requires p < q < |e|
    ensures var n := Spliced(e, p, q, q + 1);
            forall x {:trigger n[x]} | 0 <= x < |n| ::
              n[x] == if x < p || q < x then e[x] else if x == p then e[q] else e[x - 1]
  {
  }

  lemma MergeTakesRight(less: Less, s: seq<Elem>, e: seq<Elem>, i: nat, j: nat, k: nat, p: nat, q: nat)
    requires |e| == |s| && i <= j <= k <= |s| && i <= p < q < k
    requires Merging(less, s, e, i, j, k, p, q) && less(e[q], e[p])
    ensures Merging(less, s, Spliced(e, p, q, q + 1), i, j, k, p + 1, q + 1)
  {
    hide Merge, Spliced;
    SplicedOne(e, p, q, i, k);
    UnfoldMerge(less, e[p..q], e[q..k]);
    Take(Merge(less, s[i..j], s[j..k]), e[i..p], e[i..p] + [e[q]], e[q],
         Merge(less, e[p..q], e[q..k]), Merge(less, e[p..q], e[q..k][1..]));
  }

  lemma MergeEnds(less: Less, s: seq<Elem>, e: seq<Elem>, i: nat, j: nat, k: nat, p: nat, q: nat)
    requires |e| == |s| && i <= j <= k <= |s| && i <= p <= q <= k
    requires Merging(less, s, e, i, j, k, p, q) && (p == q || q == k)
    ensures e == s[..i] + Merge(less, s[i..j], s[j..k]) + s[k..]
  {
    assert Merge(less, e[p..q], e[q..k]) == e[p..k];
    hide Merge;
    assert e[i..p] + e[p..k] == e[i..k];
    assert e == e[..i] + e[i..k] + e[k..];
  }

  /** Partway through a pass over s: e[..p] is output, e[p..] is still as it was. */
  ghost predicate Passing(less: Less, s: seq<Elem>, e: seq<Elem>, p: nat, cnt: nat)
    requires |e| == |s| && p <= |s|
  {
    && e[p..] == s[p..]
    && Pass(less, s) == e[..p] + Pass(less, s[p..])
    && PassCount(less, s) == cnt + PassCount(less, s[p..])
  }

  lemma PassStarts(less: Less, s: seq<Elem>)
    ensures Passing(less, s, s, 0, 0)
  {
    assert s[0..] == s;
  }

  lemma PassTakesLast(less: Less, s: seq<Elem>, e: seq<Elem>, p: nat, cnt: nat)
    requires |e| == |s| && p < |s| && Passing(less, s, e, p, cnt)
    requires p + RunLength(less, e[p..|e|]) == |e|
    ensures Passing(less, s, e, |s|, cnt + 1)
  {
    var r := s[p..];
    assert e[p..|e|] == r;
    assert Pass(less, r) == r && PassCount(less, r) == 1;
    assert s[|s|..] == [];
    assert Pass(less, s[|s|..]) == [] && PassCount(less, s[|s|..]) == 0;
    hide Pass, PassCount, RunLength;
    assert e[..p] + r == e[..|s|];
  }

  lemma PassTakesPair(less: Less, s: seq<Elem>, e: seq<Elem>, p: nat, j: nat, k: nat, cnt: nat)
    requires |e| == |s| && p < j < k <= |s| && Passing(less, s, e, p, cnt)
    requires j == p + RunLength(less, e[p..|e|]) && k == j + RunLength(less, e[j..|e|])
    ensures var e' := e[..p] + Merge(less, e[p..j], e[j..k]) + e[k..]; |e'| == |s| && Passing(less, s, e', k, cnt + 1)
  {
    hide Merge, RunLength, Pass, PassCount, Runs;
    var r := s[p..];
    var m, n := j - p, k - j;
    assert r == e[p..|e|] && r[m..] == e[j..|e|];
    PassUnfold(less, r, m, n);
    assert r[..m] == e[p..j] && r[m..m + n] == e[j..k] && r[m + n..] == s[k..];
    PassPairOutput(s, e, p, k, Merge(less, e[p..j], e[j..k]), Pass(less, r), Pass(less, s[k..]), Pass(less, s));
  }

  lemma PassPairOutput(s: seq<Elem>, e: seq<Elem>, p: nat, k: nat, m: seq<Elem>, r: seq<Elem>, rest: seq<Elem>,
      out: seq<Elem>)
    requires |e| == |s| && p < k <= |s| && |m| == k - p && e[p..] == s[p..]
    requires out == e[..p] + r && r == m + rest
    ensures var e' := e[..p] + m + e[k..]; |e'| == |s| && e'[k..] == s[k..] && out == e'[..k] + rest
  {
    var e' := e[..p] + m + e[k..];
    assert e'[..k] == e[..p] + m;
    assert e[k..] == e[p..][k - p..] && s[k..] == s[p..][k - p..];
    Assoc(e[..p], m, rest);
  }

  lemma PassEnds(less: Less, s: seq<Elem>, e: seq<Elem>, cnt: nat)
    requires |e| == |s| && Passing(less, s, e, |s|, cnt)
    ensures e == Pass(less, s) && cnt == PassCount(less, s)
  {
    assert s[|s|..] == [] && e[..|s|] == e;
  }

  lemma HalfIsLess(r: nat, c: nat)
    requires r <= c && c >= 2
    ensures (r + 1) / 2 < c
  {
  }
}
