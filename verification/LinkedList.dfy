/** The doubly linked list: pointer surgery in place, specified by the sequence of elements it holds. */
module LinkedList {
  import opened Wrappers

  class Node<T> {
    var data: T
    var prev: Node?<T>
    var next: Node?<T>

    constructor (data: T)
      ensures this.data == data && prev == null && next == null
    {
      this.data := data;
      prev, next := null, null;
    }
  }

  /** Distinct nodes, each linked to its neighbours inside the sequence. */
  ghost predicate Chain<T>(nodes: seq<Node<T>>)
    reads nodes
  {
    && (forall i, j :: 0 <= i < j < |nodes| ==> nodes[i] != nodes[j])
    && (forall i {:trigger nodes[i].next} :: 0 <= i < |nodes| - 1 ==> nodes[i].next == nodes[i + 1])
    && (forall i {:trigger nodes[i].prev} :: 0 < i < |nodes| ==> nodes[i].prev == nodes[i - 1])
  }

  /** The nodes carry these elements, in order. */
  ghost predicate Holds<T>(nodes: seq<Node<T>>, s: seq<T>)
    reads nodes
  {
    |nodes| == |s| && forall i {:trigger nodes[i].data} :: 0 <= i < |s| ==> nodes[i].data == s[i]
  }

  /** Inside a chain no node is the last one, nor the first. */
  lemma InnerNodes<T>(nodes: seq<Node<T>>)
    requires Chain(nodes)
    ensures forall i :: 0 <= i < |nodes| - 1 ==> nodes[i] in nodes && nodes[i] != nodes[|nodes| - 1]
    ensures forall i :: 0 < i < |nodes| ==> nodes[i] in nodes && nodes[i] != nodes[0]
  {
  }

  /** Links at the outer ends of a chain do not matter to it. */
  twostate lemma ChainStays<T>(nodes: seq<Node<T>>)
    requires old(Chain(nodes))
    requires forall i {:trigger nodes[i].next} :: 0 <= i < |nodes| - 1 ==> nodes[i].next == old(nodes[i].next)
    requires forall i {:trigger nodes[i].prev} :: 0 < i < |nodes| ==> nodes[i].prev == old(nodes[i].prev)
    ensures Chain(nodes)
  {
  }

  /** Two chains whose ends point at each other make one. */
  lemma JoinChains<T>(a: seq<Node<T>>, b: seq<Node<T>>)
    requires Chain(a) && Chain(b) && (forall n :: n in a ==> n !in b)
    requires |a| > 0 && |b| > 0 ==> a[|a| - 1].next == b[0] && b[0].prev == a[|a| - 1]
    ensures Chain(a + b)
  {
    var nodes := a + b;
    forall i, j | 0 <= i < j < |nodes| ensures nodes[i] != nodes[j] {
      if i < |a| <= j {
        assert nodes[i] in a && nodes[j] in b;
      }
    }
  }

  lemma PartsOfChain<T>(nodes: seq<Node<T>>, k: nat)
    requires Chain(nodes) && k <= |nodes|
    ensures Chain(nodes[..k]) && Chain(nodes[k..])
    ensures forall n :: n in nodes[..k] ==> n !in nodes[k..]
  {
    forall n | n in nodes[..k] ensures n !in nodes[k..] {
      var i :| 0 <= i < k && nodes[i] == n;
      assert forall j :: k <= j < |nodes| ==> nodes[j] != nodes[i];
    }
  }

  lemma MiddleIsApart<T>(nodes: seq<Node<T>>, k: nat, e: nat)
    requires Chain(nodes) && k < e <= |nodes|
    ensures forall n :: n in nodes[k..e] ==> n !in nodes[..k] && n !in nodes[e..]
    ensures forall n :: n in nodes[..k] ==> n !in nodes[e..]
  {
    PartsOfChain(nodes, k);
    PartsOfChain(nodes, e);
    assert nodes[..e][k..] == nodes[k..e] && nodes[..e][..k] == nodes[..k];
    PartsOfChain(nodes[..e], k);
  }

  lemma PartsHold<T>(nodes: seq<Node<T>>, s: seq<T>, k: nat)
    requires Holds(nodes, s) && k <= |nodes|
    ensures Holds(nodes[..k], s[..k]) && Holds(nodes[k..], s[k..])
  {
  }

  lemma HoldsConcat<T>(a: seq<Node<T>>, s: seq<T>, b: seq<Node<T>>, t: seq<T>)
    requires Holds(a, s) && Holds(b, t)
    ensures Holds(a + b, s + t)
  {
  }

  /** Replacing s[i..j] by t. */
  function Splice<T>(s: seq<T>, i: nat, j: nat, t: seq<T>): seq<T>
    requires i <= j <= |s|
  {
    s[..i] + t + s[j..]
  }

  lemma SpliceOut<T>(s: seq<T>, i: nat, j: nat)
    requires i <= j <= |s|
    ensures Splice(s, i, j, []) == s[..i] + s[j..]
  {
  }

  /** A negative index counts from one past the end. */
  function ResolveIndex(index: int, base: nat): int {
    if index >= 0 then index else index + base + 1
  }

  /** Why a slice of a list cannot be inserted: an assertion fails, or an element is written to an array of length zero. */
  datatype SliceFault = AssertionFailed | EmptySlice

  function CheckSlice(start: int, end: int, qty: nat): Option<SliceFault> {
    var s, e := ResolveIndex(start, qty), ResolveIndex(end, qty);
    if !(0 <= s <= e <= qty) || qty == 0 then Some(AssertionFailed)
    else if s == e then Some(EmptySlice)
    else None
  }

  /** Slices that are inserted: both bounds inside, each given directly or, if negative, counted from one past the end, and something between them. */
  lemma SliceIsInsertedIff(start: int, end: int, qty: nat)
    ensures CheckSlice(start, end, qty) == None
       <==> exists s: nat, e: nat :: s < e <= qty && StandsFor(start, s, qty) && StandsFor(end, e, qty)
    ensures forall i: nat :: StandsFor(start, i, qty) ==> ResolveIndex(start, qty) == i
  {
    if CheckSlice(start, end, qty) == None {
      var s, e := ResolveIndex(start, qty), ResolveIndex(end, qty);
      assert s < e <= qty && StandsFor(start, s, qty) && StandsFor(end, e, qty);
    }
  }

  /** An index that stands for position i. */
  predicate StandsFor(index: int, i: nat, qty: nat) { index == i || (index < 0 && index == i - qty - 1) }

  /** Exactly the slices that begin where they end, anywhere in a list that is not empty, pass the assertions and fault. */
  lemma EmptySliceIff(start: int, end: int, qty: nat)
    ensures CheckSlice(start, end, qty) == Some(EmptySlice)
       <==> qty > 0 && 0 <= ResolveIndex(start, qty) == ResolveIndex(end, qty) <= qty
  {
  }

  /** Such a slice, one that is inserted, and one that the assertions refuse. */
  lemma SliceExamples()
    ensures CheckSlice(1, 1, 2) == Some(EmptySlice) && CheckSlice(0, -1, 2) == None && CheckSlice(2, 1, 2) == Some(AssertionFailed)
  {
  }

  /** Hangs the nodes first..last between a node and its successor. */
  method HookAfter<T>(at: Node<T>, first: Node<T>, last: Node<T>)
    requires at != last && at.next != last
    modifies at`next, last`next, (if at.next == null then {} else {at.next})`prev
    ensures at.next == first && last.next == old(at.next)
    ensures old(at.next) != null ==> old(at.next).prev == last
  {
    last.next := at.next;
    at.next := first;
    if last.next != null {
      last.next.prev := last;
    }
  }

  /** Hangs the nodes first..last between a node and its predecessor. */
  method HookBefore<T>(at: Node<T>, first: Node<T>, last: Node<T>)
    requires at != first && at.prev != first
    modifies at`prev, first`prev, (if at.prev == null then {} else {at.prev})`next
    ensures at.prev == last && first.prev == old(at.prev)
    ensures old(at.prev) != null ==> old(at.prev).next == first
  {
    first.prev := at.prev;
    at.prev := last;
    if first.prev != null {
      first.prev.next := first;
    }
  }

  /** New nodes for blist[start..end], each behind the one before it, the first behind a given node. */
  method NewChain<T>(prev: Node?<T>, blist: seq<T>, start: nat, end: nat) returns (narr: seq<Node<T>>)
    requires start < end <= |blist|
    ensures |narr| == end - start && narr[0].prev == prev && Chain(narr) && Holds(narr, blist[start..end])
    ensures fresh(narr)
  {
    var first := new Node(blist[start]);
    first.prev := prev;
    narr := [first];
    for x := start + 1 to end
      invariant |narr| == x - start && narr[0].prev == prev && fresh(narr)
      invariant Chain(narr) && Holds(narr, blist[start..x])
    {
      ghost var before := narr;
      var node := new Node(blist[x]);
      var last := narr[|narr| - 1];
      assert forall n :: n in narr ==> n != node;
      node.prev := last;
      last.next := node;
      assert Chain(before);
      JoinChains(before, [node]);
      HoldsConcat(before, blist[start..x], [node], [blist[x]]);
      assert blist[start..x] + [blist[x]] == blist[start..x + 1];
      narr := narr + [node];
    }
  }

  class LinkedList<T> {
    var head: Node?<T>
    var tail: Node?<T>
    var qty: int
    /** The nodes from head to tail, and the elements they carry. */
    ghost var Spine: seq<Node<T>>
    ghost var Items: seq<T>

    /** prev and next are mutually inverse along the spine, and head and tail are its ends. */
    ghost predicate Linked()
      reads this, Spine
    {
      && Chain(Spine) && Holds(Spine, Items)
      && (if |Spine| == 0 then head == null && tail == null
          else head == Spine[0] && tail == Spine[|Spine| - 1] && head.prev == null && tail.next == null)
    }

    ghost predicate Valid()
      reads this, Spine
    {
      Linked() && qty == |Spine|
    }

    /** The node that stands at position k, or none in an empty list. */
    ghost predicate IsAt(at: Node?<T>, k: nat)
      reads this
    {
      if at == null then |Spine| == 0 && k == 0 else k < |Spine| && Spine[k] == at
    }

    /** The chains point at each other where they meet, and head and tail end them. */
    ghost predicate Meet(a: seq<Node<T>>, mid: seq<Node<T>>, b: seq<Node<T>>)
      reads this, a, mid, b
    {
      && |mid| > 0
      && (if |a| > 0 then a[|a| - 1].next == mid[0] && mid[0].prev == a[|a| - 1] && head == a[0] && a[0].prev == null
          else head == mid[0] && mid[0].prev == null)
      && (if |b| > 0 then mid[|mid| - 1].next == b[0] && b[0].prev == mid[|mid| - 1]
                          && tail == b[|b| - 1] && b[|b| - 1].next == null
          else tail == mid[|mid| - 1] && mid[|mid| - 1].next == null)
    }

    /** Three chains, pointing at each other where they meet and ended by head and tail, make a valid list. */
    lemma Spliced(a: seq<Node<T>>, mid: seq<Node<T>>, b: seq<Node<T>>, s: seq<T>, t: seq<T>, u: seq<T>)
      requires Spine == a + mid + b && Items == s + t + u && |mid| > 0 && qty == |Spine|
      requires Holds(a, s) && Holds(mid, t) && Holds(b, u)
      requires Chain(a) && Chain(mid) && Chain(b)
      requires forall n :: n in a ==> n !in mid && n !in b
      requires forall n :: n in mid ==> n !in b
      requires Meet(a, mid, b)
      ensures Valid()
    {
      JoinChains(a, mid);
      JoinChains(a + mid, b);
      HoldsConcat(a, s, mid, t);
      HoldsConcat(a + mid, s + t, b, u);
    }

    constructor ()
      ensures Valid() && Items == []
    {
      head, tail, qty, Spine, Items := null, null, 0, [], [];
    }

    method Prepend(data: T)
      requires Valid()
      modifies this, Spine
      ensures Valid() && Items == [data] + old(Items)
      ensures forall n :: n in Spine ==> n in old(Spine) || fresh(n)
    {
      var node := new Node(data);
      if head != null {
        head.prev := node;
      }
      if tail == null {
        tail := node;
      }
      node.next := head;
      head := node;
      qty := qty + 1;
      Spine, Items := [node] + Spine, [data] + Items;
    }

    method Append(data: T)
      requires Valid()
      modifies this, Spine
      ensures Valid() && Items == old(Items) + [data]
      ensures forall n :: n in Spine ==> n in old(Spine) || fresh(n)
    {
      var node := new Node(data);
      if tail != null {
        tail.next := node;
      }
      if head == null {
        head := node;
      }
      node.prev := tail;
      tail := node;
      qty := qty + 1;
      Spine, Items := Spine + [node], Items + [data];
    }

    /** Hooks a chain in after a node, or as the whole list, and moves the ends that have to move. */
    method LinkAfter(at: Node?<T>, first: Node<T>, last: Node<T>)
      requires at != null ==> at != last && at.next != last && head != null && tail != null
      requires at == null ==> head == null && tail == null
      modifies this`head, this`tail, last`next
      modifies (if at == null then {} else {at})`next
      modifies (if at == null || at.next == null then {} else {at.next})`prev
      ensures at == null ==> head == first && tail == last && last.next == null
      ensures at != null ==> head == old(head) && tail == (if at == old(tail) then last else old(tail))
      ensures at != null ==> at.next == first && last.next == old(at.next)
      ensures at != null && old(at.next) != null ==> old(at.next).prev == last
    {
      if at != null {
        HookAfter(at, first, last);
      } else {
        last.next := null;
      }
      if head == null {
        head := first;
      }
      if tail == null || at == tail {
        tail := last;
      }
    }

    method LinkBefore(at: Node?<T>, first: Node<T>, last: Node<T>)
      requires at != null ==> at != last && at.prev != last && at != first && at.prev != first && head != null && tail != null
      requires at == null ==> head == null && tail == null
      modifies this`head, this`tail, first`prev, last`next
      modifies (if at == null then {} else {at})`prev
      modifies (if at == null || at.prev == null then {} else {at.prev})`next
      ensures last.next == at
      ensures at == null ==> head == first && tail == last && first.prev == null
      ensures at != null ==> tail == old(tail) && head == (if at == old(head) then first else old(head))
      ensures at != null ==> at.prev == last && first.prev == old(at.prev)
      ensures at != null && old(at.prev) != null ==> old(at.prev).next == first
    {
      last.next := at;
      if at != null {
        HookBefore(at, first, last);
      } else {
        first.prev := null;
      }
      if head == null || at == head {
        head := first;
      }
      if tail == null {
        tail := last;
      }
    }

    /** The position that comes after a node, or the start of an empty list. */
    function AfterIndex(at: Node?<T>, k: nat): nat {
      if at == null then 0 else k + 1
    }

    lemma PartsDisjoint(a: seq<Node<T>>, b: seq<Node<T>>, narr: seq<Node<T>>)
      requires Spine == a + b && forall n :: n in narr ==> n !in Spine
      ensures forall n :: n in narr ==> n !in a && n !in b
    {
    }

    /** The three chains once narr hangs between a and b: their links stay, and they point at each other. */
    method JoinAfter(at: Node?<T>, first: Node<T>, last: Node<T>,
                     ghost narr: seq<Node<T>>, ghost a: seq<Node<T>>, ghost b: seq<Node<T>>, ghost items: seq<T>)
      requires |narr| > 0 && narr[0] == first && narr[|narr| - 1] == last
      requires Chain(a) && Chain(narr) && Chain(b)
      requires forall n :: n in narr ==> n !in a && n !in b
      requires forall n :: n in a ==> n !in b
      requires if at == null then |a| == 0 && |b| == 0 && head == null && tail == null
               else |a| > 0 && at == a[|a| - 1] && head == a[0] && at.next == (if |b| > 0 then b[0] else null)
                    && tail == (if |b| > 0 then b[|b| - 1] else at) && a[0].prev == null && tail.next == null
      requires first.prev == at
      modifies this, last`next
      modifies (if at == null then {} else {at})`next
      modifies (if at == null || at.next == null then {} else {at.next})`prev
      ensures Chain(a) && Chain(narr) && Chain(b) && Meet(a, narr, b)
      ensures Spine == a + narr + b && Items == items && qty == old(qty)
    {
      assert last in narr && (at != null ==> at in a) && (|b| > 0 ==> b[0] in b);
      InnerNodes(a);
      InnerNodes(narr);
      InnerNodes(b);
      Spine, Items := a + narr + b, items;
      LinkAfter(at, first, last);
      ChainStays(a);
      ChainStays(narr);
      ChainStays(b);
    }

    method JoinBefore(at: Node?<T>, first: Node<T>, last: Node<T>,
                      ghost narr: seq<Node<T>>, ghost a: seq<Node<T>>, ghost b: seq<Node<T>>, ghost items: seq<T>)
      requires |narr| > 0 && narr[0] == first && narr[|narr| - 1] == last
      requires Chain(a) && Chain(narr) && Chain(b)
      requires forall n :: n in narr ==> n !in a && n !in b
      requires forall n :: n in a ==> n !in b
      requires if at == null then |a| == 0 && |b| == 0 && head == null && tail == null
               else |b| > 0 && at == b[0] && tail == b[|b| - 1] && at.prev == (if |a| > 0 then a[|a| - 1] else null)
                    && head == (if |a| > 0 then a[0] else at) && head.prev == null && tail.next == null
      modifies this, first`prev, last`next
      modifies (if at == null then {} else {at})`prev
      modifies (if at == null || at.prev == null then {} else {at.prev})`next
      ensures Chain(a) && Chain(narr) && Chain(b) && Meet(a, narr, b)
      ensures Spine == a + narr + b && Items == items && qty == old(qty)
    {
      assert first in narr && last in narr && (at != null ==> at in b) && (|a| > 0 ==> a[|a| - 1] in a);
      InnerNodes(a);
      InnerNodes(narr);
      InnerNodes(b);
      Spine, Items := a + narr + b, items;
      LinkBefore(at, first, last);
      ChainStays(a);
      ChainStays(narr);
      ChainStays(b);
    }

    /** Links a chain of new nodes, counted already, after the node at position k. */
    method InsertChainAfter(at: Node?<T>, narr: seq<Node<T>>, ghost k: nat, ghost items: seq<T>)
      requires Linked() && IsAt(at, k) && qty == |Spine| + |narr|
      requires |narr| > 0 && Chain(narr) && Holds(narr, items) && narr[0].prev == at
      requires forall n :: n in narr ==> n !in Spine
      modifies this, Spine, narr
      ensures Valid() && Spine == Splice(old(Spine), AfterIndex(at, k), AfterIndex(at, k), narr)
      ensures Items == Splice(old(Items), AfterIndex(at, k), AfterIndex(at, k), items)
    {
      ghost var j := AfterIndex(at, k);
      ghost var a, b := Spine[..j], Spine[j..];
      ghost var s, u := Items[..j], Items[j..];
      PartsOfChain(Spine, j);
      PartsHold(Spine, Items, j);
      PartsDisjoint(a, b, narr);
      JoinAfter(at, narr[0], narr[|narr| - 1], narr, a, b, s + items + u);
      Spliced(a, narr, b, s, items, u);
    }

    /** Links a chain of new nodes, counted already, before the node at position k. */
    method InsertChainBefore(at: Node?<T>, narr: seq<Node<T>>, ghost k: nat, ghost items: seq<T>)
      requires Linked() && IsAt(at, k) && qty == |Spine| + |narr|
      requires |narr| > 0 && Chain(narr) && Holds(narr, items)
      requires forall n :: n in narr ==> n !in Spine
      modifies this, Spine, narr
      ensures Valid() && Spine == Splice(old(Spine), k, k, narr) && Items == Splice(old(Items), k, k, items)
    {
      ghost var a, b := Spine[..k], Spine[k..];
      ghost var s, u := Items[..k], Items[k..];
      PartsOfChain(Spine, k);
      PartsHold(Spine, Items, k);
      PartsDisjoint(a, b, narr);
      JoinBefore(at, narr[0], narr[|narr| - 1], narr, a, b, s + items + u);
      Spliced(a, narr, b, s, items, u);
    }

    /** The C function asserts that the new node got linked in, which needs a node of this list or an empty list. */
    method InsertAfter(at: Node?<T>, data: T, ghost k: nat)
      requires Valid() && IsAt(at, k)
      modifies this, Spine
      ensures Valid() && Items == Splice(old(Items), AfterIndex(at, k), AfterIndex(at, k), [data])
      ensures forall n :: n in Spine ==> n in old(Spine) || fresh(n)
    {
      var node := new Node(data);
      node.prev := at;
      qty := qty + 1;
      InsertChainAfter(at, [node], k, [data]);
    }

    method InsertBefore(at: Node?<T>, data: T, ghost k: nat)
      requires Valid() && IsAt(at, k)
      modifies this, Spine
      ensures Valid() && Items == Splice(old(Items), k, k, [data])
      ensures forall n :: n in Spine ==> n in old(Spine) || fresh(n)
    {
      var node := new Node(data);
      qty := qty + 1;
      InsertChainBefore(at, [node], k, [data]);
    }

    /** New nodes for blist[start..end], chained behind a given one and counted. */
    method CreateNodes(prev: Node?<T>, blist: seq<T>, start: nat, end: nat) returns (narr: seq<Node<T>>)
      requires start < end <= |blist| && Linked()
      modifies this`qty
      ensures |narr| == end - start && narr[0].prev == prev && Chain(narr) && Holds(narr, blist[start..end])
      ensures fresh(narr) && Linked() && qty == old(qty) + |narr|
    {
      narr := NewChain(prev, blist, start, end);
      qty := qty + |narr|;
    }

    /** Inserts blist[start..end] after a node, or tells why that cannot be done. */
    method InsertBlistAfter(at: Node?<T>, blist: seq<T>, start: int, end: int, ghost k: nat) returns (fault: Option<SliceFault>)
      requires Valid() && IsAt(at, k)
      modifies this, Spine
      ensures fault == CheckSlice(start, end, |blist|)
      ensures Valid() && forall n :: n in Spine ==> n in old(Spine) || fresh(n)
      ensures fault.Some? ==> Spine == old(Spine) && Items == old(Items)
      ensures fault.None? ==>
                Items == Splice(old(Items), AfterIndex(at, k), AfterIndex(at, k),
                                blist[ResolveIndex(start, |blist|)..ResolveIndex(end, |blist|)])
    {
      fault := CheckSlice(start, end, |blist|);
      if fault.Some? {
        return;
      }
      var s, e := ResolveIndex(start, |blist|), ResolveIndex(end, |blist|);
      if e - s == 1 {
        assert e == s + 1 && blist[s..s + 1] == [blist[s]];
        InsertAfter(at, blist[s], k);
        return;
      }
      var narr := CreateNodes(at, blist, s, e);
      InsertChainAfter(at, narr, k, blist[s..e]);
    }

    /** Inserts blist[start..end] before a node, or tells why that cannot be done. */
    method InsertBlistBefore(at: Node?<T>, blist: seq<T>, start: int, end: int, ghost k: nat) returns (fault: Option<SliceFault>)
      requires Valid() && IsAt(at, k)
      modifies this, Spine
      ensures fault == CheckSlice(start, end, |blist|)
      ensures Valid() && forall n :: n in Spine ==> n in old(Spine) || fresh(n)
      ensures fault.Some? ==> Spine == old(Spine) && Items == old(Items)
      ensures fault.None? ==> Items == Splice(old(Items), k, k, blist[ResolveIndex(start, |blist|)..ResolveIndex(end, |blist|)])
    {
      fault := CheckSlice(start, end, |blist|);
      if fault.Some? {
        return;
      }
      var s, e := ResolveIndex(start, |blist|), ResolveIndex(end, |blist|);
      if e - s == 1 {
        assert e == s + 1 && blist[s..s + 1] == [blist[s]];
        InsertBefore(at, blist[s], k);
        return;
      }
      var narr := CreateNodes(null, blist, s, e);
      InsertChainBefore(at, narr, k, blist[s..e]);
    }

    /** Two chains point at each other where they meet, and head and tail end them. */
    ghost predicate MeetPair(a: seq<Node<T>>, b: seq<Node<T>>)
      reads this, a, b
    {
      && (|a| > 0 && |b| > 0 ==> a[|a| - 1].next == b[0] && b[0].prev == a[|a| - 1])
      && (|a| > 0 ==> head == a[0] && a[0].prev == null)
      && (|b| > 0 ==> tail == b[|b| - 1] && b[|b| - 1].next == null)
      && (|a| == 0 ==> if |b| > 0 then head == b[0] && b[0].prev == null else head == null)
      && (|b| == 0 ==> if |a| > 0 then tail == a[|a| - 1] && a[|a| - 1].next == null else tail == null)
    }

    /** What is left of a list around a removed stretch, once the two parts point at each other. */
    lemma Removed(a: seq<Node<T>>, b: seq<Node<T>>, s: seq<T>, t: seq<T>)
      requires Spine == a + b && Items == s + t && qty == |Spine| && Holds(a, s) && Holds(b, t)
      requires Chain(a) && Chain(b) && MeetPair(a, b) && forall n :: n in a ==> n !in b
      ensures Valid()
    {
      JoinChains(a, b);
      HoldsConcat(a, s, b, t);
    }

    /** Everything known of the parts left and right of a stretch of a list. */
    lemma CutOut(k: nat, e: nat)
      requires Linked() && k < e <= |Spine|
      ensures Chain(Spine[..k]) && Chain(Spine[e..]) && Meet(Spine[..k], Spine[k..e], Spine[e..])
      ensures Holds(Spine[..k], Items[..k]) && Holds(Spine[e..], Items[e..])
      ensures forall n :: n in Spine[..k] ==> n !in Spine[e..]
      ensures forall n :: n in Spine[k..e] ==> n !in Spine[..k] && n !in Spine[e..]
      ensures Splice(Spine, k, e, []) == Spine[..k] + Spine[e..] && Splice(Items, k, e, []) == Items[..k] + Items[e..]
    {
      PartsOfChain(Spine, k);
      PartsOfChain(Spine, e);
      MiddleIsApart(Spine, k, e);
      PartsHold(Spine, Items, k);
      PartsHold(Spine, Items, e);
      SpliceOut(Spine, k, e);
      SpliceOut(Items, k, e);
    }

    method DeleteNode(node: Node<T>, ghost k: nat)
      requires Valid() && IsAt(node, k)
      modifies this, Spine
      ensures Valid() && Spine == Splice(old(Spine), k, k + 1, []) && Items == Splice(old(Items), k, k + 1, [])
    {
      CutOut(k, k + 1);
      ghost var a, b, s, t := Spine[..k], Spine[k + 1..], Items[..k], Items[k + 1..];
      assert Spine[k..k + 1] == [node];
      UnlinkBetween(node, a, b, s + t);
      Removed(a, b, s, t);
    }

    /** Takes one node out from between two chains. */
    method UnlinkBetween(node: Node<T>, ghost a: seq<Node<T>>, ghost b: seq<Node<T>>, ghost items: seq<T>)
      requires Chain(a) && Chain(b) && Meet(a, [node], b) && qty == |a| + 1 + |b|
      requires node !in a && node !in b && forall n :: n in a ==> n !in b
      modifies this
      modifies (if node.prev == null then {} else {node.prev})`next
      modifies (if node.next == null then {} else {node.next})`prev
      ensures Chain(a) && Chain(b) && MeetPair(a, b) && qty == old(qty) - 1 && Spine == a + b && Items == items
    {
      assert |a| > 0 ==> a[|a| - 1] in a && a[0] in a;
      assert |b| > 0 ==> b[0] in b && b[|b| - 1] in b;
      InnerNodes(a);
      InnerNodes(b);
      Spine, Items := a + b, items;
      Unlink(node);
      qty := qty - 1;
      ChainStays(a);
      ChainStays(b);
    }

    /** Points the neighbours of a node, or the ends of the list, past it. */
    method Unlink(node: Node<T>)
      requires qty == 1 <==> node == head && node == tail
      requires node != head ==> node.prev != null
      requires node != tail ==> node.next != null
      requires node == head <==> node.prev == null
      requires node == tail <==> node.next == null
      modifies this`head, this`tail
      modifies (if node.prev == null then {} else {node.prev})`next
      modifies (if node.next == null then {} else {node.next})`prev
      ensures head == (if node == old(head) then old(node.next) else old(head))
      ensures tail == (if node == old(tail) then old(node.prev) else old(tail))
      ensures old(node.prev) != null ==> old(node.prev).next == old(node.next)
      ensures old(node.next) != null ==> old(node.next).prev == old(node.prev)
    {
      if qty == 1 {
        head, tail := null, null;
      } else if node == head {
        head := node.next;
        if head != null {
          head.prev := null;
        }
      } else if node == tail {
        tail := node.prev;
        if tail != null {
          tail.next := null;
        }
      } else {
        node.prev.next := node.next;
        node.next.prev := node.prev;
      }
    }

    /** Removes range nodes from a node on, or as many as there are. */
    method DeleteRange(at: Node?<T>, range: nat, ghost k: nat)
      requires Valid() && IsAt(at, k) && (range > 0 ==> at != null)
      modifies this, Spine
      ensures Valid()
      ensures var e := if k + range <= |old(Spine)| then k + range else |old(Spine)|;
              Spine == Splice(old(Spine), k, e, []) && Items == Splice(old(Items), k, e, [])
    {
      if range == 0 {
        assert Splice(Spine, k, k, []) == Spine && Splice(Items, k, k, []) == Items;
        return;
      }
      if range == 1 {
        DeleteNode(at, k);
        return;
      }
      DeleteStretch(at, range, k);
    }

    method DeleteStretch(at: Node<T>, range: nat, ghost k: nat)
      requires Valid() && IsAt(at, k) && range > 0
      modifies this, Spine
      ensures Valid()
      ensures var e := if k + range <= |old(Spine)| then k + range else |old(Spine)|;
              Spine == Splice(old(Spine), k, e, []) && Items == Splice(old(Items), k, e, [])
    {
      var prev := at.prev;
      var replaceHead := at == head || head == null;
      var next := FreeNodes(at, range, k);
      ghost var e := if k + range <= |Spine| then k + range else |Spine|;
      CutOut(k, e);
      ghost var a, mid, b, s, t := Spine[..k], Spine[k..e], Spine[e..], Items[..k], Items[e..];
      CloseGap(replaceHead, prev, next, a, mid, b, s + t);
      Removed(a, b, s, t);
    }

    /** Walks over up to range nodes, uncounting each. */
    method FreeNodes(at: Node<T>, range: nat, ghost k: nat) returns (next: Node?<T>)
      requires Valid() && IsAt(at, k) && range > 0
      modifies this`qty
      ensures Linked()
      ensures var e := if k + range <= |Spine| then k + range else |Spine|;
              next == (if e < |Spine| then Spine[e] else null) && qty == |Spine| - (e - k)
    {
      var current := at;
      next := null;
      var i := 0;
      while i < range && current != null
        invariant 0 <= i <= range && k + i <= |Spine| && qty == |Spine| - i
        invariant current == if k + i < |Spine| then Spine[k + i] else null
        invariant i > 0 ==> next == current
        decreases range - i
      {
        next := current.next;
        current := next;
        qty := qty - 1;
        i := i + 1;
      }
      qty := if qty < 0 then 0 else qty;
    }

    /** Joins what lies before a removed stretch to what lies after it. */
    method CloseGap(replaceHead: bool, prev: Node?<T>, next: Node?<T>, ghost a: seq<Node<T>>, ghost mid: seq<Node<T>>, ghost b: seq<Node<T>>, ghost items: seq<T>)
      requires Chain(a) && Chain(b) && Meet(a, mid, b)
      requires forall n :: n in a ==> n !in b
      requires replaceHead == (|a| == 0)
      requires prev == (if |a| > 0 then a[|a| - 1] else null) && next == (if |b| > 0 then b[0] else null)
      modifies this
      modifies (if prev == null then {} else {prev})`next
      modifies (if next == null then {} else {next})`prev
      ensures Chain(a) && Chain(b) && MeetPair(a, b) && Spine == a + b && Items == items && qty == old(qty)
    {
      assert |a| > 0 ==> a[|a| - 1] in a && a[0] in a;
      assert |b| > 0 ==> b[0] in b && b[|b| - 1] in b;
      if replaceHead {
        head := next;
      }
      if prev != null {
        prev.next := next;
      }
      if next != null {
        next.prev := prev;
      } else {
        tail := prev;
      }
      Spine, Items := a + b, items;
    }

    /** The node ll_at promises for an index: either end by its own name, or the position counted from its sign's end. */
    ghost function NodeAt(index: int): Node?<T>
      reads this
    {
      var n := |Spine|;
      if n == 0 then null
      else if index == n then Spine[n - 1]
      else if 0 <= index < n then Spine[index]
      else if -n <= index < 0 then Spine[n + index]
      else null
    }

    /** Walks from whichever end is nearer. */
    method At(index: int) returns (node: Node?<T>)
      requires Valid()
      ensures node == NodeAt(index)
    {
      if qty == 0 {
        return null;
      }
      if index == 0 {
        return head;
      }
      if index == -1 || index == qty {
        return tail;
      }
      var i := if index < 0 then index + qty else index;
      if i < 0 || i > qty {
        return null;
      }
      if i < (qty - 1) / 2 {
        var x := 0;
        node := head;
        while x != i
          invariant 0 <= x <= i && node == Spine[x]
        {
          node := node.next;
          x := x + 1;
        }
      } else {
        var x := qty - 1;
        node := tail;
        while x != i
          invariant i <= x < qty && node == Spine[x]
        {
          node := node.prev;
          x := x - 1;
        }
      }
    }

    /** Overwrites one element in place. */
    method Replace(node: Node<T>, data: T, ghost k: nat)
      requires Valid() && IsAt(node, k)
      modifies this`Items, node`data
      ensures Valid() && Items == Splice(old(Items), k, k + 1, [data])
    {
      node.data := data;
      Items := Splice(Items, k, k + 1, [data]);
    }

    /** Recounts the nodes; repairs the length when it had drifted. */
    method VerifySize() returns (wasRight: bool)
      requires Linked()
      modifies this`qty
      ensures Valid() && wasRight == (old(qty) == |Spine|)
    {
      var cnt := 0;
      var node := head;
      while node != null
        invariant 0 <= cnt <= |Spine| && node == if cnt < |Spine| then Spine[cnt] else null
        decreases |Spine| - cnt
      {
        cnt := cnt + 1;
        node := node.next;
      }
      wasRight := cnt == qty;
      if !wasRight {
        qty := cnt;
      }
    }

    /** Takes the last element but leaves qty as it was: the list stays linked, and VerifySize repairs the length. */
    method Pop() returns (data: Option<T>)
      requires Linked()
      modifies this, Spine
      ensures Linked() && qty == old(qty)
      ensures if |old(Items)| == 0 then data == None && Items == old(Items)
              else data == Some(old(Items)[|old(Items)| - 1]) && Items == old(Items)[..|old(Items)| - 1]
    {
      data := None;
      if tail != null {
        ghost var n := |Spine| - 1;
        PartsOfChain(Spine, n);
        data := Some(tail.data);
        tail := tail.prev;
        if tail != null {
          tail.next := null;
        } else {
          head := null;
        }
        Spine, Items := Spine[..n], Items[..n];
      }
    }
  }

  /** The lines in order, each followed by the separator. */
  function Joined(lines: seq<string>, sep: string): string {
    if |lines| == 0 then "" else Joined(lines[..|lines| - 1], sep) + lines[|lines| - 1] + sep
  }

  /** Concatenates every element, each followed by the separator character when one is given. */
  method JoinBstrings(list: LinkedList<string>, sep: Option<char>) returns (joined: string)
    requires list.Valid()
    ensures joined == Joined(list.Items, if sep.Some? then [sep.value] else "")
  {
    joined := "";
    var node := list.head;
    ghost var i := 0;
    ghost var tail := if sep.Some? then [sep.value] else "";
    while node != null
      invariant 0 <= i <= |list.Spine| && node == if i < |list.Spine| then list.Spine[i] else null
      invariant joined == Joined(list.Items[..i], tail)
      decreases |list.Spine| - i
    {
      assert list.Items[..i + 1][..i] == list.Items[..i];
      joined := joined + node.data;
      if sep.Some? {
        joined := joined + [sep.value];
      }
      node := node.next;
      i := i + 1;
    }
    assert list.Items[..i] == list.Items;
  }
}
