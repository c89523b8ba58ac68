/** The doubly linked list with its own cursor, as a sequence of nodes and a position in it. */
module LinkedList {
  import opened Core

  /** What a list is to its users.  At the position behind the last element the cursor is null. */
  datatype Cursor<T> = Cursor(items: seq<T>, pos: nat) {
    predicate Valid() {
      pos <= |items|
    }

    function Reset(): Cursor<T> {
      Cursor(items, 0)
    }

    /** The element under the cursor, which then moves on; from the end it goes back to the head. */
    function Next(): (Option<T>, Cursor<T>)
      requires Valid()
    {
      if pos < |items| then (Some(items[pos]), Cursor(items, pos + 1)) else (None, Reset())
    }

    /** A cursor at the end of a list that is not empty stays at the end. */
    function Add(x: T): Cursor<T>
      requires Valid()
    {
      Cursor(items + [x], if pos == |items| && items != [] then pos + 1 else pos)
    }

    /** The cursor keeps the element it was at, or slides to the next one if that is removed. */
    function RemoveAt(k: nat): Cursor<T>
      requires Valid() && k < |items|
    {
      Cursor(Without(items, k), if k < pos then pos - 1 else pos)
    }
  }

  // ----- counted traversals -----

  function Kept<T>(items: seq<T>, doomed: T -> bool): seq<T> {
    if items == [] then []
    else (if doomed(items[0]) then [] else [items[0]]) + Kept(items[1..], doomed)
  }

  /** One visit of a counted traversal: the element visited, if any, and the list after it. */
  function Visit<T>(c: Cursor<T>, doomed: T -> bool): (r: (Option<T>, Cursor<T>))
    requires c.Valid()
    ensures r.1.Valid()
  {
    var (x, after) := c.Next();
    if x.Some? && doomed(x.value) then (x, after.RemoveAt(after.pos - 1)) else (x, after)
  }

  /** What n visits see, and the list after them. */
  function Sweep<T>(c: Cursor<T>, n: nat, doomed: T -> bool): (seq<T>, Cursor<T>)
    requires c.Valid()
    decreases n
  {
    if n == 0 then ([], c)
    else
      var (x, after) := Visit(c, doomed);
      var (others, end) := Sweep(after, n - 1, doomed);
      (if x.Some? then [x.value] + others else others, end)
  }

  /** A visit moves one element from what is ahead to what has been kept. */
  lemma VisitFirst<T>(c: Cursor<T>, doomed: T -> bool)
    requires c.Valid() && c.pos < |c.items|
    ensures var (x, after) := Visit(c, doomed);
            var rest := c.items[c.pos..];
            && x == Some(rest[0]) && after.items[after.pos..] == rest[1..]
            && after.items[..after.pos] == c.items[..c.pos] + if doomed(rest[0]) then [] else [rest[0]]
  {
  }

  lemma {:induction false} SweepFrom<T>(c: Cursor<T>, doomed: T -> bool, rest: seq<T>)
    requires c.Valid() && rest == c.items[c.pos..]
    ensures var items := c.items[..c.pos] + Kept(rest, doomed);
            Sweep(c, |rest|, doomed) == (rest, Cursor(items, |items|))
    decreases |rest|
  {
    if rest != [] {
      var after, others := Visit(c, doomed).1, rest[1..];
      VisitFirst(c, doomed);
      SweepFrom(after, doomed, others);
      assert rest == [rest[0]] + others;
      Associate(c.items[..c.pos], if doomed(rest[0]) then [] else [rest[0]], Kept(others, doomed));
    } else {
      assert c.items[..c.pos] + [] == c.items;
    }
  }

  /** As many visits as the list has elements at the start see every element once and in order, even
      if visited elements are removed on the way. */
  lemma SweepVisitsEach<T>(c: Cursor<T>, doomed: T -> bool)
    requires c.Valid()
    ensures var kept := Kept(c.items, doomed);
            Sweep(c.Reset(), |c.items|, doomed) == (c.items, Cursor(kept, |kept|))
  {
    assert c.items[0..] == c.items;
    SweepFrom(c.Reset(), doomed, c.items);
    assert [] + Kept(c.items, doomed) == Kept(c.items, doomed);
  }

  class Node<T> {
    const data: T
    var prev: Node?<T>
    var next: Node?<T>

    constructor (data: T, prev: Node?<T>)
      ensures this.data == data && this.prev == prev && next == null
    {
      this.data := data;
      this.prev := prev;
      next := null;
    }
  }

  /** The node at a place, null outside the list. */
  ghost function At<T>(nodes: seq<Node<T>>, i: int): Node?<T> {
    if 0 <= i < |nodes| then nodes[i] else null
  }

  function Place(k: nat, i: nat): nat {
    if i < k then i else i + 1
  }

  ghost predicate Distinct<T>(nodes: seq<Node<T>>) {
    forall i, j :: 0 <= i < j < |nodes| ==> nodes[i] != nodes[j]
  }

  /** Each node points to its neighbours. */
  ghost predicate Linked<T>(nodes: seq<Node<T>>)
    reads nodes
  {
    && (forall i {:trigger nodes[i].prev} :: 0 <= i < |nodes| ==> nodes[i].prev == At(nodes, i - 1))
    && (forall i {:trigger nodes[i].next} :: 0 <= i < |nodes| ==> nodes[i].next == At(nodes, i + 1))
  }

  /** The nodes but for the one at k, whose neighbours point to each other. */
  ghost predicate LinkedAround<T>(nodes: seq<Node<T>>, k: nat)
    reads nodes
  {
    && (forall i {:trigger nodes[i].prev} :: 0 <= i < |nodes| ==>
          nodes[i].prev == At(nodes, if i == k + 1 then k - 1 else i - 1))
    && (forall i {:trigger nodes[i].next} :: 0 <= i < |nodes| ==>
          nodes[i].next == At(nodes, if i + 1 == k then k + 1 else i + 1))
  }

  function Without<T>(s: seq<T>, k: nat): seq<T>
    requires k < |s|
  {
    s[..k] + s[k + 1..]
  }

  /** Who is next to whom once the node at k is gone. */
  lemma Neighbours<T>(was: seq<Node<T>>, k: nat, i: nat)
    requires k < |was| && i < |was| - 1
    ensures var nodes := Without(was, k);
            && nodes[i] == was[Place(k, i)]
            && At(nodes, i - 1) == At(was, if i == k then k - 1 else Place(k, i) - 1)
            && At(nodes, i + 1) == At(was, if i + 1 == k then k + 1 else Place(k, i) + 1)
  {
  }

  lemma RemovalKeepsLinks<T>(was: seq<Node<T>>, k: nat)
    requires k < |was| && LinkedAround(was, k)
    ensures Linked(Without(was, k))
  {
    var nodes := Without(was, k);
    forall i: nat | i < |nodes|
      ensures nodes[i].prev == At(nodes, i - 1) && nodes[i].next == At(nodes, i + 1)
    {
      Neighbours(was, k, i);
      var p: int := Place(k, i);
      assert was[p].prev == At(was, if p == k + 1 then k - 1 else p - 1);
      assert was[p].next == At(was, if p + 1 == k then k + 1 else p + 1);
    }
  }

  lemma AppendKeepsDistinct<T>(was: seq<Node<T>>, node: Node<T>)
    requires Distinct(was) && node !in was
    ensures Distinct(was + [node])
  {
  }

  lemma AppendedAt<T>(was: seq<Node<T>>, node: Node<T>)
    ensures forall k: nat :: k <= |was| ==> At(was + [node], k) == if k == |was| then node else At(was, k)
  {
  }

  lemma AppendKeepsLinks<T>(was: seq<Node<T>>, node: Node<T>)
    requires node.prev == At(was, |was| - 1) && node.next == null
    requires forall i: nat :: i < |was| ==>
               was[i].prev == At(was, i - 1) && was[i].next == if i + 1 < |was| then At(was, i + 1) else node
    ensures Linked(was + [node])
  {
    var nodes := was + [node];
    forall i: nat | i < |nodes|
      ensures nodes[i].prev == At(nodes, i - 1) && nodes[i].next == At(nodes, i + 1)
    {
      assert i > 0 ==> nodes[i - 1] == was[i - 1];
      assert i + 1 < |was| ==> nodes[i + 1] == was[i + 1];
    }
  }

  /** Where a pointer to a place of the list points once the node at k is gone. */
  lemma RemovalAt<T>(was: seq<Node<T>>, k: nat, place: nat, now: nat)
    requires k < |was| && place <= |was| && Distinct(was) && now == if k < place then place - 1 else place
    ensures At(Without(was, k), now) == if At(was, place) == was[k] then At(was, k + 1) else At(was, place)
  {
  }

  lemma RemovalAtLast<T>(was: seq<Node<T>>, k: nat, left: seq<Node<T>>)
    requires k < |was| && Distinct(was) && left == Without(was, k)
    ensures At(left, |left| - 1) == if At(was, |was| - 1) == was[k] then At(was, k - 1) else At(was, |was| - 1)
  {
  }

  lemma RemovalKeepsDistinct<T>(was: seq<Node<T>>, k: nat)
    requires k < |was| && Distinct(was)
    ensures Distinct(Without(was, k))
    ensures was[k] !in Without(was, k)
  {
  }

  class List<T> {
    var head: Node?<T>
    var last: Node?<T>
    var current: Node?<T>
    var count: nat
    ghost var nodes: seq<Node<T>>
    ghost var pos: nat

    /** All pointers and the count describe the same sequence of nodes and the same position. */
    ghost predicate Valid()
      reads this, nodes
    {
      && count == |nodes| && pos <= |nodes|
      && Distinct(nodes) && Linked(nodes)
      && head == At(nodes, 0) && last == At(nodes, |nodes| - 1) && current == At(nodes, pos)
    }

    ghost function View(): (r: Cursor<Node<T>>)
      reads this
    {
      Cursor(nodes, pos)
    }

    constructor ()
      ensures Valid() && View() == Cursor([], 0)
    {
      head, last, current, count := null, null, null, 0;
      nodes, pos := [], 0;
    }

    /** Puts a node behind the last one; the cursor of an empty list moves to it. */
    method Link(node: Node<T>)
      requires Valid() && node !in nodes && node.prev == last && node.next == null
      modifies this`head, this`last, this`current, nodes
      ensures Linked(nodes + [node])
      ensures last == node && head == At(nodes + [node], 0)
      ensures current == if count == 0 then node else old(current)
    {
      if count == 0 {
        head := node;
        last := node;
        current := node;
      } else {
        last.next := node;
        last := node;
      }
      AppendKeepsLinks(nodes, node);
    }

    /** `limit` is the largest count, and `hasMemory` tells whether there is memory for a node. */
    method Add(data: T, limit: nat, hasMemory: bool) returns (code: Code)
      requires Valid()
      modifies this, nodes
      ensures Valid()
      ensures code == if old(count) >= limit then LimitExceeded else if !hasMemory then OutOfMemory else Ok
      ensures code != Ok ==> View() == old(View())
      ensures code == Ok ==>
                && |nodes| == old(|nodes|) + 1 && fresh(nodes[|nodes| - 1]) && nodes[|nodes| - 1].data == data
                && View() == old(View()).Add(nodes[|nodes| - 1])
      ensures code == Ok ==>
                && nodes == old(nodes) + [nodes[|nodes| - 1]]
                && current == if old(nodes) == [] then nodes[0] else old(current)
    {
      if count >= limit {
        return LimitExceeded;
      }
      if !hasMemory {
        return OutOfMemory;
      }
      var node := new Node(data, last);
      Link(node);
      AppendedAt(nodes, node);
      AppendKeepsDistinct(nodes, node);
      count := count + 1;
      pos := View().Add(node).pos;
      nodes := nodes + [node];
      return Ok;
    }

    method Next() returns (node: Node?<T>)
      requires Valid()
      modifies this`current, this`pos
      ensures Valid()
      ensures View() == old(View()).Next().1
      ensures match old(View()).Next().0 { case Some(n) => node == n case None => node == null }
      ensures node == old(current) && current == if node == null then head else node.next
    {
      node := current;
      if current == null {
        current := head;
      } else {
        current := current.next;
      }
      pos := View().Next().1.pos;
    }

    method Reset()
      requires Valid()
      modifies this`current, this`pos
      ensures Valid() && View() == old(View()).Reset()
      ensures current == head && nodes == old(nodes)
    {
      current := head;
      pos := 0;
    }

    /** Connects the neighbours of a node with each other. */
    method Unlink(node: Node<T>, ghost k: nat)
      requires Valid() && k < |nodes| && nodes[k] == node
      modifies nodes
      ensures LinkedAround(nodes, k)
    {
      if node.prev == null {
        if node.next != null {
          node.next.prev := null;
        }
      } else {
        if node.next == null {
          node.prev.next := null;
        } else {
          node.prev.next := node.next;
          node.next.prev := node.prev;
        }
      }
    }

    /** Takes a node off the list that its neighbours do not point to any more. */
    method Forget(node: Node<T>, ghost k: nat)
      requires count == |nodes| && pos <= |nodes| && k < |nodes| && nodes[k] == node
      requires Distinct(nodes) && LinkedAround(nodes, k)
      requires head == At(nodes, 0) && last == At(nodes, |nodes| - 1) && current == At(nodes, pos)
      modifies this
      ensures Valid() && View() == old(View()).RemoveAt(k)
      ensures current == if old(current) == node then old(node.next) else old(current)
    {
      ghost var left, now: nat := Without(nodes, k), if k < pos then pos - 1 else pos;
      RemovalKeepsLinks(nodes, k);
      RemovalKeepsDistinct(nodes, k);
      RemovalAt(nodes, k, 0, 0);
      RemovalAt(nodes, k, pos, now);
      RemovalAtLast(nodes, k, left);
      assert node.next == At(nodes, k + 1) && node.prev == At(nodes, k - 1);
      if head == node {
        head := node.next;
      }
      if last == node {
        last := node.prev;
      }
      if current == node {
        current := node.next;
      }
      count := count - 1;
      nodes, pos := left, now;
    }

    /** The node is one of the list, at place k, if the list has any. */
    method Remove(node: Node<T>, ghost k: nat) returns (code: Code)
      requires Valid() && (nodes != [] ==> k < |nodes| && nodes[k] == node)
      modifies this, nodes
      ensures Valid()
      ensures code == if old(nodes) == [] then ListIsEmpty else Ok
      ensures View() == if old(nodes) == [] then old(View()) else old(View()).RemoveAt(k)
      ensures code == Ok ==>
                && nodes == old(nodes)[..k] + old(nodes)[k + 1..]
                && current == if old(current) == node then old(node.next) else old(current)
    {
      if count == 0 {
        return ListIsEmpty;
      }
      Unlink(node, k);
      Forget(node, k);
      return Ok;
    }

    /** Also hands out what the node held, to be destroyed. */
    method RemoveWithContent(node: Node<T>, ghost k: nat) returns (code: Code, content: Option<T>)
      requires Valid() && (nodes != [] ==> k < |nodes| && nodes[k] == node)
      modifies this, nodes
      ensures Valid()
      ensures code == if old(nodes) == [] then ListIsEmpty else Ok
      ensures content == if old(nodes) == [] then None else Some(node.data)
      ensures View() == if old(nodes) == [] then old(View()) else old(View()).RemoveAt(k)
    {
      code := Remove(node, k);
      content := if code == Ok then Some(node.data) else None;
    }
  }
}
