/** The store of the device: a linked list of store items whose statuses change during an exchange. */
module Store {
  import opened Core
  import opened LinkedList
  import opened Multipart
  import opened Exchange
  import opened StoreRuns

  class StoreItem<T> {
    const item: T
    const id: nat
    var status: Status
    var size: nat

    /** A new item is ready; its size is whatever the memory held before. */
    constructor (item: T, id: nat, garbage: nat)
      ensures this.item == item && this.id == id && ToEntry() == Entry(item, id, Ready, garbage)
    {
      this.item, this.id := item, id;
      status, size := Ready, garbage;
    }

    function ToEntry(): Entry<T>
      reads this
    {
      Entry(item, id, status, size)
    }
  }

  ghost function Held<X>(nodes: seq<Node<X>>): (r: seq<X>)
    ensures |r| == |nodes|
    ensures forall i :: 0 <= i < |nodes| ==> r[i] == nodes[i].data
  {
    seq(|nodes|, i requires 0 <= i < |nodes| => nodes[i].data)
  }

  ghost function EntriesOf<T>(held: seq<StoreItem<T>>): seq<Entry<T>>
    reads held
  {
    if held == [] then [] else [held[0].ToEntry()] + EntriesOf(held[1..])
  }

  lemma EntriesAre<T>(held: seq<StoreItem<T>>)
    ensures |EntriesOf(held)| == |held|
    ensures forall i :: 0 <= i < |held| ==> EntriesOf(held)[i] == held[i].ToEntry()
  {
  }

  ghost predicate AllDifferent<T>(held: seq<StoreItem<T>>) {
    forall i, j :: 0 <= i < j < |held| ==> held[i] != held[j]
  }

  // ----- loops against specifications: what is done, and what is still to do -----

  ghost predicate SelectedUpTo<T>(es: seq<Entry<T>>, space: nat, now: seq<Entry<T>>, i: nat, room: nat) {
    && |now| == |es| && i <= |es| && now[i..] == es[i..]
    && now[..i] + Select(es[i..], room) == Select(es, space)
    && RoomLeft(es[i..], room) == RoomLeft(es, space)
  }

  /** Entries and room after i visits. */
  ghost function SelectVisits<T>(es: seq<Entry<T>>, space: nat, i: nat): (r: (seq<Entry<T>>, nat))
    requires i <= |es|
    ensures |r.0| == |es|
  {
    if i == 0 then (es, space)
    else
      var (now, room) := SelectVisits(es, space, i - 1);
      if now[i - 1].size <= room
      then (now[i - 1 := now[i - 1].(status := Selected)], room - now[i - 1].size)
      else (now, room)
  }

  lemma NextSelectVisit<T>(es: seq<Entry<T>>, space: nat, i: nat, next: nat)
    requires next == i + 1 <= |es|
    ensures var (now, room) := SelectVisits(es, space, i);
            SelectVisits(es, space, next)
            == if now[i].size <= room then (now[i := now[i].(status := Selected)], room - now[i].size) else (now, room)
  {
  }

  lemma {:induction false} SelectVisitsAre<T>(es: seq<Entry<T>>, space: nat, i: nat)
    requires i <= |es|
    ensures var (now, room) := SelectVisits(es, space, i); SelectedUpTo(es, space, now, i, room)
  {
    if i == 0 {
      assert es[0..] == es;
    } else {
      SelectVisitsAre(es, space, i - 1);
      var (now, room) := SelectVisits(es, space, i - 1);
      SelectStep(es, space, now, i - 1, room);
    }
  }

  /** The visits of all entries make the greedy selection. */
  lemma SelectVisitsEnd<T>(es: seq<Entry<T>>, space: nat)
    ensures SelectVisits(es, space, |es|) == (Select(es, space), RoomLeft(es, space))
  {
    SelectVisitsAre(es, space, |es|);
    var (now, room) := SelectVisits(es, space, |es|);
    assert es[|es|..] == [] && now[..|es|] == now;
    assert now + [] == now;
  }

  lemma SelectStep<T>(es: seq<Entry<T>>, space: nat, now: seq<Entry<T>>, i: nat, room: nat)
    requires SelectedUpTo(es, space, now, i, room) && i < |es|
    ensures now[i] == es[i]
    ensures if es[i].size <= room
            then SelectedUpTo(es, space, now[i := es[i].(status := Selected)], i + 1, room - es[i].size)
            else SelectedUpTo(es, space, now, i + 1, room)
  {
    assert now[i..][0] == es[i..][0] && now[i..][1..] == es[i..][1..];
    assert es[i..][1..] == es[i + 1..] && now[i..][1..] == now[i + 1..];
    var chosen := if es[i].size <= room then es[i].(status := Selected) else es[i];
    var after := now[i := chosen];
    assert after[..i + 1] == now[..i] + [chosen] && after[i + 1..] == now[i + 1..];
    if es[i].size > room {
      assert after == now;
    }
  }

  ghost predicate RemovedUpTo<T>(es: seq<Entry<T>>, now: seq<Entry<T>>, pos: nat, i: nat, finished: bool) {
    && i <= |es| && pos <= |now| && now[pos..] == es[i..]
    && now[..pos] + AfterAccept(es[i..]) == AfterAccept(es)
    && (finished <==> FullyProcessed(es[..i]))
  }

  /** One visit of the traversal that removes what was uploaded. */
  ghost function RemoveVisit<T>(now: seq<Entry<T>>, pos: nat, finished: bool): (seq<Entry<T>>, nat, bool)
    requires pos < |now|
  {
    match now[pos].status
    case Processed => (Without(now, pos), pos, finished)
    case Selected => (now[pos := now[pos].(status := Ready)], pos + 1, false)
    case Ready => (now, pos + 1, false)
    case Ignored => (now, pos + 1, finished)
  }

  lemma RemoveStep<T>(es: seq<Entry<T>>, now: seq<Entry<T>>, pos: nat, i: nat, j: nat, finished: bool)
    requires RemovedUpTo(es, now, pos, i, finished) && j == i + 1 <= |es|
    ensures pos < |now| && now[pos] == es[i]
    ensures var (after, next, verdict) := RemoveVisit(now, pos, finished);
            RemovedUpTo(es, after, next, j, verdict)
  {
    assert now[pos..][0] == es[i..][0] && now[pos..][1..] == es[i..][1..];
    assert es[i..][1..] == es[j..] && now[pos..][1..] == now[pos + 1..];
    assert es[..j] == es[..i] + [es[i]];
    assert FullyProcessed(es[..j]) <==> FullyProcessed(es[..i]) && es[i].status != Selected && es[i].status != Ready;
    if es[i].status == Processed {
      assert Without(now, pos)[..pos] == now[..pos] && Without(now, pos)[pos..] == now[pos + 1..];
    } else {
      var kept := if es[i].status == Selected then es[i].(status := Ready) else es[i];
      var after := now[pos := kept];
      assert after[..pos + 1] == now[..pos] + [kept] && after[pos + 1..] == now[pos + 1..];
      assert es[i].status != Selected ==> after == now;
    }
  }

  /** Where the cursor is after a visit of place i. */
  function PosAfter<X>(nodes: seq<X>, i: nat): nat {
    if i < |nodes| then i + 1 else 0
  }

  ghost predicate RevertedUpTo<T>(es: seq<Entry<T>>, now: seq<Entry<T>>, i: nat) {
    i <= |es| == |now| && forall k :: 0 <= k < |es| ==> now[k] == if k < i then es[k].(status := Ready) else es[k]
  }

  lemma RevertStep<T>(es: seq<Entry<T>>, now: seq<Entry<T>>, i: nat)
    requires RevertedUpTo(es, now, i) && i < |es|
    ensures now[i] == es[i] && RevertedUpTo(es, now[i := now[i].(status := Ready)], i + 1)
  {
  }

  /** Entries, cursor and verdict after i visits of the traversal that removes what was uploaded. */
  ghost function RemoveVisits<T>(es: seq<Entry<T>>, i: nat): (r: (seq<Entry<T>>, nat, bool))
    requires i <= |es|
    ensures r.1 <= i && |r.0| == |es| - i + r.1
  {
    if i == 0 then (es, 0, true)
    else
      var (now, pos, finished) := RemoveVisits(es, i - 1);
      RemoveVisit(now, pos, finished)
  }

  lemma NextRemoveVisit<T>(es: seq<Entry<T>>, i: nat, j: nat)
    requires j == i + 1 <= |es|
    ensures var state := RemoveVisits(es, i);
            state.1 < |state.0| && RemoveVisits(es, j) == RemoveVisit(state.0, state.1, state.2)
  {
  }

  lemma {:induction false} RemoveVisitsAre<T>(es: seq<Entry<T>>, i: nat)
    requires i <= |es|
    ensures var (now, pos, finished) := RemoveVisits(es, i); RemovedUpTo(es, now, pos, i, finished)
  {
    if i == 0 {
      assert es[0..] == es && [] + AfterAccept(es) == AfterAccept(es);
    } else {
      var k: nat := i - 1;
      RemoveVisitsAre(es, k);
      NextRemoveVisit(es, k, i);
      var (now, pos, finished) := RemoveVisits(es, k);
      RemoveStep(es, now, pos, k, i, finished);
    }
  }

  /** As many visits as there are entries leave what the specification says. */
  lemma RemoveVisitsEnd<T>(es: seq<Entry<T>>)
    ensures var (now, pos, finished) := RemoveVisits(es, |es|);
            now == AfterAccept(es) && pos == |now| && (finished <==> FullyProcessed(es))
  {
    RemoveVisitsAre(es, |es|);
    var (now, pos, finished) := RemoveVisits(es, |es|);
    assert es[|es|..] == [] && es[..|es|] == es;
    assert now[..pos] == now && now + [] == now;
  }

  lemma RevertEnd<T>(es: seq<Entry<T>>, now: seq<Entry<T>>)
    requires RevertedUpTo(es, now, |es|)
    ensures now == Revert(es)
  {
  }

  lemma EntriesAppend<T>(held: seq<StoreItem<T>>, x: StoreItem<T>)
    ensures EntriesOf(held + [x]) == EntriesOf(held) + [x.ToEntry()]
  {
    EntriesAre(held);
    EntriesAre(held + [x]);
  }

  lemma HeldAppend<T>(held: seq<StoreItem<T>>, x: StoreItem<T>)
    requires AllDifferent(held) && x !in held
    ensures AllDifferent(held + [x])
  {
  }

  lemma EntriesWithout<T>(held: seq<StoreItem<T>>, k: nat)
    requires k < |held|
    ensures |EntriesOf(held)| == |held|
    ensures EntriesOf(Without(held, k)) == Without(EntriesOf(held), k)
  {
    EntriesAre(held);
    EntriesAre(Without(held, k));
  }

  lemma HeldWithout<T>(nodes: seq<Node<StoreItem<T>>>, k: nat)
    requires k < |nodes| && AllDifferent(Held(nodes))
    ensures Held(Without(nodes, k)) == Without(Held(nodes), k)
    ensures AllDifferent(Held(Without(nodes, k)))
  {
  }

  ghost predicate Among<X>(left: seq<Node<X>>, nodes: seq<Node<X>>) {
    forall k :: 0 <= k < |left| ==> left[k] in nodes
  }

  lemma AmongAt<X>(left: seq<Node<X>>, nodes: seq<Node<X>>, k: nat)
    requires Among(left, nodes) && k < |left|
    ensures left[k] in nodes && left[k].data in Held(nodes)
  {
    var node := left[k];
    assert node in nodes;
    var i :| 0 <= i < |nodes| && nodes[i] == node;
    assert Held(nodes)[i] == left[k].data;
  }

  lemma AmongHeld<X>(left: seq<Node<X>>, nodes: seq<Node<X>>)
    requires Among(left, nodes)
    ensures forall x :: x in Held(left) ==> x in Held(nodes)
  {
    forall k | 0 <= k < |left| ensures Held(left)[k] in Held(nodes) {
      AmongAt(left, nodes, k);
    }
  }

  lemma AmongWithout<X>(left: seq<Node<X>>, nodes: seq<Node<X>>, k: nat)
    requires Among(left, nodes) && k < |left|
    ensures Among(Without(left, k), nodes)
  {
  }

  // ----- the store -----

  class Store<T(!new)> {
    const list: List<StoreItem<T>>
    var lastId: nat

    ghost predicate Valid()
      reads this, list, list.nodes
    {
      list.Valid() && AllDifferent(Held(list.nodes))
    }

    ghost function Items(): seq<StoreItem<T>>
      reads this, list
    {
      Held(list.nodes)
    }

    ghost function Entries(): seq<Entry<T>>
      reads this, list, Items()
    {
      EntriesOf(Items())
    }

    /** The nodes, the place of the cursor, and the entries. */
    ghost predicate Is(nodes: seq<Node<StoreItem<T>>>, pos: nat, es: seq<Entry<T>>)
      reads this, list, list.nodes, Items()
    {
      Valid() && list.nodes == nodes && list.pos == pos && Entries() == es
    }

    constructor ()
      ensures Is([], 0, []) && lastId == 0
      ensures fresh(list)
    {
      list := new List();
      lastId := 0;
    }

    // ----- access to the list -----

    method Reset(ghost nodes: seq<Node<StoreItem<T>>>, ghost pos: nat, ghost es: seq<Entry<T>>)
      requires Is(nodes, pos, es)
      modifies list`current, list`pos
      ensures Is(nodes, 0, es)
    {
      EntriesAre(Items());
      list.Reset();
      EntriesAre(Items());
    }

    method Next(ghost nodes: seq<Node<StoreItem<T>>>, ghost pos: nat, ghost es: seq<Entry<T>>)
      returns (node: Node?<StoreItem<T>>)
      requires Is(nodes, pos, es)
      modifies list`current, list`pos
      ensures Is(nodes, PosAfter(nodes, pos), es)
      ensures node == At(nodes, pos) && |nodes| == |es|
      ensures node != null ==> node.data in Items() && node.data == nodes[pos].data && node.data.ToEntry() == es[pos]
    {
      EntriesAre(Items());
      node := list.Next();
      EntriesAre(Items());
    }

    method SetStatus(storeItem: StoreItem<T>, status: Status, ghost k: nat, ghost nodes: seq<Node<StoreItem<T>>>,
                     ghost pos: nat, ghost es: seq<Entry<T>>)
      requires Is(nodes, pos, es) && k < |nodes| && storeItem == nodes[k].data
      modifies storeItem`status
      ensures |es| == |nodes| && Is(nodes, pos, es[k := es[k].(status := status)])
    {
      EntriesAre(Items());
      storeItem.status := status;
      EntriesAre(Items());
    }

    method SetSize(storeItem: StoreItem<T>, size: nat, ghost k: nat, ghost nodes: seq<Node<StoreItem<T>>>,
                   ghost pos: nat, ghost es: seq<Entry<T>>)
      requires Is(nodes, pos, es) && k < |nodes| && storeItem == nodes[k].data
      modifies storeItem`size
      ensures |es| == |nodes| && Is(nodes, pos, es[k := es[k].(size := size)])
    {
      EntriesAre(Items());
      storeItem.size := size;
      EntriesAre(Items());
    }

    method Remove(node: Node<StoreItem<T>>, ghost k: nat, ghost nodes: seq<Node<StoreItem<T>>>, ghost pos: nat,
                  ghost es: seq<Entry<T>>)
      requires Is(nodes, pos, es) && k < |nodes| && node == nodes[k]
      modifies list, list.nodes
      ensures |es| == |nodes| && Is(Without(nodes, k), if k < pos then pos - 1 else pos, Without(es, k))
    {
      ghost var held, left := Items(), Without(nodes, k);
      EntriesAre(held);
      HeldWithout(nodes, k);
      var _, _ := list.RemoveWithContent(node, k);
      assert list.nodes == left && Items() == Without(held, k);
      assert EntriesOf(held) == es;
      EntriesWithout(held, k);
    }

    method Append(storeItem: StoreItem<T>, limit: nat, hasMemory: bool, ghost es: seq<Entry<T>>) returns (code: Code)
      requires Is(list.nodes, list.pos, es) && storeItem !in Items()
      modifies list, list.nodes
      ensures Valid()
      ensures code == if |es| >= limit then LimitExceeded else if !hasMemory then OutOfMemory else Ok
      ensures Entries() == if code == Ok then es + [storeItem.ToEntry()] else es
      ensures forall n :: n in list.nodes ==> n in old(list.nodes) || (fresh(n) && n.data == storeItem)
    {
      ghost var held := Items();
      EntriesAre(held);
      code := list.Add(storeItem, limit, hasMemory);
      if code == Ok {
        HeldAppend(held, storeItem);
        assert Items() == held + [storeItem];
        EntriesAppend(held, storeItem);
      }
    }

    /** Gives the item the next id, if it passes its validation and enters the list. */
    method Add(item: Option<T>, limit: nat, conditions: Conditions) returns (code: Code)
      requires Valid()
      modifies this, list, list.nodes
      ensures Valid() && code == AddCode(item.Some?, |old(Entries())|, limit, conditions)
      ensures code != Ok ==> Entries() == old(Entries()) && lastId == old(lastId)
      ensures code == Ok ==>
                && item.Some? && lastId == old(lastId) + 1
                && Entries() == old(Entries()) + [Entry(item.value, lastId, Ready, conditions.garbage)]
      ensures forall n :: n in list.nodes ==> n in old(list.nodes) || (fresh(n) && fresh(n.data))
    {
      if item.None? {
        return InvalidParameter;
      }
      if !conditions.itemAllocated {
        return OutOfMemory;
      }
      ghost var es := Entries();
      var storeItem := new StoreItem(item.value, lastId + 1, conditions.garbage);
      code := Append(storeItem, limit, conditions.nodeAllocated, es);
      if code == Ok {
        lastId := storeItem.id;
      }
    }

    // ----- the steps of an exchange -----

    /** One visit of the selection. */
    method SelectNext(storeItem: StoreItem<T>, remaining: nat, ghost i: nat, ghost next: nat,
                      ghost nodes: seq<Node<StoreItem<T>>>, ghost pos: nat, ghost now: seq<Entry<T>>,
                      ghost es: seq<Entry<T>>, ghost space: nat)
      returns (left: nat, ghost after: seq<Entry<T>>)
      requires Is(nodes, pos, now) && |nodes| == |now| == |es| && next == i + 1 <= |es|
      requires storeItem == nodes[i].data && storeItem.ToEntry() == now[i]
      requires (now, remaining) == SelectVisits(es, space, i)
      modifies storeItem`status
      ensures Is(nodes, pos, after) && |after| == |now| && (after, left) == SelectVisits(es, space, next)
    {
      NextSelectVisit(es, space, i, next);
      left, after := remaining, now;
      if remaining >= storeItem.size {
        SetStatus(storeItem, Selected, i, nodes, pos, now);
        left, after := remaining - storeItem.size, now[i := now[i].(status := Selected)];
      }
    }

    /** The pass that marks what fits. */
    method SelectEach(ghost nodes: seq<Node<StoreItem<T>>>, ghost es: seq<Entry<T>>, space: nat)
      returns (remaining: nat, ghost now: seq<Entry<T>>)
      requires Is(nodes, 0, es)
      modifies list`current, list`pos, Items()
      ensures |nodes| == |es| && Is(nodes, PosAfter(nodes, |es|), now)
      ensures (now, remaining) == SelectVisits(es, space, |es|)
    {
      EntriesAre(Items());
      now, remaining := es, space;
      ghost var i := 0;
      var node := Next(nodes, 0, es);
      while node != null
        invariant i <= |nodes| == |es| == |now| && node == At(nodes, i)
        invariant Is(nodes, PosAfter(nodes, i), now)
        invariant (now, remaining) == SelectVisits(es, space, i)
        invariant node != null ==> node.data in Items() && node.data == nodes[i].data && node.data.ToEntry() == now[i]
        decreases |nodes| - i
      {
        ghost var next := i + 1;
        remaining, now := SelectNext(node.data, remaining, i, next, nodes, PosAfter(nodes, i), now, es, space);
        node := Next(nodes, next, now);
        i := next;
      }
      assert i == |es|;
    }

    /** Marks what fits, in one pass, and returns the space the body needs. */
    method SelectItems(max: nat) returns (needed: nat)
      requires Valid() && MULTIPART_CLOSE_LENGTH <= max
      modifies list`current, list`pos, Items()
      ensures Is(old(list.nodes), 0, Select(old(Entries()), Space(max)))
      ensures needed == BufferSize(old(Entries()), max)
    {
      ghost var es, nodes := Entries(), list.nodes;
      Reset(nodes, list.pos, es);
      var remaining;
      ghost var now;
      remaining, now := SelectEach(nodes, es, max - MULTIPART_CLOSE_LENGTH);
      SelectVisitsEnd(es, Space(max));
      Reset(nodes, PosAfter(nodes, |es|), now);
      needed := max - remaining;
    }

    /** Everything is ready again. */
    method RevertStatus()
      requires Valid()
      modifies list`current, list`pos, Items()
      ensures list.nodes == old(list.nodes) && Valid() && Entries() == Revert(old(Entries()))
    {
      ghost var es, now, nodes := Entries(), Entries(), list.nodes;
      EntriesAre(Items());
      var count := list.count;
      Reset(nodes, list.pos, es);
      var index := 0;
      while index < count
        invariant index <= count == |nodes| == |es|
        invariant Is(nodes, index, now)
        invariant RevertedUpTo(es, now, index)
      {
        RevertStep(es, now, index);
        var node := Next(nodes, index, now);
        SetStatus(node.data, Ready, index, nodes, PosAfter(nodes, index), now);
        now := now[index := now[index].(status := Ready)];
        index := index + 1;
      }
      assert index == |es|;
      RevertEnd(es, now);
    }

    /** The next selected item behind the cursor, if there is one; otherwise the cursor starts anew. */
    method NextSelected(ghost nodes: seq<Node<StoreItem<T>>>, ghost pos: nat, ghost es: seq<Entry<T>>)
      returns (storeItem: StoreItem?<T>, ghost place: nat)
      requires Is(nodes, pos, es) && pos <= |nodes|
      modifies list`current, list`pos
      ensures |es| == |nodes| && pos <= place <= |nodes| && Is(nodes, PosAfter(nodes, place), es)
      ensures forall k :: pos <= k < place ==> es[k].status != Selected
      ensures (storeItem == null <==> place == |nodes|)
      ensures storeItem != null ==>
                && storeItem == nodes[place].data && storeItem in Items() && storeItem.ToEntry() == es[place]
                && es[place].status == Selected
    {
      place := pos;
      var node := Next(nodes, pos, es);
      while node != null && node.data.status != Selected
        invariant pos <= place <= |nodes| == |es| && node == At(nodes, place)
        invariant node != null ==> node.data in Items() && node.data.ToEntry() == es[place]
        invariant Is(nodes, PosAfter(nodes, place), es)
        invariant forall k :: pos <= k < place ==> es[k].status != Selected
        decreases |nodes| - place
      {
        assert es[place].status != Selected;
        ghost var next := place + 1;
        node := Next(nodes, next, es);
        place := next;
      }
      storeItem := if node == null then null else node.data;
    }

    /** One visit of the traversal that removes what was uploaded; `all` are the nodes there were at first. */
    method Settle(node: Node<StoreItem<T>>, finished: bool, ghost all: seq<Node<StoreItem<T>>>,
                  ghost nodes: seq<Node<StoreItem<T>>>, ghost pos: nat, ghost es: seq<Entry<T>>)
      returns (verdict: bool, ghost left: seq<Node<StoreItem<T>>>)
      requires pos < |nodes| == |es| && Is(nodes, pos + 1, es) && node == nodes[pos] && Among(nodes, all)
      modifies list, all, node.data`status
      ensures var (after, next, v) := RemoveVisit(es, pos, finished);
              verdict == v && Is(left, next, after) && |left| == |after|
      ensures Among(left, all)
    {
      EntriesAre(Items());
      assert node.data == Items()[pos];
      verdict, left := finished, nodes;
      match node.data.status {
        case Processed =>
          AmongWithout(nodes, all, pos);
          left := Without(nodes, pos);
          Remove(node, pos, nodes, pos + 1, es);
        case Selected =>
          SetStatus(node.data, Ready, pos, nodes, pos + 1, es);
          verdict := false;
        case Ready =>
          verdict := false;
        case Ignored =>
      }
    }

    /** The state of the traversal after some visits; `all` are the nodes there were at first. */
    ghost predicate Visiting(all: seq<Node<StoreItem<T>>>, left: seq<Node<StoreItem<T>>>, es: seq<Entry<T>>, i: nat,
                             finished: bool)
      requires i <= |es|
      reads this, list, list.nodes, Items()
    {
      var state := RemoveVisits(es, i);
      Is(left, state.1, state.0) && |left| == |state.0| && Among(left, all) && finished == state.2
    }

    lemma AllVisited(all: seq<Node<StoreItem<T>>>, left: seq<Node<StoreItem<T>>>, es: seq<Entry<T>>, finished: bool)
      requires Visiting(all, left, es, |es|, finished)
      ensures Valid() && Entries() == AfterAccept(es) && (finished <==> FullyProcessed(es)) && Among(list.nodes, all)
    {
      RemoveVisitsEnd(es);
    }

    method Visit(finished: bool, ghost all: seq<Node<StoreItem<T>>>, ghost left: seq<Node<StoreItem<T>>>,
                 ghost es: seq<Entry<T>>, ghost i: nat, ghost j: nat)
      returns (verdict: bool, ghost next: seq<Node<StoreItem<T>>>)
      requires j == i + 1 <= |es| && Visiting(all, left, es, i, finished)
      modifies list, all, Held(all)
      ensures Visiting(all, next, es, j, verdict)
    {
      ghost var state := RemoveVisits(es, i);
      NextRemoveVisit(es, i, j);
      AmongAt(left, all, state.1);
      var node := Next(left, state.1, state.0);
      verdict, next := Settle(node, finished, all, left, state.1, state.0);
    }

    /** As many visits as the list has nodes at the start. */
    method VisitAll(count: nat, ghost all: seq<Node<StoreItem<T>>>, ghost es: seq<Entry<T>>)
      returns (finished: bool, ghost left: seq<Node<StoreItem<T>>>)
      requires count == |es| && Visiting(all, all, es, 0, true)
      modifies list, all, Held(all)
      ensures Visiting(all, left, es, |es|, finished)
    {
      var index := 0;
      finished, left := true, all;
      while index < count
        invariant index <= |es| && Visiting(all, left, es, index, finished)
      {
        var next := index + 1;
        finished, left := Visit(finished, all, left, es, index, next);
        index := next;
      }
      assert index == count;
    }

    /** After an accepted body: what was processed leaves the list, what was selected in vain is ready
        again.  Tells whether nothing is left that could be sent. */
    method RemoveUploaded() returns (finished: bool)
      requires Valid()
      modifies list, list.nodes, Items()
      ensures Valid() && Entries() == AfterAccept(old(Entries()))
      ensures finished <==> FullyProcessed(old(Entries()))
      ensures Among(list.nodes, old(list.nodes))
    {
      ghost var es, nodes := Entries(), list.nodes;
      EntriesAre(Items());
      var count := list.count;
      Reset(nodes, list.pos, es);
      ghost var left;
      finished, left := VisitAll(count, nodes, es);
      AllVisited(nodes, left, es, finished);
    }
  }
}
