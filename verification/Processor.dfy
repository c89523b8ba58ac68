/** The exchange of a store as the device performs it: in place, on the linked list of store items and
    a body buffer.  Each step is proved to do what the specification in Exchange says. */
module Processor {
  import opened Core
  import opened ItemTuple
  import opened LinkedList
  import opened Multipart
  import opened Receiver
  import opened Exchange
  import opened Progress
  import opened Store
  import opened Upload
  import opened BodyBuilder

  // ----- sizes -----

  ghost predicate CheckedUpTo<T(!new), C(!new)>(kind: Kind<T, C>, es: seq<Entry<T>>, max: nat, now: seq<Entry<T>>,
                                                i: nat, allIgnored: bool)
  {
    && i <= |es| == |now|
    && (forall k :: 0 <= k < |es| ==> now[k] == if k < i then CheckEntry(kind, es[k], max) else es[k])
    && (allIgnored <==> AllIgnored(kind, es[..i], max))
  }

  lemma CheckStep<T(!new), C(!new)>(kind: Kind<T, C>, es: seq<Entry<T>>, max: nat, now: seq<Entry<T>>, i: nat, next: nat,
                                    allIgnored: bool)
    requires CheckedUpTo(kind, es, max, now, i, allIgnored) && next == i + 1 <= |es|
    ensures now[i] == es[i]
    ensures CheckedUpTo(kind, es, max, now[i := CheckEntry(kind, es[i], max)], next,
                        allIgnored && !Eligible(kind, es[i].item, max))
  {
    assert es[..next] == es[..i] + [es[i]];
  }

  lemma CheckEnd<T(!new), C(!new)>(kind: Kind<T, C>, es: seq<Entry<T>>, max: nat, now: seq<Entry<T>>, allIgnored: bool)
    requires CheckedUpTo(kind, es, max, now, |es|, allIgnored)
    ensures now == CheckEntries(kind, es, max) && (allIgnored <==> AllIgnored(kind, es, max))
  {
    assert es[..|es|] == es;
  }

  lemma CheckedInSteps<T>(es: seq<Entry<T>>, k: nat, e: Entry<T>)
    requires k < |es|
    ensures es[k := e][k := e.(status := Ignored)] == es[k := e.(status := Ignored)]
  {
  }

  /** One visit: the size is computed, and an item that is too large is set aside. */
  method CheckItem(store: Store<Cargo>, storeItem: StoreItem<Cargo>, max: nat, ghost k: nat,
                   ghost nodes: seq<Node<StoreItem<Cargo>>>, ghost pos: nat, ghost es: seq<Entry<Cargo>>)
    returns (ignored: bool)
    requires store.Is(nodes, pos, es) && k < |nodes| == |es| && storeItem == nodes[k].data
    requires storeItem.ToEntry() == es[k]
    modifies storeItem
    ensures store.Is(nodes, pos, es[k := CheckEntry(ItemKind(), es[k], max)])
    ensures ignored <==> !Eligible(ItemKind(), es[k].item, max)
  {
    var size := TupleSizeOf(storeItem.item);
    ghost var e := es[k].(size := size);
    ghost var sized := es[k := e];
    CheckedInSteps(es, k, e);
    store.SetSize(storeItem, size, k, nodes, pos, es);
    ignored := max < MULTIPART_CLOSE_LENGTH + size;
    if ignored {
      store.SetStatus(storeItem, Ignored, k, nodes, pos, sized);
    }
  }

  method CheckStoreSize(store: Store<Cargo>, max: nat) returns (code: Code)
    requires store.Valid()
    modifies store.list`current, store.list`pos, store.Items()
    ensures store.Is(old(store.list.nodes), if code == StoreIsEmpty then old(store.list.pos) else 0,
                     CheckEntries(ItemKind(), old(store.Entries()), max))
    ensures code == CheckCode(ItemKind(), old(store.Entries()), max)
  {
    ghost var es, now, nodes := store.Entries(), store.Entries(), store.list.nodes;
    EntriesAre(store.Items());
    if store.list.count == 0 {
      return StoreIsEmpty;
    }
    store.Reset(nodes, store.list.pos, es);
    var allIgnored := true;
    ghost var i := 0;
    var node := store.Next(nodes, 0, es);
    while node != null
      invariant i <= |nodes| == |es| == |now| && node == At(nodes, i)
      invariant store.Is(nodes, PosAfter(nodes, i), now)
      invariant CheckedUpTo(ItemKind(), es, max, now, i, allIgnored)
      invariant node != null ==> node.data in store.Items() && node.data == nodes[i].data && node.data.ToEntry() == now[i]
      decreases |nodes| - i
    {
      ghost var next := i + 1;
      CheckStep(ItemKind(), es, max, now, i, next, allIgnored);
      var ignored := CheckItem(store, node.data, max, i, nodes, PosAfter(nodes, i), now);
      now := now[i := CheckEntry(ItemKind(), now[i], max)];
      allIgnored := allIgnored && ignored;
      node := store.Next(nodes, next, now);
      i := next;
    }
    assert i == |es|;
    CheckEnd(ItemKind(), es, max, now, allIgnored);
    code := if allIgnored then ItemExceedsMaxHttpRequestSize else Ok;
  }

  // ----- what is done and what is still to do while a body is built -----

  ghost predicate BuiltUpTo<T(!new), C(!new)>(kind: Kind<T, C>, es: seq<Entry<T>>, surroundings: Surroundings<C>,
                                              space: nat, now: seq<Entry<T>>, i: nat, room: nat,
                                              carried: seq<Carried<T>>)
  {
    && |now| == |es| && i <= |es| && now[i..] == es[i..]
    && now[..i] + BuiltEntries(kind, es[i..], surroundings, room) == BuiltEntries(kind, es, surroundings, space)
    && carried + BuiltBody(kind, es[i..], surroundings, room) == BuiltBody(kind, es, surroundings, space)
  }

  lemma BuildStart<T(!new), C(!new)>(kind: Kind<T, C>, es: seq<Entry<T>>, surroundings: Surroundings<C>, space: nat)
    ensures BuiltUpTo(kind, es, surroundings, space, es, 0, space, [])
  {
    assert es[0..] == es;
  }

  lemma BuildStep<T(!new), C(!new)>(kind: Kind<T, C>, es: seq<Entry<T>>, surroundings: Surroundings<C>, space: nat,
                                    now: seq<Entry<T>>, i: nat, j: nat, room: nat, carried: seq<Carried<T>>)
    requires BuiltUpTo(kind, es, surroundings, space, now, i, room, carried) && j == i + 1 <= |es|
    ensures now[i] == es[i]
    ensures BuiltUpTo(kind, es, surroundings, space, now[i := EntryAfter(kind, es[i], surroundings, room)], j,
                      RoomAfter(kind, es[i], surroundings, room), carried + CarriedBy(kind, es[i], surroundings, room))
  {
    assert es[i..][0] == es[i] && es[i..][1..] == es[j..] && now[i..][0] == now[i] && now[i..][1..] == now[j..];
    var e := EntryAfter(kind, es[i], surroundings, room);
    var after := now[i := e];
    assert after[..j] == now[..i] + [e] && after[j..] == now[j..];
  }

  /** Entries that are not selected are passed over. */
  lemma {:induction false} BuildSkip<T(!new), C(!new)>(kind: Kind<T, C>, es: seq<Entry<T>>,
                                                       surroundings: Surroundings<C>, space: nat, now: seq<Entry<T>>,
                                                       i: nat, j: nat, room: nat, carried: seq<Carried<T>>)
    requires BuiltUpTo(kind, es, surroundings, space, now, i, room, carried) && i <= j <= |es|
    requires forall k :: i <= k < j ==> now[k].status != Selected
    ensures BuiltUpTo(kind, es, surroundings, space, now, j, room, carried)
    decreases j - i
  {
    if i < j {
      BuildStep(kind, es, surroundings, space, now, i, i + 1, room, carried);
      assert now[i := now[i]] == now && carried + [] == carried;
      BuildSkip(kind, es, surroundings, space, now, i + 1, j, room, carried);
    }
  }

  lemma BuildEnd<T(!new), C(!new)>(kind: Kind<T, C>, es: seq<Entry<T>>, surroundings: Surroundings<C>, space: nat,
                                   now: seq<Entry<T>>, room: nat, carried: seq<Carried<T>>)
    requires BuiltUpTo(kind, es, surroundings, space, now, |es|, room, carried)
    ensures now == BuiltEntries(kind, es, surroundings, space)
    ensures carried == BuiltBody(kind, es, surroundings, space)
  {
    assert es[|es|..] == [] && now[..|es|] == now && now + [] == now && carried + [] == carried;
  }

  // ----- the body of a round -----

  /** What an item adds to a body with so much room. */
  function Addition<T>(id: nat, item: T, part: Option<Part>, room: nat): seq<Carried<T>> {
    if part.Some? && TupleLength(part.value) <= room then [Carried(id, item, part.value)] else []
  }

  lemma PartInIs<T(!new), C(!new)>(kind: Kind<T, C>, e: Entry<T>, surroundings: Surroundings<C>, room: nat,
                                   part: Option<Part>)
    requires e.status == Selected && part == kind.PartOf(e.item, surroundings.ConditionsOf(e.id))
    ensures CarriedBy(kind, e, surroundings, room) == Addition(e.id, e.item, part, room)
    ensures if part.Some? && TupleLength(part.value) <= room
            then EntryAfter(kind, e, surroundings, room) == e.(status := Processed)
                 && RoomAfter(kind, e, surroundings, room) == room - TupleLength(part.value)
            else EntryAfter(kind, e, surroundings, room) == e && RoomAfter(kind, e, surroundings, room) == room
  {
  }

  /** The text of a body before and after an item was written, or not. */
  lemma HoldsAddition<T>(before: string, after: string, boundary: Boundary, carried: seq<Carried<T>>, used: nat,
                         id: nat, item: T, part: Option<Part>, room: nat, now: nat)
    requires Holds(before, boundary, carried, used) && used <= now <= |after| && after[..used] == before[..used]
    requires if part.Some? && TupleLength(part.value) <= room
             then now == used + TupleLength(part.value) && after[used..now] == Tuple(boundary, part.value)
             else now == used
    ensures Holds(after, boundary, carried + Addition(id, item, part, room), now)
  {
    if part.Some? && TupleLength(part.value) <= room {
      HoldsMore(before, after, boundary, carried, used, Carried(id, item, part.value), now);
    } else {
      assert carried + [] == carried;
      HoldsStill(before, after, boundary, carried, used);
    }
  }

  /** Writes one item behind what is used of the buffer.  The store is not touched by that. */
  method WriteSelected<T(!new)>(ghost store: Store<T>, source: Source, buffer: array<char>, used: nat, remaining: nat,
                                boundary: Boundary, ghost part: Option<Part>, ghost id: nat, ghost item: T,
                                ghost nodes: seq<Node<StoreItem<T>>>, ghost pos: nat, ghost now: seq<Entry<T>>,
                                ghost carried: seq<Carried<T>>)
    returns (code: Code, left: nat, ghost end: nat)
    requires store.Is(nodes, pos, now)
    requires used + remaining == buffer.Length && Holds(buffer[..], boundary, carried, used)
    requires part == source.ToPart()
    modifies buffer
    ensures store.Is(nodes, pos, now)
    ensures code == Ok <==> part.Some? && TupleLength(part.value) <= remaining
    ensures left == if code == Ok then remaining - TupleLength(part.value) else remaining
    ensures end + left == buffer.Length
    ensures Holds(buffer[..], boundary, carried + Addition(id, item, part, remaining), end)
  {
    ghost var text := buffer[..];
    code, left, end := AddItemToBuffer(buffer, used, remaining, source, boundary, part);
    HoldsAddition(text, buffer[..], boundary, carried, used, id, item, part, remaining, end);
  }

  lemma SameAt<X>(s: seq<X>, k: nat, x: X)
    requires k < |s| && s[k] == x
    ensures s[k := x] == s
  {
  }

  /** Writes an item, given by what was built from it, and marks it if that worked. */
  method AddSource<T(!new), C(!new)>(ghost kind: Kind<T, C>, store: Store<T>, storeItem: StoreItem<T>, source: Source,
                                     buffer: array<char>, used: nat, remaining: nat, boundary: Boundary,
                                     ghost surroundings: Surroundings<C>, ghost k: nat,
                                     ghost nodes: seq<Node<StoreItem<T>>>, ghost pos: nat, ghost now: seq<Entry<T>>,
                                     ghost carried: seq<Carried<T>>, ghost e: Entry<T>)
    returns (left: nat, ghost end: nat)
    requires store.Is(nodes, pos, now) && k < |nodes| == |now| && storeItem == nodes[k].data
    requires e == now[k] && e.status == Selected
    requires source.ToPart() == kind.PartOf(e.item, surroundings.ConditionsOf(e.id))
    requires used + remaining == buffer.Length && Holds(buffer[..], boundary, carried, used)
    modifies buffer, storeItem`status
    ensures store.Is(nodes, pos, now[k := EntryAfter(kind, e, surroundings, remaining)])
    ensures left == RoomAfter(kind, e, surroundings, remaining) && end + left == buffer.Length
    ensures Holds(buffer[..], boundary, carried + CarriedBy(kind, e, surroundings, remaining), end)
  {
    ghost var part := source.ToPart();
    PartInIs(kind, e, surroundings, remaining, part);
    var code;
    code, left, end := WriteSelected(store, source, buffer, used, remaining, boundary, part, e.id, e.item,
                                     nodes, pos, now, carried);
    if code == Ok {
      store.SetStatus(storeItem, Processed, k, nodes, pos, now);
    } else {
      SameAt(now, k, e);
    }
  }

  /** Writes one selected item, and marks it if that worked. */
  method AddSelected(store: Store<Cargo>, storeItem: StoreItem<Cargo>, buffer: array<char>, used: nat, remaining: nat,
                     boundary: Boundary, surroundings: Surroundings<Conditions>,
                     ghost k: nat, ghost nodes: seq<Node<StoreItem<Cargo>>>, ghost pos: nat,
                     ghost now: seq<Entry<Cargo>>, ghost carried: seq<Carried<Cargo>>, ghost e: Entry<Cargo>)
    returns (left: nat, ghost end: nat)
    requires store.Is(nodes, pos, now) && k < |nodes| == |now| && storeItem == nodes[k].data
    requires storeItem.ToEntry() == e == now[k] && e.status == Selected
    requires used + remaining == buffer.Length && Holds(buffer[..], boundary, carried, used)
    modifies buffer, storeItem`status
    ensures store.Is(nodes, pos, now[k := EntryAfter(ItemKind(), e, surroundings, remaining)])
    ensures left == RoomAfter(ItemKind(), e, surroundings, remaining) && end + left == buffer.Length
    ensures Holds(buffer[..], boundary, carried + CarriedBy(ItemKind(), e, surroundings, remaining), end)
  {
    var source := GetSource(storeItem.item, surroundings.ConditionsOf(storeItem.id));
    left, end := AddSource(ItemKind(), store, storeItem, source, buffer, used, remaining, boundary, surroundings,
                           k, nodes, pos, now, carried, e);
  }

  /** How far the body has been built. */
  ghost predicate Building(buffer: array<char>, boundary: Boundary, surroundings: Surroundings<Conditions>,
                           chosen: seq<Entry<Cargo>>, now: seq<Entry<Cargo>>, i: nat, remaining: nat,
                           carried: seq<Carried<Cargo>>)
    reads buffer
  {
    && remaining <= buffer.Length && Holds(buffer[..], boundary, carried, buffer.Length - remaining)
    && BuiltUpTo(ItemKind(), chosen, surroundings, buffer.Length, now, i, remaining, carried)
  }

  /** Passes over what is not selected, and adds the item at place. */
  method AddNext(store: Store<Cargo>, storeItem: StoreItem<Cargo>, buffer: array<char>, remaining: nat,
                 boundary: Boundary, surroundings: Surroundings<Conditions>,
                 ghost nodes: seq<Node<StoreItem<Cargo>>>, ghost chosen: seq<Entry<Cargo>>, ghost now: seq<Entry<Cargo>>,
                 ghost i: nat, ghost place: nat, ghost next: nat, ghost carried: seq<Carried<Cargo>>)
    returns (left: nat, ghost after: seq<Entry<Cargo>>, ghost more: seq<Carried<Cargo>>)
    requires store.Is(nodes, PosAfter(nodes, place), now) && next == place + 1 <= |nodes| == |now|
    requires i <= place && forall k :: i <= k < place ==> now[k].status != Selected
    requires storeItem == nodes[place].data && storeItem.ToEntry() == now[place] && now[place].status == Selected
    requires Building(buffer, boundary, surroundings, chosen, now, i, remaining, carried)
    modifies buffer, storeItem`status
    ensures store.Is(nodes, PosAfter(nodes, place), after) && |after| == |nodes|
    ensures Building(buffer, boundary, surroundings, chosen, after, next, left, more)
  {
    BuildSkip(ItemKind(), chosen, surroundings, buffer.Length, now, i, place, remaining, carried);
    BuildStep(ItemKind(), chosen, surroundings, buffer.Length, now, place, next, remaining, carried);
    after := now[place := EntryAfter(ItemKind(), now[place], surroundings, remaining)];
    more := carried + CarriedBy(ItemKind(), now[place], surroundings, remaining);
    ghost var end;
    left, end := AddSelected(store, storeItem, buffer, buffer.Length - remaining, remaining, boundary, surroundings,
                             place, nodes, PosAfter(nodes, place), now, carried, now[place]);
  }

  lemma AllBuilt(buffer: array<char>, boundary: Boundary, surroundings: Surroundings<Conditions>,
                 chosen: seq<Entry<Cargo>>, now: seq<Entry<Cargo>>, i: nat, place: nat, remaining: nat,
                 carried: seq<Carried<Cargo>>)
    requires Building(buffer, boundary, surroundings, chosen, now, i, remaining, carried)
    requires i <= place == |now| && forall k :: i <= k < place ==> now[k].status != Selected
    ensures now == BuiltEntries(ItemKind(), chosen, surroundings, buffer.Length)
    ensures carried == BuiltBody(ItemKind(), chosen, surroundings, buffer.Length)
  {
    BuildSkip(ItemKind(), chosen, surroundings, buffer.Length, now, i, |chosen|, remaining, carried);
    BuildEnd(ItemKind(), chosen, surroundings, buffer.Length, now, remaining, carried);
  }

  /** The loop over the selected items. */
  method AddEach(store: Store<Cargo>, buffer: array<char>, boundary: Boundary, surroundings: Surroundings<Conditions>,
                 ghost nodes: seq<Node<StoreItem<Cargo>>>, ghost chosen: seq<Entry<Cargo>>)
    returns (remaining: nat, ghost now: seq<Entry<Cargo>>, ghost carried: seq<Carried<Cargo>>, ghost i: nat,
             ghost place: nat)
    requires store.Is(nodes, 0, chosen)
    requires Building(buffer, boundary, surroundings, chosen, chosen, 0, buffer.Length, [])
    modifies store.list`current, store.list`pos, store.Items(), buffer
    ensures place == |nodes| == |now| && store.Is(nodes, PosAfter(nodes, place), now)
    ensures i <= place && forall k :: i <= k < place ==> now[k].status != Selected
    ensures Building(buffer, boundary, surroundings, chosen, now, i, remaining, carried)
  {
    i, now, carried, remaining := 0, chosen, [], buffer.Length;
    var storeItem;
    storeItem, place := store.NextSelected(nodes, 0, chosen);
    while storeItem != null
      invariant store.Is(nodes, PosAfter(nodes, place), now) && i <= place <= |nodes| == |now|
      invariant forall k :: i <= k < place ==> now[k].status != Selected
      invariant storeItem == null <==> place == |nodes|
      invariant storeItem != null ==>
                  && storeItem == nodes[place].data && storeItem in store.Items()
                  && storeItem.ToEntry() == now[place] && now[place].status == Selected
      invariant Building(buffer, boundary, surroundings, chosen, now, i, remaining, carried)
      decreases |nodes| - place
    {
      ghost var next := place + 1;
      remaining, now, carried := AddNext(store, storeItem, buffer, remaining, boundary, surroundings, nodes, chosen,
                                         now, i, place, next, carried);
      i := next;
      storeItem, place := store.NextSelected(nodes, next, now);
    }
  }

  /** Writes all selected items, one after the other. */
  method AddAllSelected(store: Store<Cargo>, buffer: array<char>, boundary: Boundary,
                        surroundings: Surroundings<Conditions>,
                        ghost nodes: seq<Node<StoreItem<Cargo>>>, ghost chosen: seq<Entry<Cargo>>)
    returns (remaining: nat, ghost now: seq<Entry<Cargo>>, ghost carried: seq<Carried<Cargo>>, ghost pos: nat)
    requires store.Is(nodes, 0, chosen)
    modifies store.list`current, store.list`pos, store.Items(), buffer
    ensures store.Is(nodes, pos, now) && now == BuiltEntries(ItemKind(), chosen, surroundings, buffer.Length)
    ensures carried == BuiltBody(ItemKind(), chosen, surroundings, buffer.Length)
    ensures remaining <= buffer.Length && Holds(buffer[..], boundary, carried, buffer.Length - remaining)
  {
    BuildStart(ItemKind(), chosen, surroundings, buffer.Length);
    ghost var i, place;
    remaining, now, carried, i, place := AddEach(store, buffer, boundary, surroundings, nodes, chosen);
    AllBuilt(buffer, boundary, surroundings, chosen, now, i, place, remaining, carried);
    pos := PosAfter(nodes, place);
  }

  lemma UsedIffCarried<T>(carried: seq<Carried<T>>)
    ensures TuplesLength(Parts(carried)) == 0 <==> carried == []
  {
    if carried != [] {
      assert TupleLength(Parts(carried)[0]) > 0;
    }
  }

  /** Ends the body in the buffer, if there is anything in it and the closing delimiter fits. */
  method FinishBody<T>(buffer: array<char>, remaining: nat, boundary: Boundary, ghost carried: seq<Carried<T>>)
    returns (code: Code, bodySize: nat)
    requires remaining <= buffer.Length && Holds(buffer[..], boundary, carried, buffer.Length - remaining)
    modifies buffer
    ensures code == if carried != [] && TuplesLength(Parts(carried)) + MULTIPART_CLOSE_LENGTH <= buffer.Length
                    then Ok else Fail
    ensures code == Ok ==>
              bodySize <= buffer.Length && buffer[..][..bodySize] == Delivery(boundary, carried).Text()
  {
    UsedIffCarried(carried);
    bodySize := 0;
    code := Fail;
    if buffer.Length != remaining {
      ghost var text := buffer[..];
      var used, left: nat := buffer.Length - remaining, 0;
      code, left := CloseBody(buffer, used, remaining, boundary);
      if code == Ok {
        bodySize := buffer.Length - left;
        Closed(text, buffer[..], boundary, carried, used, bodySize);
      } else {
        code := Fail;
      }
    }
  }

  /** The store is not touched by that. */
  method FinishStoreBody<T(!new)>(store: Store<T>, buffer: array<char>, remaining: nat, boundary: Boundary,
                                  ghost nodes: seq<Node<StoreItem<T>>>, ghost pos: nat, ghost now: seq<Entry<T>>,
                                  ghost carried: seq<Carried<T>>)
    returns (code: Code, bodySize: nat)
    requires remaining <= buffer.Length && Holds(buffer[..], boundary, carried, buffer.Length - remaining)
    requires store.Is(nodes, pos, now)
    modifies buffer
    ensures store.Is(nodes, pos, now)
    ensures code == if carried != [] && TuplesLength(Parts(carried)) + MULTIPART_CLOSE_LENGTH <= buffer.Length
                    then Ok else Fail
    ensures code == Ok ==>
              bodySize <= buffer.Length && buffer[..][..bodySize] == Delivery(boundary, carried).Text()
  {
    code, bodySize := FinishBody(buffer, remaining, boundary, carried);
  }

  /** Fills a buffer with the body of the selected items. */
  method FillBody(store: Store<Cargo>, buffer: array<char>, boundary: Boundary, surroundings: Surroundings<Conditions>,
                  ghost nodes: seq<Node<StoreItem<Cargo>>>, ghost chosen: seq<Entry<Cargo>>)
    returns (code: Code, bodySize: nat, ghost now: seq<Entry<Cargo>>, ghost carried: seq<Carried<Cargo>>)
    requires store.Is(nodes, 0, chosen)
    modifies store.list`current, store.list`pos, store.Items(), buffer
    ensures store.Valid() && store.list.nodes == nodes && store.Entries() == now
    ensures now == BuiltEntries(ItemKind(), chosen, surroundings, buffer.Length)
    ensures carried == BuiltBody(ItemKind(), chosen, surroundings, buffer.Length)
    ensures code == if carried != [] && TuplesLength(Parts(carried)) + MULTIPART_CLOSE_LENGTH <= buffer.Length
                    then Ok else Fail
    ensures code == Ok ==>
              bodySize <= buffer.Length && buffer[..][..bodySize] == Delivery(boundary, carried).Text()
  {
    var remaining;
    ghost var pos;
    remaining, now, carried, pos := AddAllSelected(store, buffer, boundary, surroundings, nodes, chosen);
    code, bodySize := FinishStoreBody(store, buffer, remaining, boundary, nodes, pos, now, carried);
  }

  method PrepareBodyForStore(store: Store<Cargo>, max: nat, boundary: Boundary, surroundings: Surroundings<Conditions>)
    returns (code: Code, body: array?<char>, bodySize: nat, ghost now: seq<Entry<Cargo>>,
             ghost carried: seq<Carried<Cargo>>)
    requires store.Valid() && MULTIPART_CLOSE_LENGTH <= max
    modifies store.list`current, store.list`pos, store.Items()
    ensures store.Valid() && store.list.nodes == old(store.list.nodes) && store.Entries() == now
    ensures var es := old(store.Entries());
            var chosen, room := Select(es, Space(max)), BufferSize(es, max);
            if !surroundings.bodyAllocated then now == chosen && code == OutOfMemory
            else
              && now == BuiltEntries(ItemKind(), chosen, surroundings, room)
              && carried == BuiltBody(ItemKind(), chosen, surroundings, room)
              && code == if Closes(es, max, carried) then Ok else Fail
    ensures code == Ok ==>
              && body != null && bodySize <= body.Length
              && body[..][..bodySize] == Delivery(boundary, carried).Text()
    ensures code == Ok ==> bodySize <= max
  {
    ghost var es, nodes := store.Entries(), store.list.nodes;
    body, bodySize, now, carried := null, 0, Select(es, Space(max)), [];
    var needed := store.SelectItems(max);
    if !surroundings.bodyAllocated {
      return OutOfMemory, null, 0, now, carried;
    }
    var buffer := new char[needed];
    code, bodySize, now, carried := FillBody(store, buffer, boundary, surroundings, nodes, now);
    if code == Ok {
      body := buffer;
    }
  }

  // ----- rounds -----

  function SentText<T>(sent: Option<Delivery<T>>): string {
    match sent
    case Some(d) => d.Text()
    case None => ""
  }

  /** Prepares and sends a body.  The text is what was sent, whatever the answer is; none, if it did not
      come to that. */
  method Attempt(store: Store<Cargo>, max: nat, surroundings: Surroundings<Conditions>)
    returns (code: Code, text: string, ghost now: seq<Entry<Cargo>>, ghost carried: seq<Carried<Cargo>>)
    requires store.Valid() && MULTIPART_CLOSE_LENGTH <= max
    modifies store.list`current, store.list`pos, store.Items()
    ensures store.Valid() && store.list.nodes == old(store.list.nodes) && store.Entries() == now
    ensures text == SentText(Sent(ItemKind(), old(store.Entries()), max, surroundings)) && |text| <= max
    ensures var o := Round(ItemKind(), old(store.Entries()), max, surroundings);
            if code != Ok then o == Failed(now, code)
            else
              && surroundings.boundary.Success?
              && text == Delivery(surroundings.boundary.value, carried).Text()
              && o == Accepted(now, Delivery(surroundings.boundary.value, carried))
  {
    text, now, carried := "", store.Entries(), [];
    if surroundings.boundary.Failure? {
      return surroundings.boundary.code, text, now, carried;
    }
    var boundary := surroundings.boundary.value;
    var body, bodySize;
    code, body, bodySize, now, carried := PrepareBodyForStore(store, max, boundary, surroundings);
    if code == Ok {
      text := body[..][..bodySize];
      code := surroundings.answer;
    }
  }

  /** After an attempt: what was accepted leaves the store; when nothing more can be sent, or something
      went wrong, all items become ready again. */
  method ScanStoreAfterExchange(store: Store<Cargo>, response: Code, fullyProcessed: bool,
                                ghost delivery: Option<Delivery<Cargo>>)
    returns (code: Code, finished: bool)
    requires store.Valid() && (response == Ok ==> delivery.Some?)
    modifies store.list, store.list.nodes, store.Items()
    ensures store.Valid() && Among(store.list.nodes, old(store.list.nodes))
    ensures response != Ok ==> code == response && finished == fullyProcessed
                               && store.Entries() == Revert(old(store.Entries()))
    ensures response == Ok ==>
              var o := Accepted(old(store.Entries()), delivery.value);
              code == o.code && finished == o.finished && store.Entries() == o.entries
  {
    code, finished := response, fullyProcessed;
    if code == Ok {
      finished := store.RemoveUploaded();
    }
    EntriesAre(store.Items());
    if (finished && store.list.count != 0) || code != Ok {
      store.RevertStatus();
      if code == Ok {
        code := ItemExceedsMaxHttpRequestSize;
      }
    }
  }

  /** The texts of what was delivered. */
  function Texts<T>(ds: seq<Delivery<T>>): seq<string> {
    if ds == [] then [] else [ds[0].Text()] + Texts(ds[1..])
  }

  lemma {:induction false} TextsConcat<T>(ds: seq<Delivery<T>>, others: seq<Delivery<T>>)
    ensures Texts(ds + others) == Texts(ds) + Texts(others)
  {
    if ds == [] {
      assert ds + others == others;
    } else {
      assert (ds + others)[1..] == ds[1..] + others;
      TextsConcat(ds[1..], others);
    }
  }

  lemma TextsOne<T>(d: Delivery<T>)
    ensures Texts([d]) == [d.Text()]
  {
    assert [d][1..] == [];
  }

  /** One pass of the exchange loop; `code` tells whether there is anything to attempt. */
  method Pass(store: Store<Cargo>, max: nat, surroundings: Surroundings<Conditions>)
    returns (code: Code, finished: bool, texts: seq<string>, ghost o: Outcome<Cargo>)
    requires store.Valid() && MULTIPART_CLOSE_LENGTH <= max
    modifies store.list, store.list.nodes, store.Items()
    ensures store.Valid() && Among(store.list.nodes, old(store.list.nodes))
    ensures o == Round(ItemKind(), old(store.Entries()), max, surroundings)
    ensures code == o.code && finished == o.finished && store.Entries() == o.entries && texts == Texts(o.accepted)
  {
    o := Round(ItemKind(), store.Entries(), max, surroundings);
    var response, text;
    ghost var now, carried;
    response, text, now, carried := Attempt(store, max, surroundings);
    ghost var delivery := None;
    if response == Ok {
      delivery := Some(Delivery(surroundings.boundary.value, carried));
      TextsOne(delivery.value);
      assert o == Accepted(now, delivery.value);
    } else {
      assert o == Failed(now, response);
    }
    code, finished := ScanStoreAfterExchange(store, response, false, delivery);
    texts := if response == Ok then [text] else [];
  }

  /** The rest of an exchange: what all rounds together come to, after some of them. */
  ghost predicate Remains<T(!new), C(!new)>(kind: Kind<T, C>, total: Outcome<T>, done: seq<Delivery<T>>, es: seq<Entry<T>>,
                                            max: nat, world: World<C>, k: nat, code: Code, finished: bool)
  {
    if code == Ok && !finished then
      MULTIPART_CLOSE_LENGTH <= max
      && var rest := Rounds(kind, es, max, world, k);
      total.code == rest.code && total.entries == rest.entries && total.accepted == done + rest.accepted
    else total.code == code && total.entries == es && total.accepted == done
  }

  lemma RoundsStart<T(!new), C(!new)>(kind: Kind<T, C>, es: seq<Entry<T>>, max: nat, world: World<C>)
    requires MULTIPART_CLOSE_LENGTH <= max
    ensures Remains(kind, Rounds(kind, es, max, world, 0), [], es, max, world, 0, Ok, false)
  {
  }

  lemma RoundsGoOn<T(!new), C(!new)>(kind: Kind<T, C>, total: Outcome<T>, done: seq<Delivery<T>>, es: seq<Entry<T>>,
                                     max: nat, world: World<C>, k: nat, next: nat, first: Outcome<T>)
    requires next == k + 1 && MULTIPART_CLOSE_LENGTH <= max && first == Round(kind, es, max, world.Round(k))
    requires first.code == Ok && !first.finished
    requires var all := Rounds(kind, es, max, world, k);
             total.code == all.code && total.entries == all.entries && total.accepted == done + all.accepted
    ensures var rest := Rounds(kind, first.entries, max, world, next);
            total.code == rest.code && total.entries == rest.entries
            && total.accepted == (done + first.accepted) + rest.accepted
  {
    RoundsUnfold(kind, es, max, world, k, first);
    SameRounds(kind, first.entries, max, world, k + 1, next);
    Associate(done, first.accepted, Rounds(kind, first.entries, max, world, next).accepted);
  }

  lemma RoundsStep<T(!new), C(!new)>(kind: Kind<T, C>, total: Outcome<T>, done: seq<Delivery<T>>, es: seq<Entry<T>>,
                                     max: nat, world: World<C>, k: nat, next: nat, first: Outcome<T>)
    requires next == k + 1 && MULTIPART_CLOSE_LENGTH <= max && first == Round(kind, es, max, world.Round(k))
    requires Remains(kind, total, done, es, max, world, k, Ok, false)
    ensures Remains(kind, total, done + first.accepted, first.entries, max, world, next, first.code, first.finished)
    ensures first.code == Ok ==> |first.entries| < |es|
  {
    RoundRemoves(kind, es, max, world.Round(k));
    if first.code == Ok && !first.finished {
      RoundsGoOn(kind, total, done, es, max, world, k, next, first);
    } else {
      RoundsUnfold(kind, es, max, world, k, first);
    }
  }

  /** The exchange of a store, with the texts of the bodies the server has accepted. */
  method ConnectivityExchange(store: Store<Cargo>, max: nat, world: World<Conditions>)
    returns (code: Code, texts: seq<string>)
    requires store.Valid()
    modifies store.list, store.list.nodes, store.Items()
    ensures store.Valid() && Among(store.list.nodes, old(store.list.nodes))
    ensures var o := ExchangeStore(ItemKind(), old(store.Entries()), max, world);
            code == o.code && store.Entries() == o.entries && texts == Texts(o.accepted)
  {
    ghost var all, es, done := store.list.nodes, store.Entries(), [];
    var finished, k := false, 0;
    texts := [];
    code := CheckStoreSize(store, max);
    ghost var checked := store.Entries();
    if code != Ok {
      code, finished := ScanStoreAfterExchange(store, code, finished, None);
      return;
    }
    ghost var total := Rounds(ItemKind(), checked, max, world, 0);
    RoundsStart(ItemKind(), checked, max, world);
    while code == Ok && !finished
      invariant store.Valid() && Among(store.list.nodes, all)
      invariant texts == Texts(done)
      invariant Remains(ItemKind(), total, done, store.Entries(), max, world, k, code, finished)
      decreases code == Ok && !finished, |store.Entries()|
    {
      var next := k + 1;
      var more;
      ghost var o, before := Round(ItemKind(), store.Entries(), max, world.Round(k)), store.Entries();
      AmongHeld(store.list.nodes, all);
      code, finished, more, o := Pass(store, max, world.Round(k));
      RoundsStep(ItemKind(), total, done, before, max, world, k, next, o);
      TextsConcat(done, o.accepted);
      done, texts := done + o.accepted, texts + more;
      k := next;
    }
  }

  /** The result of the exchange of a valid item: the first error of its steps. */
  function SingleCode<C>(source: Source, estimate: nat, max: nat, surroundings: Surroundings<C>): Code {
    if surroundings.boundary.Failure? then surroundings.boundary.code
    else
      var code := ItemCode(source, estimate, max, surroundings.bodyAllocated);
      if code != Ok then code else surroundings.answer
  }

  /** The same in plain terms, error by error. */
  lemma SingleCodeIs<C>(source: Source, estimate: nat, max: nat, surroundings: Surroundings<C>)
    requires estimate >= 247
    ensures var code := SingleCode(source, estimate, max, surroundings);
            if surroundings.boundary.Failure? then code == surroundings.boundary.code
            else if 24 + estimate > max then code == ItemExceedsMaxHttpRequestSize
            else if !surroundings.bodyAllocated then code == OutOfMemory
            else if source.sub.Failure? then code == source.sub.code
            else if source.meta.Failure? then code == source.meta.code
            else
              match source.payload
              case FromJson(Failure(error)) =>
                code == if 219 + |source.meta.value| + |source.contentType| < 24 + estimate then error else Fail
              case _ => code == if TupleLength(source.ToPart().value) <= estimate then surroundings.answer else Fail
  {
    BodyCodeIs(source, 24 + estimate);
  }

  /** The exchange of a single item, with the text the server has accepted. */
  method ExchangeItem(item: Built, max: nat, surroundings: Surroundings<Conditions>, id: nat)
    returns (code: Code, text: string)
    ensures Candidate(item).None? ==> code == InvalidParameter
    ensures Candidate(item).Some? ==>
              var cargo: Cargo := item;
              var part := ItemKind().PartOf(cargo, surroundings.ConditionsOf(id));
              && code == SingleCode(ItemKind().SourceOf(cargo, surroundings.ConditionsOf(id)),
                                    ItemKind().EstimateOf(cargo), max, surroundings)
              && (code == ItemExceedsMaxHttpRequestSize
                  <==> surroundings.boundary.Success? && !Eligible(ItemKind(), cargo, max))
              && (code == Ok <==>
                    && Undisturbed(surroundings) && Eligible(ItemKind(), cargo, max)
                    && part.Some? && TupleLength(part.value) <= ItemKind().EstimateOf(cargo))
              && (code == Ok ==>
                    && text == Delivery(surroundings.boundary.value, [Carried(id, cargo, part.value)]).Text()
                    && |text| <= max)
    ensures code != Ok ==> text == ""
  {
    text := "";
    var candidate := Candidate(item);
    if candidate.None? {
      return InvalidParameter, text;
    }
    if surroundings.boundary.Failure? {
      return surroundings.boundary.code, text;
    }
    var body, bodySize;
    code, body, bodySize := PrepareBodyForItem(candidate.value, id, max, surroundings.boundary.value,
                                               surroundings.bodyAllocated, surroundings.ConditionsOf(id));
    if code == Ok {
      code := surroundings.answer;
      if code == Ok {
        text := body[..][..bodySize];
      }
    }
  }
}
