/** Stores whose items fit into one body by their estimates: when one body is enough, when nothing is
    sent, and when it takes several. */
module OneBody {
  import opened Core
  import opened Multipart
  import opened Receiver
  import opened Exchange
  import opened ExchangeProofs
  import opened Selection
  import opened ExitStates
  import opened Progress

  function TotalEstimate<T(!new), C(!new)>(kind: Kind<T, C>, es: seq<Entry<T>>): nat {
    if es == [] then 0 else kind.EstimateOf(es[0].item) + TotalEstimate(kind, es[1..])
  }

  /** The length of all texts; an item that cannot be built has none. */
  function TotalLength<T(!new), C(!new)>(kind: Kind<T, C>, es: seq<Entry<T>>, surroundings: Surroundings<C>): nat {
    if es == [] then 0
    else LengthOf(kind, es[0].(status := Selected), surroundings) + TotalLength(kind, es[1..], surroundings)
  }

  ghost predicate PartsExist<T(!new), C(!new)>(kind: Kind<T, C>, es: seq<Entry<T>>, surroundings: Surroundings<C>) {
    forall i :: 0 <= i < |es| ==> kind.PartOf(es[i].item, surroundings.ConditionsOf(es[i].id)).Some?
  }

  lemma {:induction false} AllSelected<T(!new), C(!new)>(kind: Kind<T, C>, es: seq<Entry<T>>,
                                                         surroundings: Surroundings<C>, room: nat)
    requires TotalEstimate(kind, es) <= room && Sized(kind, es)
    ensures var chosen := Select(es, room);
            && (forall i :: 0 <= i < |es| ==> chosen[i] == es[i].(status := Selected))
            && SelectedSize(chosen) == TotalEstimate(kind, es)
            && WrittenLength(kind, chosen, surroundings) == TotalLength(kind, es, surroundings)
  {
    if es != [] {
      AllSelected(kind, es[1..], surroundings, room - es[0].size);
      var chosen, rest := Select(es, room), Select(es[1..], room - es[0].size);
      assert chosen[1..] == rest;
      assert forall i :: 1 <= i < |es| ==> chosen[i] == rest[i - 1] && es[i] == es[1..][i - 1];
    }
  }

  lemma {:induction false} EachWithinTotal<T(!new), C(!new)>(kind: Kind<T, C>, es: seq<Entry<T>>, i: nat)
    requires i < |es|
    ensures kind.EstimateOf(es[i].item) <= TotalEstimate(kind, es)
  {
    if i > 0 {
      EachWithinTotal(kind, es[1..], i - 1);
    }
  }

  lemma {:induction false} CheckKeepsTotals<T(!new), C(!new)>(kind: Kind<T, C>, es: seq<Entry<T>>, max: nat,
                                                              surroundings: Surroundings<C>)
    ensures var checked := CheckEntries(kind, es, max);
            && TotalEstimate(kind, checked) == TotalEstimate(kind, es)
            && TotalLength(kind, checked, surroundings) == TotalLength(kind, es, surroundings)
            && (PartsExist(kind, checked, surroundings) <==> PartsExist(kind, es, surroundings))
  {
    if es != [] {
      CheckKeepsTotals(kind, es[1..], max, surroundings);
      var checked := CheckEntries(kind, es, max);
      assert checked[1..] == CheckEntries(kind, es[1..], max);
      assert forall i :: 0 <= i < |es| ==> checked[i].item == es[i].item && checked[i].id == es[i].id;
    }
  }

  lemma {:induction false} NothingLeft<T>(es: seq<Entry<T>>)
    ensures AfterAccept(es) == [] <==> forall i :: 0 <= i < |es| ==> es[i].status == Processed
  {
    if es != [] {
      NothingLeft(es[1..]);
      assert forall i :: 1 <= i < |es| ==> es[i] == es[1..][i - 1];
      assert forall i :: 0 <= i < |es[1..]| ==> es[1..][i] == es[i + 1];
    }
  }

  /** Being processed and leaving the store are the same when everything was selected. */
  lemma EmptiesIff<T>(selected: seq<Entry<T>>, built: seq<Entry<T>>, es: seq<Entry<T>>)
    requires |built| == |selected| == |es| && Cores(built) == Cores(selected)
    requires forall i :: 0 <= i < |es| ==> selected[i] == es[i].(status := Selected)
    requires forall i :: 0 <= i < |es| ==> built[i] == selected[i] || built[i] == selected[i].(status := Processed)
    ensures AfterAccept(built) == [] <==> AllProcessed(selected, built)
  {
    NothingLeft(built);
    forall i | 0 <= i < |es| ensures built[i].status == Processed <==> built[i] == IfProcessed(selected[i]) {
    }
  }

  lemma {:induction false} BuiltOrNot<T(!new), C(!new)>(kind: Kind<T, C>, es: seq<Entry<T>>,
                                                        surroundings: Surroundings<C>, room: nat)
    ensures var built := BuiltEntries(kind, es, surroundings, room);
            forall i :: 0 <= i < |es| ==> built[i] == es[i] || built[i] == es[i].(status := Processed)
  {
    if es != [] {
      var after := RoomAfter(kind, es[0], surroundings, room);
      BuiltOrNot(kind, es[1..], surroundings, after);
      var built, rest := BuiltEntries(kind, es, surroundings, room), BuiltEntries(kind, es[1..], surroundings, after);
      assert forall i :: 1 <= i < |es| ==> built[i] == rest[i - 1] && es[i] == es[1..][i - 1];
    }
  }

  lemma AcceptedEmpties<T>(built: seq<Entry<T>>, d: Delivery<T>)
    ensures var o := Accepted(built, d);
            && (o.entries == [] <==> AfterAccept(built) == [])
            && (o.entries == [] ==> o.code == Ok && o.finished)
  {
    NothingLeft(built);
  }

  /** When everything is selected, it all leaves exactly if it all becomes processed. */
  lemma AllLeave<T(!new), C(!new)>(kind: Kind<T, C>, es: seq<Entry<T>>, chosen: seq<Entry<T>>,
                                   surroundings: Surroundings<C>, room: nat)
    requires |chosen| == |es| && forall i :: 0 <= i < |es| ==> chosen[i] == es[i].(status := Selected)
    ensures var built := BuiltEntries(kind, chosen, surroundings, room);
            AfterAccept(built) == [] <==> AllProcessed(chosen, built)
    ensures SelectedExist(kind, chosen, surroundings) <==> PartsExist(kind, es, surroundings)
  {
    BuildKeepsItems(kind, chosen, surroundings, room);
    BuiltOrNot(kind, chosen, surroundings, room);
    EmptiesIff(chosen, BuiltEntries(kind, chosen, surroundings, room), es);
    assert forall i :: 0 <= i < |es| ==> chosen[i].item == es[i].item && chosen[i].id == es[i].id;
  }

  lemma OneRound<T(!new), C(!new)>(kind: Kind<T, C>, es: seq<Entry<T>>, max: nat, surroundings: Surroundings<C>)
    requires es != [] && Checked(kind, es, max) && MULTIPART_CLOSE_LENGTH + TotalEstimate(kind, es) <= max
    requires Undisturbed(surroundings)
    ensures var o := Round(kind, es, max, surroundings);
            && (o.accepted != [] && o.entries == []
                <==> PartsExist(kind, es, surroundings)
                     && TotalLength(kind, es, surroundings) <= TotalEstimate(kind, es))
            && (o.accepted != [] && o.entries == [] ==> o.code == Ok && o.finished)
  {
    EachWithinTotal(kind, es, 0);
    assert !AllIgnored(kind, es, max);
    var chosen, room := Select(es, Space(max)), BufferSize(es, max);
    AllSelected(kind, es, surroundings, Space(max));
    RoundDeliversAll(kind, es, max, surroundings);
    RoundByBody(kind, es, max, surroundings);
    AllLeave(kind, es, chosen, surroundings, room);
    AcceptedEmpties(BuiltEntries(kind, chosen, surroundings, room),
                    Delivery(surroundings.boundary.value, BuiltBody(kind, chosen, surroundings, room)));
  }

  // ----- one body for the whole store -----

  lemma RejectedKeepsAll<T(!new), C(!new)>(kind: Kind<T, C>, es: seq<Entry<T>>, max: nat, surroundings: Surroundings<C>)
    requires MULTIPART_CLOSE_LENGTH <= max
    ensures var o := Round(kind, es, max, surroundings);
            |o.accepted| <= 1 && (o.accepted == [] ==> |o.entries| == |es| && o.code != Ok)
  {
  }

  lemma EmptiedByBodies<T(!new), C(!new)>(kind: Kind<T, C>, es: seq<Entry<T>>, max: nat, world: World<C>, k: nat)
    requires MULTIPART_CLOSE_LENGTH <= max && es != []
    ensures var o := Rounds(kind, es, max, world, k); o.entries == [] ==> o.accepted != []
  {
    RejectedKeepsAll(kind, es, max, world.Round(k));
  }

  /** Only a first round that leaves nothing can empty the store with a single body. */
  lemma EmptiedAtOnce<T(!new), C(!new)>(kind: Kind<T, C>, es: seq<Entry<T>>, max: nat, world: World<C>, first: Outcome<T>)
    requires MULTIPART_CLOSE_LENGTH <= max && Checked(kind, es, max) && !AllIgnored(kind, es, max)
    requires first == Round(kind, es, max, world.Round(0))
    ensures var o := Rounds(kind, es, max, world, 0);
            |o.accepted| == 1 && o.entries == [] <==> first.accepted != [] && first.entries == []
  {
    RejectedKeepsAll(kind, es, max, world.Round(0));
    RoundEnds(kind, es, max, world.Round(0));
    if first.code == Ok && !first.finished {
      EmptiedByBodies(kind, first.entries, max, world, 1);
    }
  }

  /** A store whose items fit into one body by their estimates is emptied by one body exactly if every
      item can be built and the texts do not exceed the estimates, taken together. */
  lemma StoreInOneBody<T(!new), C(!new)>(kind: Kind<T, C>, es: seq<Entry<T>>, max: nat, world: World<C>)
    requires AllReady(es) && es != [] && MULTIPART_CLOSE_LENGTH + TotalEstimate(kind, es) <= max
    requires Undisturbed(world.Round(0))
    ensures var o := ExchangeStore(kind, es, max, world);
            && (|o.accepted| == 1 && o.entries == []
                <==> PartsExist(kind, es, world.Round(0))
                     && TotalLength(kind, es, world.Round(0)) <= TotalEstimate(kind, es))
            && (o.entries == [] ==> o.code == Ok)
  {
    var checked := CheckEntries(kind, es, max);
    EachWithinTotal(kind, es, 0);
    assert !AllIgnored(kind, es, max);
    CheckMarks(kind, es, max);
    CheckKeepsItems(kind, es, max);
    SameItemsIgnored(kind, es, checked, max);
    CheckKeepsTotals(kind, es, max, world.Round(0));
    OneRound(kind, checked, max, world.Round(0));
    EmptiedAtOnce(kind, checked, max, world, Round(kind, checked, max, world.Round(0)));
    ExchangeEnds(kind, es, max, world);
  }

  /** Texts that exceed the estimates by no more than the closing delimiter takes: nothing at all is
      sent. */
  lemma NothingIsSent<T(!new), C(!new)>(kind: Kind<T, C>, es: seq<Entry<T>>, max: nat, world: World<C>)
    requires AllReady(es) && es != [] && MULTIPART_CLOSE_LENGTH + TotalEstimate(kind, es) <= max
    requires Undisturbed(world.Round(0))
    requires TotalEstimate(kind, es) < TotalLength(kind, es, world.Round(0))
             <= TotalEstimate(kind, es) + MULTIPART_CLOSE_LENGTH
    ensures var o := ExchangeStore(kind, es, max, world);
            o.code == Fail && o.accepted == [] && Cores(o.entries) == Cores(es)
  {
    EachWithinTotal(kind, es, 0);
    assert !AllIgnored(kind, es, max);
    CheckKeepsTotals(kind, es, max, world.Round(0));
    AllSelected(kind, CheckEntries(kind, es, max), world.Round(0), Space(max));
    FirstRoundFails(kind, es, max, world);
  }

  // ----- one item -----

  lemma OnlyElement<X>(s: seq<X>, x: X)
    requires multiset(s) == multiset{x}
    ensures s == [x]
  {
    assert |s| == |multiset(s)| == 1;
    assert s[0] in multiset(s);
  }

  lemma OnlyDelivery<T>(x: Stored<T>, o: Outcome<T>)
    requires Conserves([x], o) && |o.accepted| == 1 && o.entries == []
    ensures CarriedCores(o.accepted[0].carried) == [x]
  {
    assert o.accepted == [o.accepted[0]];
    DeliveredOnce(o.accepted[0]);
    OnlyElement(CarriedCores(o.accepted[0].carried), x);
  }

  /** If a store of one item is emptied by one body, the body carries that item. */
  lemma OneDelivery<T(!new), C(!new)>(kind: Kind<T, C>, e: Entry<T>, max: nat, world: World<C>)
    requires e.status == Ready
    requires var o := ExchangeStore(kind, [e], max, world); |o.accepted| == 1 && o.entries == []
    ensures var carried := ExchangeStore(kind, [e], max, world).accepted[0].carried;
            |carried| == 1 && carried[0].id == e.id && carried[0].item == e.item
  {
    assert [e][1..] == [] && Cores([e]) == [Stored(e.id, e.item)];
    ExchangeConserves(kind, [e], max, world, 0);
    OnlyDelivery(Stored(e.id, e.item), ExchangeStore(kind, [e], max, world));
  }

  /** A single item that keeps its estimate, in a store of its own, is sent and leaves. */
  lemma OneWritableIsSent<T(!new), C(!new)>(kind: Kind<T, C>, e: Entry<T>, max: nat, world: World<C>)
    requires e.status == Ready && Undisturbed(world.Round(0)) && Writable(kind, e.id, e.item, world.Round(0))
    requires MULTIPART_CLOSE_LENGTH + kind.EstimateOf(e.item) <= max
    ensures var o := ExchangeStore(kind, [e], max, world);
            && o.code == Ok && o.entries == [] && |o.accepted| == 1
            && o.accepted[0].carried
               == [Carried(e.id, e.item, kind.PartOf(e.item, world.Round(0).ConditionsOf(e.id)).value)]
  {
    var o := ExchangeStore(kind, [e], max, world);
    assert [e][1..] == [];
    StoreInOneBody(kind, [e], max, world);
    OneDelivery(kind, e, max, world);
    ExchangeIsSound(kind, [e], max, world);
    assert o.accepted[0].carried == [o.accepted[0].carried[0]];
  }

  // ----- two items -----

  /** The length of an item's text, nothing if it cannot be built. */
  function TextLength<T(!new), C(!new)>(kind: Kind<T, C>, id: nat, item: T, surroundings: Surroundings<C>): nat {
    var part := kind.PartOf(item, surroundings.ConditionsOf(id));
    if part.Some? then TupleLength(part.value) else 0
  }

  lemma TotalsOfTwo<T(!new), C(!new)>(kind: Kind<T, C>, first: Entry<T>, second: Entry<T>, surroundings: Surroundings<C>)
    ensures TotalEstimate(kind, [first, second]) == kind.EstimateOf(first.item) + kind.EstimateOf(second.item)
    ensures TotalLength(kind, [first, second], surroundings)
            == TextLength(kind, first.id, first.item, surroundings) + TextLength(kind, second.id, second.item, surroundings)
  {
    assert [first, second][1..] == [second] && [second][1..] == [];
    assert TotalEstimate(kind, [second]) == kind.EstimateOf(second.item);
    assert TotalLength(kind, [second], surroundings) == TextLength(kind, second.id, second.item, surroundings);
  }

  /** One item that is a little longer than estimated keeps the other one from being sent. */
  lemma OneItemBlocksOther<T(!new), C(!new)>(kind: Kind<T, C>, es: seq<Entry<T>>, max: nat, world: World<C>)
    requires AllReady(es) && |es| == 2 && Undisturbed(world.Round(0))
    requires MULTIPART_CLOSE_LENGTH + kind.EstimateOf(es[0].item) + kind.EstimateOf(es[1].item) <= max
    requires TextLength(kind, es[0].id, es[0].item, world.Round(0)) == kind.EstimateOf(es[0].item)
    requires kind.EstimateOf(es[1].item) < TextLength(kind, es[1].id, es[1].item, world.Round(0))
             <= kind.EstimateOf(es[1].item) + MULTIPART_CLOSE_LENGTH
    ensures var o := ExchangeStore(kind, es, max, world);
            o.code == Fail && o.accepted == [] && Cores(o.entries) == Cores(es)
  {
    assert es == [es[0], es[1]];
    TotalsOfTwo(kind, es[0], es[1], world.Round(0));
    NothingIsSent(kind, es, max, world);
  }

  /** The first of two selected entries is written, and leaves too little room for the second. */
  lemma SecondDoesNotFit<T(!new), C(!new)>(kind: Kind<T, C>, a: Entry<T>, b: Entry<T>, surroundings: Surroundings<C>,
                                           room: nat)
    requires a.status == Selected && b.status == Selected
    requires 0 < TextLength(kind, a.id, a.item, surroundings) <= room
    requires room < TextLength(kind, a.id, a.item, surroundings) + TextLength(kind, b.id, b.item, surroundings)
    ensures BuiltEntries(kind, [a, b], surroundings, room) == [a.(status := Processed), b]
    ensures var body := BuiltBody(kind, [a, b], surroundings, room);
            body != [] && TuplesLength(Parts(body)) == TextLength(kind, a.id, a.item, surroundings)
  {
    var after := RoomAfter(kind, a, surroundings, room);
    assert [a, b][1..] == [b] && [b][1..] == [];
    assert BuiltEntries(kind, [b], surroundings, after) == [b];
    assert BuiltBody(kind, [b], surroundings, after) == [];
    var part := kind.PartOf(a.item, surroundings.ConditionsOf(a.id)).value;
    assert BuiltBody(kind, [a, b], surroundings, room) == [Carried(a.id, a.item, part)];
    assert Parts([Carried(a.id, a.item, part)]) == [part] && [part][1..] == [];
  }

  lemma SelectedStays<T>(e: Entry<T>)
    requires e.status == Selected
    ensures AfterAccept([e]) == [e.(status := Ready)]
  {
    assert [e][1..] == [];
    assert AfterAccept([e]) == [e.(status := Ready)] + AfterAccept([]);
  }

  lemma FirstOfTwo<T(!new), C(!new)>(kind: Kind<T, C>, es: seq<Entry<T>>, max: nat, surroundings: Surroundings<C>)
    requires |es| == 2 && Checked(kind, es, max) && Undisturbed(surroundings)
    requires MULTIPART_CLOSE_LENGTH + TotalEstimate(kind, es) <= max
    requires 0 < TextLength(kind, es[0].id, es[0].item, surroundings) <= TotalEstimate(kind, es)
    requires TotalEstimate(kind, es) + MULTIPART_CLOSE_LENGTH < TotalLength(kind, es, surroundings)
    ensures var o := Round(kind, es, max, surroundings);
            o.code == Ok && !o.finished && |o.accepted| == 1 && o.entries == [es[1]]
  {
    var chosen, room := Select(es, Space(max)), BufferSize(es, max);
    AllSelected(kind, es, surroundings, Space(max));
    RoundByBody(kind, es, max, surroundings);
    assert es == [es[0], es[1]];
    TotalsOfTwo(kind, es[0], es[1], surroundings);
    EachWithinTotal(kind, es, 1);
    var a, b := es[0].(status := Selected), es[1].(status := Selected);
    assert chosen == [a, b];
    SecondDoesNotFit(kind, a, b, surroundings, room);
    var built := [a.(status := Processed), b];
    assert built[1..] == [b] && [b][1..] == [];
    SelectedStays(b);
    assert b.(status := Ready) == es[1];
    assert AfterAccept(built) == AfterAccept(built[1..]);
    assert built[1].status == Selected;
  }

  lemma OneAlone<T(!new), C(!new)>(kind: Kind<T, C>, e: Entry<T>, max: nat, surroundings: Surroundings<C>)
    requires Checked(kind, [e], max) && Undisturbed(surroundings)
    requires MULTIPART_CLOSE_LENGTH + kind.EstimateOf(e.item) <= max
    requires 0 < TextLength(kind, e.id, e.item, surroundings) <= kind.EstimateOf(e.item)
    ensures var o := Round(kind, [e], max, surroundings);
            o.code == Ok && o.finished && |o.accepted| == 1 && o.entries == []
  {
    var es := [e];
    assert es[1..] == [];
    assert TotalEstimate(kind, es) == kind.EstimateOf(e.item);
    assert TotalLength(kind, es, surroundings) == TextLength(kind, e.id, e.item, surroundings);
    OneRound(kind, es, max, surroundings);
    RejectedKeepsAll(kind, es, max, surroundings);
  }

  /** A first round that goes on, and a second one that is the last. */
  lemma TwoRounds<T(!new), C(!new)>(kind: Kind<T, C>, es: seq<Entry<T>>, max: nat, world: World<C>, first: Outcome<T>,
                                    second: Outcome<T>)
    requires MULTIPART_CLOSE_LENGTH <= max && first == Round(kind, es, max, world.Round(0))
    requires first.code == Ok && !first.finished && second == Round(kind, first.entries, max, world.Round(1))
    requires second.finished
    ensures Rounds(kind, es, max, world, 0) == second.(accepted := first.accepted + second.accepted)
  {
    RoundsUnfold(kind, es, max, world, 0, first);
    RoundsUnfold(kind, first.entries, max, world, 1, second);
  }

  /** Beyond that, a text that is much too long only leaves no room for others in its own body: the
      store is emptied by two bodies. */
  lemma TwoBodies<T(!new), C(!new)>(kind: Kind<T, C>, es: seq<Entry<T>>, max: nat, world: World<C>)
    requires AllReady(es) && |es| == 2 && Undisturbed(world.Round(0)) && Undisturbed(world.Round(1))
    requires MULTIPART_CLOSE_LENGTH + TotalEstimate(kind, es) <= max
    requires 0 < TextLength(kind, es[0].id, es[0].item, world.Round(0)) <= TotalEstimate(kind, es)
    requires TotalEstimate(kind, es) + MULTIPART_CLOSE_LENGTH < TotalLength(kind, es, world.Round(0))
    requires 0 < TextLength(kind, es[1].id, es[1].item, world.Round(1)) <= kind.EstimateOf(es[1].item)
    ensures var o := ExchangeStore(kind, es, max, world);
            o.code == Ok && |o.accepted| == 2 && o.entries == []
  {
    var checked := CheckEntries(kind, es, max);
    EachWithinTotal(kind, es, 0);
    EachWithinTotal(kind, es, 1);
    assert !AllIgnored(kind, es, max);
    CheckMarks(kind, es, max);
    CheckKeepsTotals(kind, es, max, world.Round(0));
    FirstOfTwo(kind, checked, max, world.Round(0));
    OneAlone(kind, checked[1], max, world.Round(1));
    TwoRounds(kind, checked, max, world, Round(kind, checked, max, world.Round(0)),
              Round(kind, [checked[1]], max, world.Round(1)));
  }
}
