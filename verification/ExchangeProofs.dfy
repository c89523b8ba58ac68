/** What holds of every exchange: conservation, order, exit states, bounds, and progress. */
module ExchangeProofs {
  import opened Core
  import opened Multipart
  import opened Exchange

  // ----- entries without their bookkeeping -----

  /** Which item an entry is. */
  datatype Stored<T> = Stored(id: nat, item: T)

  function Cores<T>(es: seq<Entry<T>>): (r: seq<Stored<T>>)
    ensures |r| == |es|
    ensures forall i :: 0 <= i < |es| ==> r[i] == Stored(es[i].id, es[i].item)
  {
    if es == [] then [] else [Stored(es[0].id, es[0].item)] + Cores(es[1..])
  }

  function CarriedCores<T>(carried: seq<Carried<T>>): (r: seq<Stored<T>>)
    ensures |r| == |carried|
    ensures forall i :: 0 <= i < |carried| ==> r[i] == Stored(carried[i].id, carried[i].item)
  {
    if carried == [] then [] else [Stored(carried[0].id, carried[0].item)] + CarriedCores(carried[1..])
  }

  /** Everything that accepted bodies carried, in the order of sending. */
  function DeliveredCores<T>(ds: seq<Delivery<T>>): seq<Stored<T>> {
    if ds == [] then [] else CarriedCores(ds[0].carried) + DeliveredCores(ds[1..])
  }

  /** Ids strictly increase, and none is below the given one. */
  predicate Ascending<T>(ss: seq<Stored<T>>, low: nat) {
    ss == [] || (low <= ss[0].id && Ascending(ss[1..], ss[0].id + 1))
  }

  lemma {:induction false} AscendingFrom<T>(ss: seq<Stored<T>>, low: nat, lower: nat)
    requires Ascending(ss, low) && lower <= low
    ensures Ascending(ss, lower)
  {
  }

  ghost predicate AllReady<T>(es: seq<Entry<T>>) {
    forall i :: 0 <= i < |es| ==> es[i].status == Ready
  }

  /** The entries between two rounds: sizes are known, and exactly the items that are too large are
      set aside. */
  ghost predicate Checked<T(!new), C(!new)>(kind: Kind<T, C>, es: seq<Entry<T>>, max: nat) {
    forall i :: 0 <= i < |es| ==>
      && es[i].size == kind.EstimateOf(es[i].item)
      && es[i].status == if Eligible(kind, es[i].item, max) then Ready else Ignored
  }

  ghost predicate NoneProcessed<T>(es: seq<Entry<T>>) {
    forall i :: 0 <= i < |es| ==> es[i].status != Processed
  }

  // ----- steps that keep all items -----

  lemma CheckKeepsItems<T(!new), C(!new)>(kind: Kind<T, C>, es: seq<Entry<T>>, max: nat)
    ensures Cores(CheckEntries(kind, es, max)) == Cores(es)
  {
  }

  lemma RevertKeepsItems<T>(es: seq<Entry<T>>)
    ensures Cores(Revert(es)) == Cores(es) && AllReady(Revert(es))
  {
  }

  lemma {:induction false} SelectKeepsItems<T>(es: seq<Entry<T>>, room: nat)
    ensures Cores(Select(es, room)) == Cores(es)
    ensures NoneProcessed(es) ==> NoneProcessed(Select(es, room))
  {
    if es != [] {
      SelectKeepsItems(es[1..], if es[0].size <= room then room - es[0].size else room);
      assert forall i :: 1 <= i < |es| ==> Select(es, room)[i] == Select(es, room)[1..][i - 1];
    }
  }

  lemma {:induction false} BuildKeepsItems<T(!new), C(!new)>(kind: Kind<T, C>, es: seq<Entry<T>>,
                                                             surroundings: Surroundings<C>, room: nat)
    ensures Cores(BuiltEntries(kind, es, surroundings, room)) == Cores(es)
  {
    if es != [] {
      BuildKeepsItems(kind, es[1..], surroundings, RoomAfter(kind, es[0], surroundings, room));
    }
  }

  // ----- conservation -----

  /** How one entry comes out of the writer and of the acceptance of the body. */
  lemma BuildFirst<T(!new), C(!new)>(kind: Kind<T, C>, es: seq<Entry<T>>, surroundings: Surroundings<C>, room: nat)
    requires es != [] && es[0].status != Processed
    ensures var first, after := Stored(es[0].id, es[0].item), RoomAfter(kind, es[0], surroundings, room);
            var left := Cores(AfterAccept(BuiltEntries(kind, es, surroundings, room)));
            var sent := CarriedCores(BuiltBody(kind, es, surroundings, room));
            var leftRest := Cores(AfterAccept(BuiltEntries(kind, es[1..], surroundings, after)));
            var sentRest := CarriedCores(BuiltBody(kind, es[1..], surroundings, after));
            if PartIn(kind, es[0], surroundings, room).Some?
            then left == leftRest && sent == [first] + sentRest
            else left == [first] + leftRest && sent == sentRest
  {
    var after := RoomAfter(kind, es[0], surroundings, room);
    var built, rest := BuiltEntries(kind, es, surroundings, room), BuiltEntries(kind, es[1..], surroundings, after);
    var body, others := BuiltBody(kind, es, surroundings, room), BuiltBody(kind, es[1..], surroundings, after);
    assert built[1..] == rest;
    if PartIn(kind, es[0], surroundings, room).Some? {
      assert body[1..] == others;
    } else {
      assert body == others;
    }
  }

  /** One more element stays, or is sent. */
  lemma OneMore<X>(first: X, all: seq<X>, left: seq<X>, sent: seq<X>)
    requires multiset(all) == multiset(left) + multiset(sent)
    ensures multiset([first] + all) == multiset([first] + left) + multiset(sent)
    ensures multiset([first] + all) == multiset(left) + multiset([first] + sent)
  {
  }

  /** What a body carries and what stays behind after its acceptance are together what was there. */
  lemma {:induction false} BuildConserves<T(!new), C(!new)>(kind: Kind<T, C>, es: seq<Entry<T>>,
                                                            surroundings: Surroundings<C>, room: nat)
    requires NoneProcessed(es)
    ensures multiset(Cores(es))
            == multiset(Cores(AfterAccept(BuiltEntries(kind, es, surroundings, room))))
               + multiset(CarriedCores(BuiltBody(kind, es, surroundings, room)))
  {
    if es != [] {
      var first, after := Stored(es[0].id, es[0].item), RoomAfter(kind, es[0], surroundings, room);
      BuildFirst(kind, es, surroundings, room);
      BuildConserves(kind, es[1..], surroundings, after);
      OneMore(first, Cores(es[1..]), Cores(AfterAccept(BuiltEntries(kind, es[1..], surroundings, after))),
              CarriedCores(BuiltBody(kind, es[1..], surroundings, after)));
      assert Cores(es) == [first] + Cores(es[1..]);
    }
  }

  /** Both are in store order. */
  lemma BuildAscends<T(!new), C(!new)>(kind: Kind<T, C>, es: seq<Entry<T>>,
                                       surroundings: Surroundings<C>, room: nat, low: nat)
    requires NoneProcessed(es) && Ascending(Cores(es), low)
    ensures Ascending(Cores(AfterAccept(BuiltEntries(kind, es, surroundings, room))), low)
    ensures Ascending(CarriedCores(BuiltBody(kind, es, surroundings, room)), low)
  {
    LeftAscends(kind, es, surroundings, room, low);
    BodyAscends(kind, es, surroundings, room, low);
  }

  lemma {:induction false} LeftAscends<T(!new), C(!new)>(kind: Kind<T, C>, es: seq<Entry<T>>,
                                                         surroundings: Surroundings<C>, room: nat, low: nat)
    requires NoneProcessed(es) && Ascending(Cores(es), low)
    ensures Ascending(Cores(AfterAccept(BuiltEntries(kind, es, surroundings, room))), low)
  {
    if es != [] {
      var next, after := es[0].id + 1, RoomAfter(kind, es[0], surroundings, room);
      assert Cores(es)[1..] == Cores(es[1..]);
      LeftAscends(kind, es[1..], surroundings, after, next);
      BuildFirst(kind, es, surroundings, room);
      var rest := Cores(AfterAccept(BuiltEntries(kind, es[1..], surroundings, after)));
      if PartIn(kind, es[0], surroundings, room).Some? {
        AscendingFrom(rest, next, low);
      } else {
        AscendingCons(Stored(es[0].id, es[0].item), rest, low);
      }
    }
  }

  lemma {:induction false} BodyAscends<T(!new), C(!new)>(kind: Kind<T, C>, es: seq<Entry<T>>,
                                                         surroundings: Surroundings<C>, room: nat, low: nat)
    requires NoneProcessed(es) && Ascending(Cores(es), low)
    ensures Ascending(CarriedCores(BuiltBody(kind, es, surroundings, room)), low)
  {
    if es != [] {
      var next, after := es[0].id + 1, RoomAfter(kind, es[0], surroundings, room);
      assert Cores(es)[1..] == Cores(es[1..]);
      BodyAscends(kind, es[1..], surroundings, after, next);
      BuildFirst(kind, es, surroundings, room);
      var rest := CarriedCores(BuiltBody(kind, es[1..], surroundings, after));
      if PartIn(kind, es[0], surroundings, room).Some? {
        AscendingCons(Stored(es[0].id, es[0].item), rest, low);
      } else {
        AscendingFrom(rest, next, low);
      }
    }
  }

  lemma AscendingCons<T>(first: Stored<T>, rest: seq<Stored<T>>, low: nat)
    requires low <= first.id && Ascending(rest, first.id + 1)
    ensures Ascending([first] + rest, low)
  {
    assert ([first] + rest)[1..] == rest;
  }

  lemma {:induction false} AcceptLeavesNoneProcessed<T>(es: seq<Entry<T>>)
    ensures NoneProcessed(AfterAccept(es))
  {
    if es != [] {
      AcceptLeavesNoneProcessed(es[1..]);
    }
  }

  ghost predicate EachAscending<T>(ds: seq<Delivery<T>>, low: nat) {
    forall j :: 0 <= j < |ds| ==> Ascending(CarriedCores(ds[j].carried), low)
  }

  /** What is still stored and what accepted bodies have carried are together what was there: no item
      is lost, none is both, none is sent twice. */
  ghost predicate Conserves<T>(before: seq<Stored<T>>, o: Outcome<T>) {
    multiset(before) == multiset(Cores(o.entries)) + multiset(DeliveredCores(o.accepted))
  }

  /** The store and every body keep the order of ids. */
  ghost predicate InOrder<T>(o: Outcome<T>, low: nat) {
    Ascending(Cores(o.entries), low) && EachAscending(o.accepted, low)
  }

  ghost predicate Keeps<T>(before: seq<Stored<T>>, o: Outcome<T>, low: nat) {
    Conserves(before, o) && InOrder(o, low) && NoneProcessed(o.entries)
  }

  lemma FailedKeeps<T>(before: seq<Stored<T>>, es: seq<Entry<T>>, code: Code, low: nat)
    requires Cores(es) == before && Ascending(before, low)
    ensures Keeps(before, Failed(es, code), low)
  {
    RevertKeepsItems(es);
  }

  lemma DeliveredOnce<T>(d: Delivery<T>)
    ensures DeliveredCores([d]) == CarriedCores(d.carried)
  {
    assert DeliveredCores([d][1..]) == [];
  }

  lemma AcceptedLeaves<T>(built: seq<Entry<T>>, d: Delivery<T>)
    ensures var o := Accepted(built, d);
            Cores(o.entries) == Cores(AfterAccept(built)) && NoneProcessed(o.entries) && o.accepted == [d]
  {
    AcceptLeavesNoneProcessed(built);
    RevertKeepsItems(AfterAccept(built));
  }

  lemma AcceptedKeeps<T>(before: seq<Stored<T>>, built: seq<Entry<T>>, d: Delivery<T>, low: nat)
    requires multiset(before) == multiset(Cores(AfterAccept(built))) + multiset(CarriedCores(d.carried))
    requires Ascending(Cores(AfterAccept(built)), low) && Ascending(CarriedCores(d.carried), low)
    ensures Keeps(before, Accepted(built, d), low)
  {
    AcceptedLeaves(built, d);
    DeliveredOnce(d);
  }

  /** From the selected entries on. */
  lemma AttemptKeeps<T(!new), C(!new)>(kind: Kind<T, C>, before: seq<Stored<T>>, selected: seq<Entry<T>>,
                                       boundary: Boundary, surroundings: Surroundings<C>, room: nat, code: Code, low: nat)
    requires Cores(selected) == before && NoneProcessed(selected) && Ascending(before, low)
    ensures var built := BuiltEntries(kind, selected, surroundings, room);
            && Keeps(before, Failed(built, code), low)
            && Keeps(before, Accepted(built, Delivery(boundary, BuiltBody(kind, selected, surroundings, room))), low)
  {
    var built := BuiltEntries(kind, selected, surroundings, room);
    BuildKeepsItems(kind, selected, surroundings, room);
    FailedKeeps(before, built, code, low);
    BuildConserves(kind, selected, surroundings, room);
    BuildAscends(kind, selected, surroundings, room, low);
    AcceptedKeeps(before, built, Delivery(boundary, BuiltBody(kind, selected, surroundings, room)), low);
  }

  /** One round: the items that leave are those of an accepted body, and both keep store order. */
  lemma RoundKeeps<T(!new), C(!new)>(kind: Kind<T, C>, es: seq<Entry<T>>, max: nat, surroundings: Surroundings<C>,
                                     before: seq<Stored<T>>, low: nat)
    requires MULTIPART_CLOSE_LENGTH <= max && NoneProcessed(es) && Cores(es) == before && Ascending(before, low)
    ensures Keeps(before, Round(kind, es, max, surroundings), low)
  {
    var selected, room := Select(es, Space(max)), BufferSize(es, max);
    SelectKeepsItems(es, Space(max));
    assert Cores(selected) == before && NoneProcessed(selected);
    var o := Round(kind, es, max, surroundings);
    if surroundings.boundary.Failure? {
      assert o == Failed(es, surroundings.boundary.code);
      FailedKeeps(before, es, surroundings.boundary.code, low);
    } else if !surroundings.bodyAllocated {
      assert o == Failed(selected, OutOfMemory);
      FailedKeeps(before, selected, OutOfMemory, low);
    } else {
      var boundary, code := surroundings.boundary.value, if o.code == Fail then Fail else surroundings.answer;
      var built := BuiltEntries(kind, selected, surroundings, room);
      var d := Delivery(boundary, BuiltBody(kind, selected, surroundings, room));
      assert o == Failed(built, code) || o == Accepted(built, d);
      AttemptKeeps(kind, before, selected, boundary, surroundings, room, code, low);
    }
  }

  lemma {:induction false} DeliveredCoresConcat<T>(ds: seq<Delivery<T>>, others: seq<Delivery<T>>)
    ensures DeliveredCores(ds + others) == DeliveredCores(ds) + DeliveredCores(others)
  {
    if ds == [] {
      assert ds + others == others;
    } else {
      assert (ds + others)[1..] == ds[1..] + others;
      DeliveredCoresConcat(ds[1..], others);
    }
  }

  lemma KeepsInSequence<T>(before: seq<Stored<T>>, first: Outcome<T>, others: Outcome<T>, low: nat)
    requires Keeps(before, first, low) && Keeps(Cores(first.entries), others, low)
    ensures Keeps(before, others.(accepted := first.accepted + others.accepted), low)
  {
    DeliveredCoresConcat(first.accepted, others.accepted);
  }

  lemma {:induction false} RoundsKeep<T(!new), C(!new)>(kind: Kind<T, C>, es: seq<Entry<T>>, max: nat,
                                                            world: World<C>, k: nat, low: nat)
    requires MULTIPART_CLOSE_LENGTH <= max && NoneProcessed(es) && Ascending(Cores(es), low)
    ensures Keeps(Cores(es), Rounds(kind, es, max, world, k), low)
    decreases |es|
  {
    var first := Round(kind, es, max, world.Round(k));
    RoundKeeps(kind, es, max, world.Round(k), Cores(es), low);
    if first.code == Ok && !first.finished {
      RoundRemoves(kind, es, max, world.Round(k));
      RoundsKeep(kind, first.entries, max, world, k + 1, low);
      KeepsInSequence(Cores(es), first, Rounds(kind, first.entries, max, world, k + 1), low);
    }
  }

  /** Conservation over an exchange, whatever its surroundings are: an item is afterwards either still
      in the store or in an accepted body, never both, never twice, and the order is kept. */
  lemma ExchangeConserves<T(!new), C(!new)>(kind: Kind<T, C>, es: seq<Entry<T>>, max: nat, world: World<C>, low: nat)
    requires AllReady(es) && Ascending(Cores(es), low)
    ensures var o := ExchangeStore(kind, es, max, world); Conserves(Cores(es), o) && InOrder(o, low)
  {
    var code, checked := CheckCode(kind, es, max), CheckEntries(kind, es, max);
    CheckKeepsItems(kind, es, max);
    if code == Ok {
      RoundsKeep(kind, checked, max, world, 0, low);
    } else {
      FailedKeeps(Cores(es), checked, code, low);
    }
  }
}
