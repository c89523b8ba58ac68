/** Exchanges of stores that hold items which cannot be built: what is sent past them, and what they
    keep from being sent. */
module Unbuildable {
  import opened Core
  import opened Multipart
  import opened Exchange
  import opened ExchangeProofs
  import opened Selection
  import opened ExitStates
  import opened Progress

  /** Nothing fails outside, exactly the items with the missing ids cannot be built, and the others keep
      their estimates. */
  ghost predicate Calm<T(!new), C(!new)>(kind: Kind<T, C>, ss: seq<Stored<T>>, surroundings: Surroundings<C>,
                                         missing: set<nat>)
  {
    && Undisturbed(surroundings)
    && forall s :: s in ss ==> KeepsToIt(kind, s, surroundings, missing)
  }

  ghost predicate KeepsToIt<T(!new), C(!new)>(kind: Kind<T, C>, s: Stored<T>, surroundings: Surroundings<C>,
                                              missing: set<nat>)
  {
    if s.id in missing then kind.PartOf(s.item, surroundings.ConditionsOf(s.id)).None?
    else Writable(kind, s.id, s.item, surroundings)
  }

  /** In all rounds alike. */
  ghost predicate AlwaysCalm<T(!new), C(!new)>(kind: Kind<T, C>, ss: seq<Stored<T>>, world: World<C>, missing: set<nat>) {
    forall k: nat :: Calm(kind, ss, world.Round(k), missing)
  }

  /** The items that cannot be built, in order. */
  function Missing<T>(ss: seq<Stored<T>>, missing: set<nat>): seq<Stored<T>> {
    if ss == [] then [] else (if ss[0].id in missing then [ss[0]] else []) + Missing(ss[1..], missing)
  }

  /** What older items that cannot be built leave of the room, when they are selected oldest first. */
  function RoomBehind<T(!new), C(!new)>(kind: Kind<T, C>, ss: seq<Stored<T>>, id: nat, missing: set<nat>, room: nat)
    : (r: nat)
    ensures r <= room
  {
    if ss == [] then room
    else if ss[0].id < id && ss[0].id in missing && kind.EstimateOf(ss[0].item) <= room then
      RoomBehind(kind, ss[1..], id, missing, room - kind.EstimateOf(ss[0].item))
    else RoomBehind(kind, ss[1..], id, missing, room)
  }

  /** An item that can be built, and fits behind the older ones that cannot. */
  ghost predicate FitsBehind<T(!new), C(!new)>(kind: Kind<T, C>, ss: seq<Stored<T>>, s: Stored<T>, max: nat,
                                               missing: set<nat>)
  {
    && s.id !in missing && MULTIPART_CLOSE_LENGTH <= max
    && kind.EstimateOf(s.item) <= RoomBehind(kind, ss, s.id, missing, Space(max))
  }

  // ----- items that cannot be built stay -----

  lemma MissingCons<T>(first: Stored<T>, rest: seq<Stored<T>>, missing: set<nat>)
    ensures Missing([first] + rest, missing) == (if first.id in missing then [first] else []) + Missing(rest, missing)
  {
    assert ([first] + rest)[1..] == rest;
  }

  lemma {:induction false} MissingIn<T>(ss: seq<Stored<T>>, missing: set<nat>, s: Stored<T>)
    ensures s in Missing(ss, missing) <==> s in ss && s.id in missing
  {
    if ss != [] {
      MissingIn(ss[1..], missing, s);
      assert ss == [ss[0]] + ss[1..];
    }
  }

  lemma {:induction false} BuildKeepsMissing<T(!new), C(!new)>(kind: Kind<T, C>, es: seq<Entry<T>>,
                                                               surroundings: Surroundings<C>, room: nat, missing: set<nat>)
    requires NoneProcessed(es) && Calm(kind, Cores(es), surroundings, missing)
    ensures Missing(Cores(AfterAccept(BuiltEntries(kind, es, surroundings, room))), missing) == Missing(Cores(es), missing)
  {
    if es != [] {
      var first, after := Stored(es[0].id, es[0].item), RoomAfter(kind, es[0], surroundings, room);
      assert Cores(es) == [first] + Cores(es[1..]);
      assert KeepsToIt(kind, first, surroundings, missing);
      BuildFirst(kind, es, surroundings, room);
      BuildKeepsMissing(kind, es[1..], surroundings, after, missing);
      MissingCons(first, Cores(es[1..]), missing);
      MissingCons(first, Cores(AfterAccept(BuiltEntries(kind, es[1..], surroundings, after))), missing);
    }
  }

  /** They alone decide about the room behind them. */
  lemma {:induction false} RoomByMissing<T(!new), C(!new)>(kind: Kind<T, C>, ss: seq<Stored<T>>, id: nat,
                                                           missing: set<nat>, room: nat)
    ensures RoomBehind(kind, ss, id, missing, room) == RoomBehind(kind, Missing(ss, missing), id, missing, room)
  {
    if ss != [] {
      var takes := ss[0].id < id && ss[0].id in missing && kind.EstimateOf(ss[0].item) <= room;
      RoomByMissing(kind, ss[1..], id, missing, if takes then room - kind.EstimateOf(ss[0].item) else room);
      if ss[0].id in missing {
        assert Missing(ss, missing)[1..] == Missing(ss[1..], missing);
      } else {
        assert Missing(ss, missing) == Missing(ss[1..], missing);
      }
    }
  }

  // ----- a round that finds nothing to send -----

  lemma {:induction false} NoneOlder<T(!new), C(!new)>(kind: Kind<T, C>, ss: seq<Stored<T>>, low: nat, id: nat,
                                                       missing: set<nat>, room: nat)
    requires Ascending(ss, low) && id <= low
    ensures RoomBehind(kind, ss, id, missing, room) == room
  {
    if ss != [] {
      NoneOlder(kind, ss[1..], ss[0].id + 1, id, missing, room);
    }
  }

  lemma {:induction false} AscendingAt<T>(ss: seq<Stored<T>>, low: nat, i: nat)
    requires Ascending(ss, low) && i < |ss|
    ensures low <= ss[i].id
  {
    if i > 0 {
      AscendingAt(ss[1..], ss[0].id + 1, i - 1);
    }
  }

  function After<T>(e: Entry<T>, room: nat): nat {
    if e.size <= room then room - e.size else room
  }

  /** Sizes are the estimates, and only items that cannot be built are selected. */
  ghost predicate OnlyMissing<T(!new), C(!new)>(kind: Kind<T, C>, es: seq<Entry<T>>, room: nat, missing: set<nat>) {
    es == [] ||
    (&& es[0].size == kind.EstimateOf(es[0].item)
     && (es[0].size <= room ==> es[0].id in missing)
     && OnlyMissing(kind, es[1..], After(es[0], room), missing))
  }

  lemma {:induction false} OnlyMissingIf<T(!new), C(!new)>(kind: Kind<T, C>, es: seq<Entry<T>>, room: nat, missing: set<nat>)
    requires Sized(kind, es)
    requires forall j :: 0 <= j < |es| && Select(es, room)[j].status == Selected ==> es[j].id in missing
    ensures OnlyMissing(kind, es, room, missing)
  {
    if es != [] {
      var rest, chosen, after := es[1..], Select(es, room), After(es[0], room);
      assert chosen[1..] == Select(rest, after);
      assert chosen[0].status == Selected || es[0].size > room;
      forall j | 0 <= j < |rest|
        ensures rest[j].size == kind.EstimateOf(rest[j].item)
        ensures Select(rest, after)[j].status == Selected ==> rest[j].id in missing
      {
        assert chosen[j + 1] == Select(rest, after)[j] && es[j + 1] == rest[j];
      }
      OnlyMissingIf(kind, rest, after, missing);
    }
  }

  lemma RoomLeftFirst<T>(es: seq<Entry<T>>, room: nat, after: nat, i: nat, before: nat)
    requires before + 1 == i <= |es| && after == After(es[0], room)
    ensures RoomLeft(es[..i], room) == RoomLeft(es[1..][..before], after)
  {
    assert es[..i][1..] == es[1..][..before] && es[..i][0] == es[0];
  }

  lemma CoresFirst<T>(es: seq<Entry<T>>, low: nat)
    requires es != [] && Ascending(Cores(es), low)
    ensures Cores(es)[0] == Stored(es[0].id, es[0].item) && Cores(es)[1..] == Cores(es[1..])
    ensures Ascending(Cores(es[1..]), es[0].id + 1)
  {
    assert Cores(es)[1..] == Cores(es[1..]);
  }

  lemma RoomLeftAtFirst<T(!new), C(!new)>(kind: Kind<T, C>, es: seq<Entry<T>>, room: nat, low: nat, id: nat,
                                          missing: set<nat>)
    requires es != [] && id == es[0].id && Ascending(Cores(es), low)
    ensures RoomLeft(es[..0], room) == RoomBehind(kind, Cores(es), id, missing, room)
  {
    CoresFirst(es, low);
    NoneOlder(kind, Cores(es), id, id, missing, room);
  }

  lemma RoomLeftNext<T(!new), C(!new)>(kind: Kind<T, C>, es: seq<Entry<T>>, room: nat, after: nat, i: nat, before: nat,
                                       low: nat, id: nat, missing: set<nat>)
    requires before + 1 == i < |es| && id == es[i].id && Ascending(Cores(es), low)
    requires after == After(es[0], room) && OnlyMissing(kind, es, room, missing)
    requires RoomLeft(es[1..][..before], after) == RoomBehind(kind, Cores(es[1..]), id, missing, after)
    ensures RoomLeft(es[..i], room) == RoomBehind(kind, Cores(es), id, missing, room)
  {
    CoresFirst(es, low);
    AscendingAt(Cores(es[1..]), es[0].id + 1, before);
    RoomLeftFirst(es, room, after, i, before);
  }

  /** If only items that cannot be built are selected, the selection leaves the room that these leave. */
  lemma {:induction false} RoomLeftIs<T(!new), C(!new)>(kind: Kind<T, C>, es: seq<Entry<T>>, room: nat, i: nat, low: nat,
                                                        id: nat, missing: set<nat>)
    requires i < |es| && id == es[i].id && Ascending(Cores(es), low) && OnlyMissing(kind, es, room, missing)
    ensures RoomLeft(es[..i], room) == RoomBehind(kind, Cores(es), id, missing, room)
    decreases i
  {
    if i == 0 {
      RoomLeftAtFirst(kind, es, room, low, id, missing);
    } else {
      var after, before: nat := After(es[0], room), i - 1;
      CoresFirst(es, low);
      RoomLeftIs(kind, es[1..], after, before, es[0].id + 1, id, missing);
      RoomLeftNext(kind, es, room, after, i, before, low, id, missing);
    }
  }

  lemma {:induction false} NoneExists<T(!new), C(!new)>(kind: Kind<T, C>, es: seq<Entry<T>>,
                                                        surroundings: Surroundings<C>, i: nat)
    requires Existing(kind, es, surroundings) == [] && i < |es| && es[i].status == Selected
    ensures kind.PartOf(es[i].item, surroundings.ConditionsOf(es[i].id)).None?
  {
    if i > 0 {
      NoneExists(kind, es[1..], surroundings, i - 1);
    }
  }

  /** No item that is left and could be built fits behind those that cannot. */
  ghost predicate NothingFits<T(!new), C(!new)>(kind: Kind<T, C>, ss: seq<Stored<T>>, max: nat, missing: set<nat>) {
    forall s :: s in ss ==> !FitsBehind(kind, ss, s, max, missing)
  }

  lemma OnlyMissingSelected<T(!new), C(!new)>(kind: Kind<T, C>, es: seq<Entry<T>>, room: nat,
                                              surroundings: Surroundings<C>, missing: set<nat>, i: nat)
    requires Calm(kind, Cores(es), surroundings, missing) && Existing(kind, Select(es, room), surroundings) == []
    requires i < |es| && Select(es, room)[i].status == Selected
    ensures es[i].id in missing
  {
    NoneExists(kind, Select(es, room), surroundings, i);
    SelectKeepsItems(es, room);
    var s := Cores(es)[i];
    assert s == Cores(Select(es, room))[i];
    assert KeepsToIt(kind, s, surroundings, missing);
  }

  lemma NothingExistsNothingFits<T(!new), C(!new)>(kind: Kind<T, C>, es: seq<Entry<T>>, max: nat,
                                                   surroundings: Surroundings<C>, low: nat, missing: set<nat>)
    requires MULTIPART_CLOSE_LENGTH <= max && Checked(kind, es, max) && Ascending(Cores(es), low)
    requires Calm(kind, Cores(es), surroundings, missing)
    requires Existing(kind, Select(es, Space(max)), surroundings) == []
    ensures NothingFits(kind, Cores(es), max, missing)
  {
    forall j | 0 <= j < |es| && Select(es, Space(max))[j].status == Selected ensures es[j].id in missing {
      OnlyMissingSelected(kind, es, Space(max), surroundings, missing, j);
    }
    OnlyMissingIf(kind, es, Space(max), missing);
    forall s | s in Cores(es) ensures !FitsBehind(kind, Cores(es), s, max, missing) {
      var i :| 0 <= i < |es| && Cores(es)[i] == s;
      SelectionAt(es, Space(max), i);
      RoomLeftIs(kind, es, Space(max), i, low, s.id, missing);
    }
  }

  // ----- rounds -----

  /** Some item that could be sent by its size cannot be built. */
  ghost predicate SomeMissing<T(!new), C(!new)>(kind: Kind<T, C>, ss: seq<Stored<T>>, max: nat, missing: set<nat>) {
    exists s :: s in ss && s.id in missing && Eligible(kind, s.item, max)
  }

  lemma SomethingSelectedIsMissing<T(!new), C(!new)>(kind: Kind<T, C>, es: seq<Entry<T>>, max: nat,
                                                     surroundings: Surroundings<C>, missing: set<nat>)
    requires MULTIPART_CLOSE_LENGTH <= max && Checked(kind, es, max) && !AllIgnored(kind, es, max)
    requires Calm(kind, Cores(es), surroundings, missing)
    requires Existing(kind, Select(es, Space(max)), surroundings) == []
    ensures SomeMissing(kind, Cores(es), max, missing)
  {
    SomethingIsSelected(kind, es, max);
    var i :| 0 <= i < |es| && Select(es, Space(max))[i].status == Selected;
    OnlyMissingSelected(kind, es, Space(max), surroundings, missing, i);
    GreedySelection(kind, es, max, i);
    assert Cores(es)[i] in Cores(es) && Cores(es)[i].item == es[i].item;
  }

  lemma CalmKeepsEstimates<T(!new), C(!new)>(kind: Kind<T, C>, es: seq<Entry<T>>, max: nat,
                                             surroundings: Surroundings<C>, missing: set<nat>)
    requires MULTIPART_CLOSE_LENGTH <= max && Checked(kind, es, max) && Calm(kind, Cores(es), surroundings, missing)
    ensures KeepsEstimates(kind, Select(es, Space(max)), surroundings)
  {
    var chosen := Select(es, Space(max));
    SelectMarks(kind, es, max);
    SelectKeepsItems(es, Space(max));
    forall i | 0 <= i < |chosen| ensures LengthOf(kind, chosen[i], surroundings) <= chosen[i].size {
      assert Cores(chosen)[i] == Cores(es)[i];
      assert KeepsToIt(kind, Cores(chosen)[i], surroundings, missing);
    }
  }

  /** How a round ends: something is delivered, or nothing that is left could be. */
  lemma CalmRound<T(!new), C(!new)>(kind: Kind<T, C>, es: seq<Entry<T>>, max: nat, surroundings: Surroundings<C>,
                                    low: nat, missing: set<nat>)
    requires MULTIPART_CLOSE_LENGTH <= max && Checked(kind, es, max) && !AllIgnored(kind, es, max)
    requires Calm(kind, Cores(es), surroundings, missing) && Ascending(Cores(es), low)
    ensures var o := Round(kind, es, max, surroundings);
            && Missing(Cores(o.entries), missing) == Missing(Cores(es), missing)
            && o.code in {Ok, ItemExceedsMaxHttpRequestSize, Fail}
            && (o.code == Fail ==> NothingFits(kind, Cores(o.entries), max, missing)
                                   && SomeMissing(kind, Cores(es), max, missing))
  {
    var o, chosen, room := Round(kind, es, max, surroundings), Select(es, Space(max)), BufferSize(es, max);
    CalmKeepsEstimates(kind, es, max, surroundings, missing);
    RoundSendsExisting(kind, es, max, surroundings);
    if Existing(kind, chosen, surroundings) == [] {
      RoundSendsNothing(kind, es, max, surroundings);
      NothingExistsNothingFits(kind, es, max, surroundings, low, missing);
      SomethingSelectedIsMissing(kind, es, max, surroundings, missing);
    } else {
      RoundByBody(kind, es, max, surroundings);
      SelectMarks(kind, es, max);
      SelectKeepsItems(es, Space(max));
      BuildKeepsMissing(kind, chosen, surroundings, room, missing);
      AcceptedLeaves(BuiltEntries(kind, chosen, surroundings, room), o.accepted[0]);
    }
  }

  lemma RemainingStayCalm<T(!new), C(!new)>(kind: Kind<T, C>, ss: seq<Stored<T>>, o: Outcome<T>,
                                            world: World<C>, missing: set<nat>)
    requires AlwaysCalm(kind, ss, world, missing) && Conserves(ss, o)
    ensures AlwaysCalm(kind, Cores(o.entries), world, missing)
  {
    forall k: nat ensures Calm(kind, Cores(o.entries), world.Round(k), missing) {
      assert Calm(kind, ss, world.Round(k), missing);
      forall s | s in Cores(o.entries) ensures KeepsToIt(kind, s, world.Round(k), missing) {
        assert s in multiset(ss);
      }
    }
  }

  lemma SomeMissingByMissing<T(!new), C(!new)>(kind: Kind<T, C>, ss: seq<Stored<T>>, others: seq<Stored<T>>, max: nat,
                                               missing: set<nat>)
    requires Missing(ss, missing) == Missing(others, missing)
    ensures SomeMissing(kind, ss, max, missing) ==> SomeMissing(kind, others, max, missing)
  {
    if SomeMissing(kind, ss, max, missing) {
      var s :| s in ss && s.id in missing && Eligible(kind, s.item, max);
      MissingIn(ss, missing, s);
      MissingIn(others, missing, s);
    }
  }

  lemma {:induction false} CalmRounds<T(!new), C(!new)>(kind: Kind<T, C>, es: seq<Entry<T>>, max: nat, world: World<C>,
                                                        k: nat, low: nat, missing: set<nat>)
    requires MULTIPART_CLOSE_LENGTH <= max && Checked(kind, es, max) && !AllIgnored(kind, es, max)
    requires AlwaysCalm(kind, Cores(es), world, missing) && Ascending(Cores(es), low)
    ensures var o := Rounds(kind, es, max, world, k);
            && Missing(Cores(o.entries), missing) == Missing(Cores(es), missing)
            && o.code in {Ok, ItemExceedsMaxHttpRequestSize, Fail}
            && (o.code == Fail ==> NothingFits(kind, Cores(o.entries), max, missing)
                                   && SomeMissing(kind, Cores(es), max, missing))
    decreases |es|
  {
    var first := Round(kind, es, max, world.Round(k));
    assert Calm(kind, Cores(es), world.Round(k), missing);
    CalmRound(kind, es, max, world.Round(k), low, missing);
    RoundEnds(kind, es, max, world.Round(k));
    RoundRemoves(kind, es, max, world.Round(k));
    if first.code == Ok && !first.finished {
      RoundKeeps(kind, es, max, world.Round(k), Cores(es), low);
      RemainingStayCalm(kind, Cores(es), first, world, missing);
      CalmRounds(kind, first.entries, max, world, k + 1, low, missing);
      SomeMissingByMissing(kind, Cores(first.entries), Cores(es), max, missing);
    }
  }

  // ----- exchanges -----

  lemma {:induction false} OversizedIn<T(!new), C(!new)>(kind: Kind<T, C>, ss: seq<Stored<T>>, max: nat, s: Stored<T>)
    requires s in Oversized(kind, ss, max)
    ensures !Eligible(kind, s.item, max)
  {
    if s in Oversized(kind, ss[1..], max) {
      OversizedIn(kind, ss[1..], max, s);
    }
  }

  /** Only a failure leaves an item behind that could be sent by its size. */
  lemma LeftByFailure<T(!new), C(!new)>(kind: Kind<T, C>, es: seq<Entry<T>>, max: nat, world: World<C>, s: Stored<T>)
    requires AllReady(es) && Eligible(kind, s.item, max)
    requires var o := ExchangeStore(kind, es, max, world);
             s in Cores(o.entries) && o.code in {StoreIsEmpty, Ok, ItemExceedsMaxHttpRequestSize}
    ensures false
  {
    var o := ExchangeStore(kind, es, max, world);
    ExchangeEnds(kind, es, max, world);
    if o.code == ItemExceedsMaxHttpRequestSize {
      OversizedIn(kind, Cores(es), max, s);
    }
  }

  /** An item that fits in the store as it was is not left by the exchange. */
  lemma FittingLeaves<T(!new), C(!new)>(kind: Kind<T, C>, es: seq<Entry<T>>, max: nat, world: World<C>, s: Stored<T>,
                                        missing: set<nat>)
    requires AllReady(es) && FitsBehind(kind, Cores(es), s, max, missing)
    requires var o := ExchangeStore(kind, es, max, world);
             && Missing(Cores(o.entries), missing) == Missing(Cores(es), missing)
             && o.code in {StoreIsEmpty, Ok, ItemExceedsMaxHttpRequestSize, Fail}
             && (o.code == Fail ==> NothingFits(kind, Cores(o.entries), max, missing))
    ensures s !in Cores(ExchangeStore(kind, es, max, world).entries)
  {
    var o := ExchangeStore(kind, es, max, world);
    RoomByMissing(kind, Cores(es), s.id, missing, Space(max));
    RoomByMissing(kind, Cores(o.entries), s.id, missing, Space(max));
    if s in Cores(o.entries) && o.code != Fail {
      LeftByFailure(kind, es, max, world, s);
    }
  }

  lemma MissingFails<T(!new), C(!new)>(kind: Kind<T, C>, es: seq<Entry<T>>, max: nat, world: World<C>, missing: set<nat>)
    requires AllReady(es) && SomeMissing(kind, Cores(es), max, missing)
    requires var o := ExchangeStore(kind, es, max, world);
             && Missing(Cores(o.entries), missing) == Missing(Cores(es), missing)
             && o.code in {StoreIsEmpty, Ok, ItemExceedsMaxHttpRequestSize, Fail}
    ensures ExchangeStore(kind, es, max, world).code == Fail
  {
    var o := ExchangeStore(kind, es, max, world);
    var s :| s in Cores(es) && s.id in missing && Eligible(kind, s.item, max);
    MissingIn(Cores(es), missing, s);
    MissingIn(Cores(o.entries), missing, s);
    if o.code != Fail {
      LeftByFailure(kind, es, max, world, s);
    }
  }

  lemma LeftOrDelivered<T>(ss: seq<Stored<T>>, o: Outcome<T>, s: Stored<T>)
    requires Conserves(ss, o) && s in ss
    ensures s in Cores(o.entries) || s in DeliveredCores(o.accepted)
  {
    assert s in multiset(ss);
  }

  /** How an exchange ends when nothing else fails. */
  lemma CalmExchange<T(!new), C(!new)>(kind: Kind<T, C>, es: seq<Entry<T>>, max: nat, world: World<C>, low: nat,
                                       missing: set<nat>)
    requires AllReady(es) && Ascending(Cores(es), low) && AlwaysCalm(kind, Cores(es), world, missing)
    ensures var o := ExchangeStore(kind, es, max, world);
            && Missing(Cores(o.entries), missing) == Missing(Cores(es), missing)
            && o.code in {StoreIsEmpty, Ok, ItemExceedsMaxHttpRequestSize, Fail}
            && (o.code == Fail ==> NothingFits(kind, Cores(o.entries), max, missing)
                                   && SomeMissing(kind, Cores(es), max, missing))
  {
    var checked := CheckEntries(kind, es, max);
    CheckMarks(kind, es, max);
    CheckKeepsItems(kind, es, max);
    SameItemsIgnored(kind, es, checked, max);
    RevertKeepsItems(checked);
    if CheckCode(kind, es, max) == Ok {
      CalmRounds(kind, checked, max, world, 0, low, missing);
    }
  }

  /** With items that cannot be built in the store, an exchange in which nothing else fails ends as a
      failure exactly if one of them could be sent by its size.  All of them stay; every item that can be
      built, and fits behind the older ones that cannot, is delivered. */
  lemma UnbuildableItemsStay<T(!new), C(!new)>(kind: Kind<T, C>, es: seq<Entry<T>>, max: nat, world: World<C>, low: nat,
                                               missing: set<nat>)
    requires AllReady(es) && Ascending(Cores(es), low) && AlwaysCalm(kind, Cores(es), world, missing)
    ensures var o := ExchangeStore(kind, es, max, world);
            && (o.code == Fail <==> SomeMissing(kind, Cores(es), max, missing))
            && Missing(Cores(o.entries), missing) == Missing(Cores(es), missing)
            && (forall s :: s in Cores(es) && FitsBehind(kind, Cores(es), s, max, missing) ==>
                  s !in Cores(o.entries) && s in DeliveredCores(o.accepted))
  {
    var o := ExchangeStore(kind, es, max, world);
    CalmExchange(kind, es, max, world, low, missing);
    if SomeMissing(kind, Cores(es), max, missing) {
      MissingFails(kind, es, max, world, missing);
    }
    ExchangeConserves(kind, es, max, world, low);
    forall s | s in Cores(es) && FitsBehind(kind, Cores(es), s, max, missing)
      ensures s !in Cores(o.entries) && s in DeliveredCores(o.accepted)
    {
      FittingLeaves(kind, es, max, world, s, missing);
      LeftOrDelivered(Cores(es), o, s);
    }
  }

  // ----- an item that slips past -----

  function ThreeEntries<T>(first: T, second: T, third: T): seq<Entry<T>> {
    [Entry(first, 1, Ready, 0), Entry(second, 2, Ready, 0), Entry(third, 3, Ready, 0)]
  }

  lemma SelectThree<T>(a: Entry<T>, b: Entry<T>, c: Entry<T>, room: nat)
    requires a.size + c.size <= room < a.size + b.size
    ensures Select([a, b, c], room) == [a.(status := Selected), b, c.(status := Selected)]
  {
    var left: nat := room - a.size;
    assert [a, b, c][1..] == [b, c] && [b, c][1..] == [c] && [c][1..] == [];
    assert Select([c], left) == [c.(status := Selected)] + Select([], left - c.size);
    assert Select([b, c], left) == [b] + Select([c], left);
  }

  lemma {:induction false} ExistingAt<T(!new), C(!new)>(kind: Kind<T, C>, es: seq<Entry<T>>,
                                                        surroundings: Surroundings<C>, i: nat)
    requires i < |es| && es[i].status == Selected
    requires kind.PartOf(es[i].item, surroundings.ConditionsOf(es[i].id)).Some?
    ensures Stored(es[i].id, es[i].item) in CarriedCores(Existing(kind, es, surroundings))
  {
    var one, rest := ExistingOne(kind, es[0], surroundings), Existing(kind, es[1..], surroundings);
    if i == 0 {
      assert CarriedCores(one + rest)[0] == Stored(es[0].id, es[0].item);
    } else {
      ExistingAt(kind, es[1..], surroundings, i - 1);
      CarriedBehind(one, rest, Stored(es[i].id, es[i].item));
    }
  }

  lemma CarriedBehind<T>(one: seq<Carried<T>>, rest: seq<Carried<T>>, s: Stored<T>)
    requires s in CarriedCores(rest)
    ensures s in CarriedCores(one + rest)
  {
    var k :| 0 <= k < |rest| && CarriedCores(rest)[k] == s;
    assert (one + rest)[|one| + k] == rest[k];
    assert CarriedCores(one + rest)[|one| + k] == s;
  }

  /** The other half does not hold: an item that would not fit behind an older one that cannot be built
      slips past it, while a still older one takes the room that the other would need. */
  lemma YoungerSlipsPast<T(!new), C(!new)>(kind: Kind<T, C>, first: T, second: T, third: T, max: nat, world: World<C>)
    requires Eligible(kind, first, max) && Eligible(kind, second, max) && Eligible(kind, third, max)
    requires kind.EstimateOf(first) + kind.EstimateOf(third) <= Space(max)
    requires Space(max) < kind.EstimateOf(first) + kind.EstimateOf(second)
    requires Space(max) < kind.EstimateOf(second) + kind.EstimateOf(third)
    requires AlwaysCalm(kind, Cores(ThreeEntries(first, second, third)), world, {2})
    ensures var es, s := ThreeEntries(first, second, third), Stored(3, third);
            && !FitsBehind(kind, Cores(es), s, max, {2})
            && s in DeliveredCores(ExchangeStore(kind, es, max, world).accepted)
  {
    var es, s, surroundings := ThreeEntries(first, second, third), Stored(3, third), world.Round(0);
    var checked := CheckEntries(kind, es, max);
    assert checked == [checked[0], checked[1], checked[2]];
    CheckMarks(kind, es, max);
    CheckKeepsItems(kind, es, max);
    assert Calm(kind, Cores(es), surroundings, {2}) && KeepsToIt(kind, Cores(es)[2], surroundings, {2});
    SelectThree(checked[0], checked[1], checked[2], Space(max));
    CalmKeepsEstimates(kind, checked, max, surroundings, {2});
    RoundSendsExisting(kind, checked, max, surroundings);
    ExistingAt(kind, Select(checked, Space(max)), surroundings, 2);
    FirstDelivered(kind, checked, max, world, s);
    RoomBehindSecond(kind, Cores(es), Space(max));
  }

  lemma RoomBehindSecond<T(!new), C(!new)>(kind: Kind<T, C>, ss: seq<Stored<T>>, room: nat)
    requires |ss| == 3 && ss[0].id == 1 && ss[1].id == 2 && ss[2].id == 3 && kind.EstimateOf(ss[1].item) <= room
    ensures RoomBehind(kind, ss, 3, {2}, room) == room - kind.EstimateOf(ss[1].item)
  {
    var rest := ss[1..];
    assert rest[0] == ss[1] && rest[1..][0] == ss[2] && rest[1..][1..] == [];
    var left: nat := room - kind.EstimateOf(ss[1].item);
    assert RoomBehind(kind, rest[1..], 3, {2}, left) == left;
    assert RoomBehind(kind, rest, 3, {2}, room) == left;
  }

  lemma FirstDelivered<T(!new), C(!new)>(kind: Kind<T, C>, es: seq<Entry<T>>, max: nat, world: World<C>, s: Stored<T>)
    requires MULTIPART_CLOSE_LENGTH <= max
    requires var o := Round(kind, es, max, world.Round(0));
             |o.accepted| == 1 && s in CarriedCores(o.accepted[0].carried)
    ensures s in DeliveredCores(Rounds(kind, es, max, world, 0).accepted)
  {
    var first := Round(kind, es, max, world.Round(0));
    RoundsUnfold(kind, es, max, world, 0, first);
    var all := Rounds(kind, es, max, world, 0).accepted;
    assert all[0] == first.accepted[0];
  }
}
