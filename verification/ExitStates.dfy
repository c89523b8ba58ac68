/** How an exchange of a store can end, and what it leaves behind in each case. */
module ExitStates {
  import opened Core
  import opened Multipart
  import opened Receiver
  import opened Exchange
  import opened ExchangeProofs
  import opened Selection

  // ----- entries during a round -----

  /** Sizes are known, and exactly the items that are too large are set aside. */
  ghost predicate Marked<T(!new), C(!new)>(kind: Kind<T, C>, es: seq<Entry<T>>, max: nat) {
    forall i :: 0 <= i < |es| ==>
      && es[i].size == kind.EstimateOf(es[i].item)
      && (es[i].status == Ignored <==> !Eligible(kind, es[i].item, max))
  }

  lemma CheckMarks<T(!new), C(!new)>(kind: Kind<T, C>, es: seq<Entry<T>>, max: nat)
    requires AllReady(es)
    ensures Checked(kind, CheckEntries(kind, es, max), max)
  {
  }

  lemma SelectMarks<T(!new), C(!new)>(kind: Kind<T, C>, es: seq<Entry<T>>, max: nat)
    requires MULTIPART_CLOSE_LENGTH <= max && Checked(kind, es, max)
    ensures Marked(kind, Select(es, Space(max)), max) && NoneProcessed(Select(es, Space(max)))
  {
    var chosen := Select(es, Space(max));
    forall i | 0 <= i < |chosen|
      ensures chosen[i].size == kind.EstimateOf(chosen[i].item)
      ensures chosen[i].status == Ignored <==> !Eligible(kind, chosen[i].item, max)
      ensures chosen[i].status != Processed
    {
      SelectionAt(es, Space(max), i);
      GreedySelection(kind, es, max, i);
    }
  }

  lemma {:induction false} BuildMarks<T(!new), C(!new)>(kind: Kind<T, C>, es: seq<Entry<T>>, max: nat,
                                                        surroundings: Surroundings<C>, room: nat)
    requires Marked(kind, es, max)
    ensures Marked(kind, BuiltEntries(kind, es, surroundings, room), max)
  {
    if es != [] {
      var after := RoomAfter(kind, es[0], surroundings, room);
      BuildMarks(kind, es[1..], max, surroundings, after);
      var built, rest := BuiltEntries(kind, es, surroundings, room), BuiltEntries(kind, es[1..], surroundings, after);
      assert forall i :: 1 <= i < |built| ==> built[i] == rest[i - 1];
    }
  }

  lemma {:induction false} AcceptChecks<T(!new), C(!new)>(kind: Kind<T, C>, es: seq<Entry<T>>, max: nat)
    requires Marked(kind, es, max)
    ensures Checked(kind, AfterAccept(es), max)
    ensures FullyProcessed(es) <==> AllIgnored(kind, AfterAccept(es), max)
  {
    if es != [] {
      AcceptChecks(kind, es[1..], max);
      var left, rest := AfterAccept(es), AfterAccept(es[1..]);
      assert FullyProcessed(es) <==> (es[0].status != Selected && es[0].status != Ready && FullyProcessed(es[1..]));
      if !es[0].status.Processed? {
        assert forall i :: 1 <= i < |left| ==> left[i] == rest[i - 1];
        assert forall i :: 0 <= i < |rest| ==> rest[i] == left[i + 1];
        assert AllIgnored(kind, left, max) <==> (!Eligible(kind, left[0].item, max) && AllIgnored(kind, rest, max));
      }
    }
  }

  // ----- items that can never be sent -----

  function Oversized<T(!new), C(!new)>(kind: Kind<T, C>, ss: seq<Stored<T>>, max: nat): seq<Stored<T>> {
    if ss == [] then []
    else (if Eligible(kind, ss[0].item, max) then [] else [ss[0]]) + Oversized(kind, ss[1..], max)
  }

  lemma {:induction false} OversizedCons<T(!new), C(!new)>(kind: Kind<T, C>, first: Stored<T>, rest: seq<Stored<T>>,
                                                           max: nat)
    ensures Oversized(kind, [first] + rest, max)
            == (if Eligible(kind, first.item, max) then [] else [first]) + Oversized(kind, rest, max)
  {
    assert ([first] + rest)[1..] == rest;
  }

  lemma {:induction false} AllOversized<T(!new), C(!new)>(kind: Kind<T, C>, es: seq<Entry<T>>, max: nat)
    ensures |Oversized(kind, Cores(es), max)| <= |es|
    ensures AllIgnored(kind, es, max) <==> Oversized(kind, Cores(es), max) == Cores(es)
    ensures AllIgnored(kind, es, max) <==> |Oversized(kind, Cores(es), max)| == |es|
  {
    if es != [] {
      AllOversized(kind, es[1..], max);
      assert Cores(es) == [Stored(es[0].id, es[0].item)] + Cores(es[1..]);
      OversizedCons(kind, Stored(es[0].id, es[0].item), Cores(es[1..]), max);
      assert AllIgnored(kind, es, max) <==> (!Eligible(kind, es[0].item, max) && AllIgnored(kind, es[1..], max));
    }
  }

  /** They never leave the store. */
  lemma {:induction false} BuildKeepsOversized<T(!new), C(!new)>(kind: Kind<T, C>, es: seq<Entry<T>>, max: nat,
                                                                 surroundings: Surroundings<C>, room: nat)
    requires Marked(kind, es, max) && NoneProcessed(es)
    ensures Oversized(kind, Cores(AfterAccept(BuiltEntries(kind, es, surroundings, room))), max)
            == Oversized(kind, Cores(es), max)
  {
    if es != [] {
      var first, after := Stored(es[0].id, es[0].item), RoomAfter(kind, es[0], surroundings, room);
      BuildFirst(kind, es, surroundings, room);
      BuildKeepsOversized(kind, es[1..], max, surroundings, after);
      assert Cores(es) == [first] + Cores(es[1..]);
      OversizedCons(kind, first, Cores(es[1..]), max);
      OversizedCons(kind, first, Cores(AfterAccept(BuiltEntries(kind, es[1..], surroundings, after))), max);
    }
  }

  // ----- the end of a round -----

  /** The result of a round that ends the exchange says exactly what is left. */
  ghost predicate Exit<T(!new), C(!new)>(kind: Kind<T, C>, o: Outcome<T>, max: nat) {
    && AllReady(o.entries)
    && o.code != StoreIsEmpty
    && (o.code == Ok <==> o.entries == [])
    && (o.code == ItemExceedsMaxHttpRequestSize <==> o.entries != [] && AllIgnored(kind, o.entries, max))
  }

  ghost predicate Continues<T(!new), C(!new)>(kind: Kind<T, C>, o: Outcome<T>, max: nat) {
    o.code == Ok && !o.finished && Checked(kind, o.entries, max) && !AllIgnored(kind, o.entries, max)
  }

  ghost predicate RoundEnd<T(!new), C(!new)>(kind: Kind<T, C>, before: seq<Stored<T>>, o: Outcome<T>, max: nat) {
    && Oversized(kind, Cores(o.entries), max) == Oversized(kind, before, max)
    && (if o.code == Ok && !o.finished then Continues(kind, o, max) else Exit(kind, o, max))
  }

  lemma SameItemsIgnored<T(!new), C(!new)>(kind: Kind<T, C>, es: seq<Entry<T>>, others: seq<Entry<T>>, max: nat)
    requires Cores(es) == Cores(others)
    ensures AllIgnored(kind, es, max) <==> AllIgnored(kind, others, max)
  {
    AllOversized(kind, es, max);
    AllOversized(kind, others, max);
  }

  lemma FailedEnds<T(!new), C(!new)>(kind: Kind<T, C>, es: seq<Entry<T>>, now: seq<Entry<T>>, code: Code, max: nat)
    requires Cores(now) == Cores(es) && es != [] && !AllIgnored(kind, es, max)
    requires code != Ok && code != StoreIsEmpty && code != ItemExceedsMaxHttpRequestSize
    ensures RoundEnd(kind, Cores(es), Failed(now, code), max)
  {
    RevertKeepsItems(now);
    SameItemsIgnored(kind, es, Revert(now), max);
  }

  lemma AcceptedEnds<T(!new), C(!new)>(kind: Kind<T, C>, before: seq<Stored<T>>, built: seq<Entry<T>>, d: Delivery<T>,
                                       max: nat)
    requires Marked(kind, built, max)
    requires Oversized(kind, Cores(AfterAccept(built)), max) == Oversized(kind, before, max)
    ensures RoundEnd(kind, before, Accepted(built, d), max)
  {
    AcceptChecks(kind, built, max);
    RevertKeepsItems(AfterAccept(built));
    SameItemsIgnored(kind, AfterAccept(built), Revert(AfterAccept(built)), max);
  }

  lemma RoundEnds<T(!new), C(!new)>(kind: Kind<T, C>, es: seq<Entry<T>>, max: nat, surroundings: Surroundings<C>)
    requires MULTIPART_CLOSE_LENGTH <= max && Checked(kind, es, max) && !AllIgnored(kind, es, max)
    ensures RoundEnd(kind, Cores(es), Round(kind, es, max, surroundings), max)
  {
    var selected, room := Select(es, Space(max)), BufferSize(es, max);
    SelectKeepsItems(es, Space(max));
    if surroundings.boundary.Failure? {
      FailedEnds(kind, es, es, surroundings.boundary.code, max);
    } else if !surroundings.bodyAllocated {
      FailedEnds(kind, es, selected, OutOfMemory, max);
    } else {
      var built := BuiltEntries(kind, selected, surroundings, room);
      var d := Delivery(surroundings.boundary.value, BuiltBody(kind, selected, surroundings, room));
      BuildKeepsItems(kind, selected, surroundings, room);
      if !Closes(es, max, d.carried) {
        FailedEnds(kind, es, built, Fail, max);
      } else if surroundings.answer != Ok {
        FailedEnds(kind, es, built, surroundings.answer, max);
      } else {
        SelectMarks(kind, es, max);
        BuildMarks(kind, selected, max, surroundings, room);
        BuildKeepsOversized(kind, selected, max, surroundings, room);
        AcceptedEnds(kind, Cores(es), built, d, max);
      }
    }
  }

  // ----- the end of an exchange -----

  lemma {:induction false} RoundsEnd<T(!new), C(!new)>(kind: Kind<T, C>, es: seq<Entry<T>>, max: nat, world: World<C>,
                                                       k: nat)
    requires MULTIPART_CLOSE_LENGTH <= max && Checked(kind, es, max) && !AllIgnored(kind, es, max)
    ensures var o := Rounds(kind, es, max, world, k);
            && Exit(kind, o, max)
            && Oversized(kind, Cores(o.entries), max) == Oversized(kind, Cores(es), max)
    decreases |es|
  {
    RoundEnds(kind, es, max, world.Round(k));
    RoundRemoves(kind, es, max, world.Round(k));
    var first := Round(kind, es, max, world.Round(k));
    if first.code == Ok && !first.finished {
      RoundsEnd(kind, first.entries, max, world, k + 1);
    }
  }

  /** How an exchange ends, whatever its surroundings are. Success means that the store had items and
      has none left; the complaint about the size, that exactly the items that can never be sent are
      left; everything that is left is ready for the next exchange. */
  lemma ExchangeEnds<T(!new), C(!new)>(kind: Kind<T, C>, es: seq<Entry<T>>, max: nat, world: World<C>)
    requires AllReady(es)
    ensures var o := ExchangeStore(kind, es, max, world);
            && AllReady(o.entries)
            && Oversized(kind, Cores(o.entries), max) == Oversized(kind, Cores(es), max)
            && (o.code == StoreIsEmpty <==> es == [])
            && (o.code == Ok <==> es != [] && o.entries == [])
            && (o.code == ItemExceedsMaxHttpRequestSize
                <==> o.entries != [] && Cores(o.entries) == Oversized(kind, Cores(es), max))
  {
    var o, checked := ExchangeStore(kind, es, max, world), CheckEntries(kind, es, max);
    CheckKeepsItems(kind, es, max);
    RevertKeepsItems(checked);
    AllOversized(kind, o.entries, max);
    AllOversized(kind, es, max);
    if CheckCode(kind, es, max) == Ok {
      CheckMarks(kind, es, max);
      SameItemsIgnored(kind, es, checked, max);
      RoundsEnd(kind, checked, max, world, 0);
    }
  }

  // ----- what was sent and what was accepted -----

  /** A body that was built in the given surroundings: it is not empty and not too long, and holds
      nothing but what the items that can be sent became in these surroundings. */
  ghost predicate Proper<T(!new), C(!new)>(kind: Kind<T, C>, d: Delivery<T>, max: nat, surroundings: Surroundings<C>) {
    && surroundings.boundary == Success(d.boundary) && surroundings.bodyAllocated
    && d.carried != [] && |d.Text()| <= max
    && forall i :: 0 <= i < |d.carried| ==> var c := d.carried[i];
         && Eligible(kind, c.item, max)
         && kind.PartOf(c.item, surroundings.ConditionsOf(c.id)) == Some(c.part)
  }

  /** A body that was also accepted. */
  ghost predicate Sound<T(!new), C(!new)>(kind: Kind<T, C>, d: Delivery<T>, max: nat, surroundings: Surroundings<C>) {
    Proper(kind, d, max, surroundings) && surroundings.answer == Ok
  }

  lemma {:induction false} CarriedAsGiven<T(!new), C(!new)>(kind: Kind<T, C>, es: seq<Entry<T>>, max: nat,
                                                            surroundings: Surroundings<C>, room: nat)
    requires Marked(kind, es, max)
    ensures forall c :: c in BuiltBody(kind, es, surroundings, room) ==>
              && Eligible(kind, c.item, max)
              && kind.PartOf(c.item, surroundings.ConditionsOf(c.id)) == Some(c.part)
  {
    if es != [] {
      CarriedAsGiven(kind, es[1..], max, surroundings, RoomAfter(kind, es[0], surroundings, room));
    }
  }

  lemma BodyLength(boundary: Boundary, parts: seq<Part>)
    ensures |Body(boundary, parts)| == TuplesLength(parts) + MULTIPART_CLOSE_LENGTH
  {
    TuplesSize(boundary, parts);
    assert |Body(boundary, parts)| == |Tuples(boundary, parts)| + |Closing(boundary)|;
  }

  lemma SentIsProper<T(!new), C(!new)>(kind: Kind<T, C>, es: seq<Entry<T>>, max: nat, surroundings: Surroundings<C>)
    requires MULTIPART_CLOSE_LENGTH <= max && Checked(kind, es, max)
    ensures var sent := Sent(kind, es, max, surroundings); sent.Some? ==> Proper(kind, sent.value, max, surroundings)
  {
    var sent := Sent(kind, es, max, surroundings);
    if sent.Some? {
      SelectMarks(kind, es, max);
      CarriedAsGiven(kind, Select(es, Space(max)), max, surroundings, BufferSize(es, max));
      BodyLength(sent.value.boundary, Parts(sent.value.carried));
    }
  }

  /** A round goes on, or is the last good one, exactly if it has sent a body and this was accepted; every
      body it sends is proper. */
  lemma RoundIsSound<T(!new), C(!new)>(kind: Kind<T, C>, es: seq<Entry<T>>, max: nat, surroundings: Surroundings<C>)
    requires MULTIPART_CLOSE_LENGTH <= max && Checked(kind, es, max)
    ensures var o, sent := Round(kind, es, max, surroundings), Sent(kind, es, max, surroundings);
            && (sent.Some? ==> Proper(kind, sent.value, max, surroundings))
            && o.accepted == (if surroundings.answer == Ok then sent.ToSeq() else [])
            && (o.code == Ok || o.finished <==> o.accepted != [])
  {
    SentIsProper(kind, es, max, surroundings);
  }

  /** The accepted bodies of successive rounds, from round k on. */
  ghost predicate AllSound<T(!new), C(!new)>(kind: Kind<T, C>, ds: seq<Delivery<T>>, max: nat, world: World<C>, k: nat) {
    ds == [] || (Sound(kind, ds[0], max, world.Round(k)) && AllSound(kind, ds[1..], max, world, k + 1))
  }

  ghost predicate AllProper<T(!new), C(!new)>(kind: Kind<T, C>, ds: seq<Delivery<T>>, max: nat, world: World<C>, k: nat) {
    ds == [] || (Proper(kind, ds[0], max, world.Round(k)) && AllProper(kind, ds[1..], max, world, k + 1))
  }

  /** All but possibly the last. */
  ghost predicate AllButLast<X>(some: seq<X>, all: seq<X>) {
    some == all || (all != [] && some == all[..|all| - 1])
  }

  lemma {:induction false} RoundsAreSound<T(!new), C(!new)>(kind: Kind<T, C>, es: seq<Entry<T>>, max: nat,
                                                            world: World<C>, k: nat)
    requires MULTIPART_CLOSE_LENGTH <= max && Checked(kind, es, max) && !AllIgnored(kind, es, max)
    ensures var o, sent := Rounds(kind, es, max, world, k), SentBodies(kind, es, max, world, k);
            && AllSound(kind, o.accepted, max, world, k)
            && AllProper(kind, sent, max, world, k)
            && AllButLast(o.accepted, sent)
    decreases |es|
  {
    RoundIsSound(kind, es, max, world.Round(k));
    RoundEnds(kind, es, max, world.Round(k));
    RoundRemoves(kind, es, max, world.Round(k));
    var first, sent := Round(kind, es, max, world.Round(k)), Sent(kind, es, max, world.Round(k));
    if first.code == Ok && !first.finished {
      RoundsAreSound(kind, first.entries, max, world, k + 1);
      var others, rest := Rounds(kind, first.entries, max, world, k + 1).accepted,
                          SentBodies(kind, first.entries, max, world, k + 1);
      assert ([sent.value] + others)[1..] == others && ([sent.value] + rest)[1..] == rest;
      AllButLastCons(sent.value, others, rest);
    } else if sent.Some? {
      assert [sent.value][1..] == [];
    }
  }

  lemma AllButLastCons<X>(x: X, some: seq<X>, all: seq<X>)
    requires AllButLast(some, all)
    ensures AllButLast([x] + some, [x] + all)
  {
  }

  /** Every body an exchange sends, accepted or not, is within the limit, and each item in it is one that
      can be sent, with the texts it had in that round.  All of them are accepted but possibly the last. */
  lemma ExchangeIsSound<T(!new), C(!new)>(kind: Kind<T, C>, es: seq<Entry<T>>, max: nat, world: World<C>)
    requires AllReady(es)
    ensures var o, sent := ExchangeStore(kind, es, max, world), ExchangeSends(kind, es, max, world);
            && AllSound(kind, o.accepted, max, world, 0)
            && AllProper(kind, sent, max, world, 0)
            && AllButLast(o.accepted, sent)
  {
    var checked := CheckEntries(kind, es, max);
    if CheckCode(kind, es, max) == Ok {
      CheckMarks(kind, es, max);
      CheckKeepsItems(kind, es, max);
      SameItemsIgnored(kind, es, checked, max);
      RoundsAreSound(kind, checked, max, world, 0);
    }
  }

  // ----- the code of a failure -----

  /** Why a round has sent nothing, in the order in which the steps are taken. */
  function NotSentCode<C>(surroundings: Surroundings<C>): Code {
    if surroundings.boundary.Failure? then surroundings.boundary.code
    else if !surroundings.bodyAllocated then OutOfMemory
    else Fail
  }

  lemma RoundCode<T(!new), C(!new)>(kind: Kind<T, C>, es: seq<Entry<T>>, max: nat, surroundings: Surroundings<C>)
    requires MULTIPART_CLOSE_LENGTH <= max && Checked(kind, es, max) && !AllIgnored(kind, es, max)
    ensures var o, sent := Round(kind, es, max, surroundings), Sent(kind, es, max, surroundings);
            match sent
            case None => o.accepted == [] && o.code == NotSentCode(surroundings)
            case Some(d) =>
              if surroundings.answer != Ok then o.accepted == [] && o.code == surroundings.answer
              else o.accepted == [d] && o.code in {Ok, ItemExceedsMaxHttpRequestSize}
  {
  }

  /** How the bodies sent and accepted from round k on, and what is left, determine the code. */
  ghost predicate CodeIsFor<T(!new), C(!new)>(kind: Kind<T, C>, o: Outcome<T>, sent: seq<Delivery<T>>, max: nat,
                                              world: World<C>, k: nat)
  {
    var last := world.Round(k + |o.accepted|);
    if |sent| != |o.accepted| then |sent| == |o.accepted| + 1 && last.answer != Ok && o.code == last.answer
    else if AllIgnored(kind, o.entries, max) then o.code == if o.entries == [] then Ok else ItemExceedsMaxHttpRequestSize
    else o.code == NotSentCode(last)
  }

  lemma CodeOfLast<T(!new), C(!new)>(kind: Kind<T, C>, es: seq<Entry<T>>, max: nat, world: World<C>, k: nat)
    requires MULTIPART_CLOSE_LENGTH <= max && Checked(kind, es, max) && !AllIgnored(kind, es, max)
    requires var o := Round(kind, es, max, world.Round(k)); o.code != Ok || o.finished
    ensures CodeIsFor(kind, Round(kind, es, max, world.Round(k)), Sent(kind, es, max, world.Round(k)).ToSeq(), max, world, k)
  {
    RoundCode(kind, es, max, world.Round(k));
    RoundEnds(kind, es, max, world.Round(k));
    CodeByExit(kind, Round(kind, es, max, world.Round(k)), Sent(kind, es, max, world.Round(k)), max, world, k);
  }

  lemma CodeByExit<T(!new), C(!new)>(kind: Kind<T, C>, o: Outcome<T>, sent: Option<Delivery<T>>, max: nat,
                                     world: World<C>, k: nat)
    requires Exit(kind, o, max)
    requires match sent
             case None => o.accepted == [] && o.code == NotSentCode(world.Round(k))
             case Some(d) =>
               if world.Round(k).answer != Ok then o.accepted == [] && o.code == world.Round(k).answer
               else o.accepted == [d] && o.code in {Ok, ItemExceedsMaxHttpRequestSize}
    ensures CodeIsFor(kind, o, sent.ToSeq(), max, world, k)
  {
    assert k + 0 == k;
  }

  lemma CodeOfLater<T(!new), C(!new)>(kind: Kind<T, C>, first: Outcome<T>, d: Delivery<T>, o: Outcome<T>,
                                      sent: seq<Delivery<T>>, max: nat, world: World<C>, k: nat, next: nat)
    requires next == k + 1 && first.accepted == [d] && CodeIsFor(kind, o, sent, max, world, next)
    ensures CodeIsFor(kind, o.(accepted := first.accepted + o.accepted), [d] + sent, max, world, k)
  {
    assert |first.accepted + o.accepted| == 1 + |o.accepted| && |[d] + sent| == 1 + |sent|;
    assert k + (1 + |o.accepted|) == next + |o.accepted|;
  }

  lemma {:induction false} CodeOfRounds<T(!new), C(!new)>(kind: Kind<T, C>, es: seq<Entry<T>>, max: nat,
                                                          world: World<C>, k: nat)
    requires MULTIPART_CLOSE_LENGTH <= max && Checked(kind, es, max) && !AllIgnored(kind, es, max)
    ensures CodeIsFor(kind, Rounds(kind, es, max, world, k), SentBodies(kind, es, max, world, k), max, world, k)
    decreases |es|
  {
    var first, sent := Round(kind, es, max, world.Round(k)), Sent(kind, es, max, world.Round(k));
    RoundRemoves(kind, es, max, world.Round(k));
    if first.code == Ok && !first.finished {
      RoundCode(kind, es, max, world.Round(k));
      RoundEnds(kind, es, max, world.Round(k));
      CodeOfRounds(kind, first.entries, max, world, k + 1);
      CodeOfLater(kind, first, sent.value, Rounds(kind, first.entries, max, world, k + 1),
                  SentBodies(kind, first.entries, max, world, k + 1), max, world, k, k + 1);
    } else {
      CodeOfLast(kind, es, max, world, k);
    }
  }

  /** Only items of more than what the closing delimiter leaves are too large. */
  ghost predicate AllTooLarge<T(!new), C(!new)>(kind: Kind<T, C>, es: seq<Entry<T>>, max: nat) {
    forall i :: 0 <= i < |es| ==> 24 + kind.EstimateOf(es[i].item) > max
  }

  /** The result of an exchange.  A body that was sent and refused: the answer of the server or of the
      transport, unchanged.  Nothing more to send: success, or the complaint about what is too large.
      Otherwise the last round could not send: the boundary's own error, or no memory for the body, or a
      body that is empty or cannot be closed. */
  lemma ExchangeCode<T(!new), C(!new)>(kind: Kind<T, C>, es: seq<Entry<T>>, max: nat, world: World<C>)
    requires AllReady(es)
    ensures var o, sent := ExchangeStore(kind, es, max, world), ExchangeSends(kind, es, max, world);
            var last := world.Round(|o.accepted|);
            if es == [] then o.code == StoreIsEmpty && sent == []
            else if AllTooLarge(kind, es, max) then o.code == ItemExceedsMaxHttpRequestSize && sent == []
            else if |sent| > |o.accepted| then last.answer != Ok && o.code == last.answer
            else if o.entries == [] then o.code == Ok
            else if AllTooLarge(kind, o.entries, max) then o.code == ItemExceedsMaxHttpRequestSize
            else if last.boundary.Failure? then o.code == last.boundary.code
            else if !last.bodyAllocated then o.code == OutOfMemory
            else o.code == Fail
  {
    var checked := CheckEntries(kind, es, max);
    assert AllTooLarge(kind, es, max) <==> AllIgnored(kind, es, max);
    if CheckCode(kind, es, max) == Ok {
      CheckMarks(kind, es, max);
      CheckKeepsItems(kind, es, max);
      SameItemsIgnored(kind, es, checked, max);
      CodeOfRounds(kind, checked, max, world, 0);
      var o := ExchangeStore(kind, es, max, world);
      assert AllTooLarge(kind, o.entries, max) <==> AllIgnored(kind, o.entries, max);
    }
  }

  /** The items that an exchange leaves behind for good, in plain terms. */
  lemma {:induction false} OversizedIs<T(!new), C(!new)>(kind: Kind<T, C>, ss: seq<Stored<T>>, max: nat, s: Stored<T>)
    ensures s in Oversized(kind, ss, max) <==> s in ss && 24 + kind.EstimateOf(s.item) > max
  {
    if ss != [] {
      OversizedIs(kind, ss[1..], max, s);
      assert ss == [ss[0]] + ss[1..];
    }
  }
}
