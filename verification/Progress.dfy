/** Progress of an exchange: how many bodies it can take, and that it sends all it can when nothing
    outside goes wrong. */
module Progress {
  import opened Core
  import opened Multipart
  import opened Receiver
  import opened Exchange
  import opened ExchangeProofs
  import opened Selection
  import opened ExitStates

  // ----- the number of rounds -----

  lemma {:induction false} BodiesCarryItems<T(!new), C(!new)>(kind: Kind<T, C>, ds: seq<Delivery<T>>, max: nat,
                                                              world: World<C>, k: nat)
    requires AllSound(kind, ds, max, world, k)
    ensures |ds| <= |DeliveredCores(ds)|
  {
    if ds != [] {
      BodiesCarryItems(kind, ds[1..], max, world, k + 1);
    }
  }

  /** There are at most as many accepted bodies as there are items that can be sent. */
  lemma RoundsAreBounded<T(!new), C(!new)>(kind: Kind<T, C>, es: seq<Entry<T>>, max: nat, world: World<C>, low: nat)
    requires AllReady(es) && Ascending(Cores(es), low)
    ensures |ExchangeStore(kind, es, max, world).accepted| <= |es| - |Oversized(kind, Cores(es), max)|
  {
    var o := ExchangeStore(kind, es, max, world);
    ExchangeConserves(kind, es, max, world, low);
    ExchangeEnds(kind, es, max, world);
    ExchangeIsSound(kind, es, max, world);
    BodiesCarryItems(kind, o.accepted, max, world, 0);
    AllOversized(kind, o.entries, max);
    assert |multiset(Cores(es))| == |Cores(o.entries)| + |DeliveredCores(o.accepted)|;
  }

  // ----- rounds in which nothing goes wrong -----

  ghost predicate Undisturbed<C(!new)>(surroundings: Surroundings<C>) {
    surroundings.boundary.Success? && surroundings.bodyAllocated && surroundings.answer == Ok
  }

  /** The item can be written, and takes no more space than was estimated. */
  ghost predicate Writable<T(!new), C(!new)>(kind: Kind<T, C>, id: nat, item: T, surroundings: Surroundings<C>) {
    var part := kind.PartOf(item, surroundings.ConditionsOf(id));
    part.Some? && TupleLength(part.value) <= kind.EstimateOf(item)
  }

  ghost predicate Healthy<T(!new), C(!new)>(kind: Kind<T, C>, ss: seq<Stored<T>>, surroundings: Surroundings<C>) {
    && Undisturbed(surroundings)
    && forall s :: s in ss ==> Writable(kind, s.id, s.item, surroundings)
  }

  /** The length of an entry in the body, if it is selected. */
  function LengthOf<T(!new), C(!new)>(kind: Kind<T, C>, e: Entry<T>, surroundings: Surroundings<C>): nat {
    var part := kind.PartOf(e.item, surroundings.ConditionsOf(e.id));
    if e.status == Selected && part.Some? then TupleLength(part.value) else 0
  }

  function WrittenLength<T(!new), C(!new)>(kind: Kind<T, C>, es: seq<Entry<T>>, surroundings: Surroundings<C>): nat {
    if es == [] then 0 else LengthOf(kind, es[0], surroundings) + WrittenLength(kind, es[1..], surroundings)
  }

  /** An entry as it would be carried, if it is selected and its part exists. */
  function ExistingOne<T(!new), C(!new)>(kind: Kind<T, C>, e: Entry<T>, surroundings: Surroundings<C>): seq<Carried<T>> {
    var part := kind.PartOf(e.item, surroundings.ConditionsOf(e.id));
    if e.status == Selected && part.Some? then [Carried(e.id, e.item, part.value)] else []
  }

  /** All that there is to send of the selected entries. */
  function Existing<T(!new), C(!new)>(kind: Kind<T, C>, es: seq<Entry<T>>, surroundings: Surroundings<C>)
    : seq<Carried<T>>
  {
    if es == [] then [] else ExistingOne(kind, es[0], surroundings) + Existing(kind, es[1..], surroundings)
  }

  lemma TuplesLengthCons(first: Part, rest: seq<Part>)
    ensures TuplesLength([first] + rest) == TupleLength(first) + TuplesLength(rest)
  {
    assert ([first] + rest)[1..] == rest;
  }

  lemma PartsCons<T>(first: Carried<T>, rest: seq<Carried<T>>)
    ensures Parts([first] + rest) == [first.part] + Parts(rest)
  {
  }

  lemma {:induction false} ExistingLength<T(!new), C(!new)>(kind: Kind<T, C>, es: seq<Entry<T>>,
                                                            surroundings: Surroundings<C>)
    ensures TuplesLength(Parts(Existing(kind, es, surroundings))) == WrittenLength(kind, es, surroundings)
  {
    if es != [] {
      ExistingLength(kind, es[1..], surroundings);
      var first, rest := ExistingOne(kind, es[0], surroundings), Existing(kind, es[1..], surroundings);
      if first == [] {
        assert first + rest == rest;
      } else {
        PartsCons(first[0], rest);
        TuplesLengthCons(first[0].part, Parts(rest));
      }
    }
  }

  /** If there is room for all that exists, the body is all that exists. */
  lemma {:induction false} BuildsExisting<T(!new), C(!new)>(kind: Kind<T, C>, es: seq<Entry<T>>,
                                                            surroundings: Surroundings<C>, room: nat)
    requires WrittenLength(kind, es, surroundings) <= room
    ensures BuiltBody(kind, es, surroundings, room) == Existing(kind, es, surroundings)
  {
    if es != [] {
      BuildsExisting(kind, es[1..], surroundings, RoomAfter(kind, es[0], surroundings, room));
    }
  }

  /** Every selected entry has a part. */
  ghost predicate SelectedExist<T(!new), C(!new)>(kind: Kind<T, C>, es: seq<Entry<T>>, surroundings: Surroundings<C>) {
    forall i :: 0 <= i < |es| && es[i].status == Selected ==>
      kind.PartOf(es[i].item, surroundings.ConditionsOf(es[i].id)).Some?
  }

  function IfProcessed<T>(e: Entry<T>): Entry<T> {
    if e.status == Selected then e.(status := Processed) else e
  }

  ghost predicate AllProcessed<T>(selected: seq<Entry<T>>, built: seq<Entry<T>>) {
    |built| == |selected| && forall i :: 0 <= i < |selected| ==> built[i] == IfProcessed(selected[i])
  }

  lemma AllProcessedCons<T>(es: seq<Entry<T>>, fs: seq<Entry<T>>)
    requires es != [] && |fs| == |es|
    ensures AllProcessed(es, fs) <==> fs[0] == IfProcessed(es[0]) && AllProcessed(es[1..], fs[1..])
  {
    var others, rest := es[1..], fs[1..];
    if AllProcessed(es, fs) {
      forall i | 0 <= i < |others| ensures rest[i] == IfProcessed(others[i]) {
        assert fs[i + 1] == IfProcessed(es[i + 1]);
      }
    }
    if fs[0] == IfProcessed(es[0]) && AllProcessed(others, rest) {
      forall i | 0 <= i < |es| ensures fs[i] == IfProcessed(es[i]) {
        if i > 0 {
          assert rest[i - 1] == IfProcessed(others[i - 1]);
        }
      }
    }
  }

  lemma SelectedExistCons<T(!new), C(!new)>(kind: Kind<T, C>, es: seq<Entry<T>>, surroundings: Surroundings<C>)
    requires es != []
    ensures SelectedExist(kind, es, surroundings)
            <==> (es[0].status == Selected ==> ExistingOne(kind, es[0], surroundings) != [])
                 && SelectedExist(kind, es[1..], surroundings)
  {
    assert forall i :: 0 <= i < |es[1..]| ==> es[1..][i] == es[i + 1];
    assert forall i :: 1 <= i < |es| ==> es[i] == es[1..][i - 1];
  }

  /** All selected entries become processed exactly if they have parts and the body is all of them. */
  lemma {:induction false} BuildsAll<T(!new), C(!new)>(kind: Kind<T, C>, es: seq<Entry<T>>,
                                                       surroundings: Surroundings<C>, room: nat)
    ensures AllProcessed(es, BuiltEntries(kind, es, surroundings, room))
            <==> SelectedExist(kind, es, surroundings)
                 && BuiltBody(kind, es, surroundings, room) == Existing(kind, es, surroundings)
  {
    if es != [] {
      var after := RoomAfter(kind, es[0], surroundings, room);
      BuildsAll(kind, es[1..], surroundings, after);
      var built := BuiltEntries(kind, es, surroundings, room);
      assert built[1..] == BuiltEntries(kind, es[1..], surroundings, after);
      AllProcessedCons(es, built);
      SelectedExistCons(kind, es, surroundings);
      BodyFirst(kind, es, surroundings, room);
    }
  }

  /** Whether the first entry is in the body decides whether the body can be all that exists. */
  lemma BodyFirst<T(!new), C(!new)>(kind: Kind<T, C>, es: seq<Entry<T>>, surroundings: Surroundings<C>, room: nat)
    requires es != []
    ensures CarriedBy(kind, es[0], surroundings, room) == ExistingOne(kind, es[0], surroundings) ==>
              (BuiltBody(kind, es, surroundings, room) == Existing(kind, es, surroundings)
               <==> BuiltBody(kind, es[1..], surroundings, RoomAfter(kind, es[0], surroundings, room))
                    == Existing(kind, es[1..], surroundings))
    ensures CarriedBy(kind, es[0], surroundings, room) != ExistingOne(kind, es[0], surroundings) ==>
              |BuiltBody(kind, es, surroundings, room)| < |Existing(kind, es, surroundings)|
  {
    var after := RoomAfter(kind, es[0], surroundings, room);
    var one, rest := CarriedBy(kind, es[0], surroundings, room), BuiltBody(kind, es[1..], surroundings, after);
    var other, others := ExistingOne(kind, es[0], surroundings), Existing(kind, es[1..], surroundings);
    BodyIsShorter(kind, es[1..], surroundings, after);
    if one == other {
      assert (one + rest)[|one|..] == rest && (one + others)[|one|..] == others;
    }
  }

  lemma {:induction false} BodyIsShorter<T(!new), C(!new)>(kind: Kind<T, C>, es: seq<Entry<T>>,
                                                           surroundings: Surroundings<C>, room: nat)
    ensures |BuiltBody(kind, es, surroundings, room)| <= |Existing(kind, es, surroundings)|
  {
    if es != [] {
      BodyIsShorter(kind, es[1..], surroundings, RoomAfter(kind, es[0], surroundings, room));
    }
  }

  lemma SomethingIsSelected<T(!new), C(!new)>(kind: Kind<T, C>, es: seq<Entry<T>>, max: nat)
    requires MULTIPART_CLOSE_LENGTH <= max && Checked(kind, es, max) && !AllIgnored(kind, es, max)
    ensures !NoneSelected(Select(es, Space(max)))
  {
    var i := 0;
    while !Eligible(kind, es[i].item, max)
      invariant i < |es| && AllIgnored(kind, es[..i], max)
      decreases |es| - i
    {
      i := i + 1;
    }
    GreedySelection(kind, es, max, i);
    assert Select(es, Space(max))[i].status == Selected;
  }

  /** The end of an undisturbed round, by the body that was built. */
  lemma RoundByBody<T(!new), C(!new)>(kind: Kind<T, C>, es: seq<Entry<T>>, max: nat, surroundings: Surroundings<C>)
    requires MULTIPART_CLOSE_LENGTH <= max && Checked(kind, es, max) && Undisturbed(surroundings)
    ensures var o, chosen := Round(kind, es, max, surroundings), Select(es, Space(max));
            var built := BuiltEntries(kind, chosen, surroundings, BufferSize(es, max));
            var body := BuiltBody(kind, chosen, surroundings, BufferSize(es, max));
            && BufferSize(es, max) == SelectedSize(chosen) + MULTIPART_CLOSE_LENGTH
            && o == (if body != [] && TuplesLength(Parts(body)) <= SelectedSize(chosen)
                     then Accepted(built, Delivery(surroundings.boundary.value, body)) else Failed(built, Fail))
            && (o.accepted == [] || (|o.accepted| == 1 && o == Accepted(built, o.accepted[0])))
  {
    SelectionFits(es, Space(max));
  }

  /** An undisturbed round delivers all that exists of the selected items exactly if there is any and
      its texts do not exceed the estimates of the selected items, taken together. */
  lemma RoundDelivers<T(!new), C(!new)>(kind: Kind<T, C>, es: seq<Entry<T>>, max: nat, surroundings: Surroundings<C>)
    requires MULTIPART_CLOSE_LENGTH <= max && Checked(kind, es, max) && Undisturbed(surroundings)
    ensures var o, chosen := Round(kind, es, max, surroundings), Select(es, Space(max));
            o.accepted == [Delivery(surroundings.boundary.value, Existing(kind, chosen, surroundings))]
            <==> Existing(kind, chosen, surroundings) != []
                 && WrittenLength(kind, chosen, surroundings) <= SelectedSize(chosen)
  {
    var chosen := Select(es, Space(max));
    RoundByBody(kind, es, max, surroundings);
    ExistingLength(kind, chosen, surroundings);
    if WrittenLength(kind, chosen, surroundings) <= SelectedSize(chosen) {
      BuildsExisting(kind, chosen, surroundings, BufferSize(es, max));
    }
  }

  /** It delivers every selected item exactly if all of them have parts and these do not exceed the
      estimates, taken together. */
  lemma RoundDeliversAll<T(!new), C(!new)>(kind: Kind<T, C>, es: seq<Entry<T>>, max: nat, surroundings: Surroundings<C>)
    requires MULTIPART_CLOSE_LENGTH <= max && Checked(kind, es, max) && !AllIgnored(kind, es, max)
    requires Undisturbed(surroundings)
    ensures var o, chosen := Round(kind, es, max, surroundings), Select(es, Space(max));
            var built := BuiltEntries(kind, chosen, surroundings, BufferSize(es, max));
            o.accepted != [] && AllProcessed(chosen, built)
            <==> SelectedExist(kind, chosen, surroundings)
                 && WrittenLength(kind, chosen, surroundings) <= SelectedSize(chosen)
  {
    var chosen, room := Select(es, Space(max)), BufferSize(es, max);
    RoundByBody(kind, es, max, surroundings);
    ExistingLength(kind, chosen, surroundings);
    BuildsAll(kind, chosen, surroundings, room);
    if SelectedExist(kind, chosen, surroundings) && WrittenLength(kind, chosen, surroundings) <= SelectedSize(chosen) {
      BuildsExisting(kind, chosen, surroundings, room);
      SomethingIsSelected(kind, es, max);
      SelectedIsExisting(kind, chosen, surroundings);
    }
  }

  lemma {:induction false} SelectedIsExisting<T(!new), C(!new)>(kind: Kind<T, C>, es: seq<Entry<T>>,
                                                                surroundings: Surroundings<C>)
    requires SelectedExist(kind, es, surroundings) && !NoneSelected(es)
    ensures Existing(kind, es, surroundings) != []
  {
    SelectedExistCons(kind, es, surroundings);
    if es[0].status != Selected {
      assert forall i :: 1 <= i < |es| ==> es[i] == es[1..][i - 1];
      SelectedIsExisting(kind, es[1..], surroundings);
    }
  }

  /** Texts that exceed the estimates by no more than the closing delimiter takes all fit into the
      buffer; then the body cannot be closed, and nothing is sent. */
  lemma RoundSendsNothing<T(!new), C(!new)>(kind: Kind<T, C>, es: seq<Entry<T>>, max: nat, surroundings: Surroundings<C>)
    requires MULTIPART_CLOSE_LENGTH <= max && Checked(kind, es, max) && Undisturbed(surroundings)
    requires var chosen := Select(es, Space(max));
             Existing(kind, chosen, surroundings) == []
             || SelectedSize(chosen) < WrittenLength(kind, chosen, surroundings)
                <= SelectedSize(chosen) + MULTIPART_CLOSE_LENGTH
    ensures var o := Round(kind, es, max, surroundings);
            o.code == Fail && o.accepted == [] && Cores(o.entries) == Cores(es)
  {
    var chosen, room := Select(es, Space(max)), BufferSize(es, max);
    RoundByBody(kind, es, max, surroundings);
    ExistingLength(kind, chosen, surroundings);
    BuildsExisting(kind, chosen, surroundings, room);
    SelectKeepsItems(es, Space(max));
    BuildKeepsItems(kind, chosen, surroundings, room);
    RevertKeepsItems(BuiltEntries(kind, chosen, surroundings, room));
  }

  /** No entry takes more than its estimate; one without a part takes nothing. */
  ghost predicate KeepsEstimates<T(!new), C(!new)>(kind: Kind<T, C>, es: seq<Entry<T>>, surroundings: Surroundings<C>) {
    forall i :: 0 <= i < |es| ==> LengthOf(kind, es[i], surroundings) <= es[i].size
  }

  lemma {:induction false} EstimatesAreKept<T(!new), C(!new)>(kind: Kind<T, C>, es: seq<Entry<T>>,
                                                              surroundings: Surroundings<C>)
    requires KeepsEstimates(kind, es, surroundings)
    ensures WrittenLength(kind, es, surroundings) <= SelectedSize(es)
  {
    if es != [] {
      assert forall i :: 0 <= i < |es[1..]| ==> es[1..][i] == es[i + 1];
      EstimatesAreKept(kind, es[1..], surroundings);
      assert LengthOf(kind, es[0], surroundings) <= es[0].size;
    }
  }

  /** If each item is absent or keeps its estimate, the body is exactly what exists of the selected
      items, and it is delivered unless it is empty.  Items that cannot be built harm no other selected
      item. */
  lemma RoundSendsExisting<T(!new), C(!new)>(kind: Kind<T, C>, es: seq<Entry<T>>, max: nat, surroundings: Surroundings<C>)
    requires MULTIPART_CLOSE_LENGTH <= max && Checked(kind, es, max) && Undisturbed(surroundings)
    requires KeepsEstimates(kind, Select(es, Space(max)), surroundings)
    ensures var o, body := Round(kind, es, max, surroundings), Existing(kind, Select(es, Space(max)), surroundings);
            if body == [] then o.code == Fail && o.accepted == []
            else o.accepted == [Delivery(surroundings.boundary.value, body)]
  {
    var chosen := Select(es, Space(max));
    EstimatesAreKept(kind, chosen, surroundings);
    RoundDelivers(kind, es, max, surroundings);
    if Existing(kind, chosen, surroundings) == [] {
      RoundSendsNothing(kind, es, max, surroundings);
    }
  }

  lemma HealthyEntries<T(!new), C(!new)>(kind: Kind<T, C>, es: seq<Entry<T>>, max: nat, surroundings: Surroundings<C>)
    requires Marked(kind, es, max) && Healthy(kind, Cores(es), surroundings)
    ensures SelectedExist(kind, es, surroundings) && WrittenLength(kind, es, surroundings) <= SelectedSize(es)
  {
    forall i | 0 <= i < |es|
      ensures Writable(kind, es[i].id, es[i].item, surroundings)
      ensures LengthOf(kind, es[i], surroundings) <= es[i].size
    {
      assert Cores(es)[i] in Cores(es);
    }
    EstimatesAreKept(kind, es, surroundings);
  }

  /** When each item keeps its estimate, all that was selected is delivered. */
  lemma HealthyRound<T(!new), C(!new)>(kind: Kind<T, C>, es: seq<Entry<T>>, max: nat, surroundings: Surroundings<C>)
    requires MULTIPART_CLOSE_LENGTH <= max && Checked(kind, es, max) && !AllIgnored(kind, es, max)
    requires Healthy(kind, Cores(es), surroundings)
    ensures var o, chosen := Round(kind, es, max, surroundings), Select(es, Space(max));
            var built := BuiltEntries(kind, chosen, surroundings, BufferSize(es, max));
            |o.accepted| == 1 && AllProcessed(chosen, built) && o == Accepted(built, o.accepted[0])
  {
    SelectKeepsItems(es, Space(max));
    SelectMarks(kind, es, max);
    HealthyEntries(kind, Select(es, Space(max)), max, surroundings);
    RoundDeliversAll(kind, es, max, surroundings);
    RoundByBody(kind, es, max, surroundings);
  }

  lemma RemainingStayHealthy<T(!new), C(!new)>(kind: Kind<T, C>, ss: seq<Stored<T>>, o: Outcome<T>,
                                               surroundings: Surroundings<C>)
    requires Healthy(kind, ss, surroundings) && Conserves(ss, o)
    ensures Healthy(kind, Cores(o.entries), surroundings)
  {
    forall s | s in Cores(o.entries) ensures Writable(kind, s.id, s.item, surroundings) {
      assert s in multiset(ss);
    }
  }

  ghost predicate AlwaysHealthy<T(!new), C(!new)>(kind: Kind<T, C>, ss: seq<Stored<T>>, world: World<C>) {
    forall k: nat :: Healthy(kind, ss, world.Round(k))
  }

  lemma {:induction false} HealthyRounds<T(!new), C(!new)>(kind: Kind<T, C>, es: seq<Entry<T>>, max: nat,
                                                           world: World<C>, k: nat, low: nat)
    requires MULTIPART_CLOSE_LENGTH <= max && Checked(kind, es, max) && !AllIgnored(kind, es, max)
    requires AlwaysHealthy(kind, Cores(es), world) && Ascending(Cores(es), low)
    ensures Rounds(kind, es, max, world, k).code in {Ok, ItemExceedsMaxHttpRequestSize}
    decreases |es|
  {
    var first := Round(kind, es, max, world.Round(k));
    assert Healthy(kind, Cores(es), world.Round(k));
    HealthyRound(kind, es, max, world.Round(k));
    RoundEnds(kind, es, max, world.Round(k));
    RoundRemoves(kind, es, max, world.Round(k));
    RoundKeeps(kind, es, max, world.Round(k), Cores(es), low);
    if first.code == Ok && !first.finished {
      forall j: nat ensures Healthy(kind, Cores(first.entries), world.Round(j)) {
        RemainingStayHealthy(kind, Cores(es), first, world.Round(j));
      }
      HealthyRounds(kind, first.entries, max, world, k + 1, low);
    }
  }

  /** When nothing goes wrong, everything that can be sent is: what is left, and the result, depend
      on the estimates alone. */
  lemma HealthyExchange<T(!new), C(!new)>(kind: Kind<T, C>, es: seq<Entry<T>>, max: nat, world: World<C>, low: nat)
    requires AllReady(es) && AlwaysHealthy(kind, Cores(es), world) && Ascending(Cores(es), low)
    ensures var o, left := ExchangeStore(kind, es, max, world), Oversized(kind, Cores(es), max);
            && Cores(o.entries) == left
            && o.code == if es == [] then StoreIsEmpty else if left == [] then Ok else ItemExceedsMaxHttpRequestSize
  {
    var checked := CheckEntries(kind, es, max);
    CheckMarks(kind, es, max);
    CheckKeepsItems(kind, es, max);
    SameItemsIgnored(kind, es, checked, max);
    AllOversized(kind, es, max);
    RevertKeepsItems(checked);
    if CheckCode(kind, es, max) == Ok {
      HealthyRounds(kind, checked, max, world, 0, low);
    }
    ExchangeEnds(kind, es, max, world);
  }

  // ----- rounds that send nothing -----

  /** An exchange whose first round sends nothing has failed, and sends nothing. */
  lemma FirstRoundFails<T(!new), C(!new)>(kind: Kind<T, C>, es: seq<Entry<T>>, max: nat, world: World<C>)
    requires AllReady(es) && !AllIgnored(kind, es, max) && MULTIPART_CLOSE_LENGTH <= max
    requires Undisturbed(world.Round(0))
    requires var chosen := Select(CheckEntries(kind, es, max), Space(max));
             Existing(kind, chosen, world.Round(0)) == []
             || SelectedSize(chosen) < WrittenLength(kind, chosen, world.Round(0))
                <= SelectedSize(chosen) + MULTIPART_CLOSE_LENGTH
    ensures var o := ExchangeStore(kind, es, max, world);
            o.code == Fail && o.accepted == [] && Cores(o.entries) == Cores(es)
  {
    CheckMarks(kind, es, max);
    CheckKeepsItems(kind, es, max);
    RoundSendsNothing(kind, CheckEntries(kind, es, max), max, world.Round(0));
  }

  /** A new store to which two items were added. */
  function TwoEntries<T>(first: T, second: T): seq<Entry<T>> {
    [Entry(first, 1, Ready, 0), Entry(second, 2, Ready, 0)]
  }

  /** An oldest item that cannot be built keeps the next one from being sent, if its estimate leaves no
      room for that, although each of them could be sent by its size. */
  lemma OldestStarvesNext<T(!new), C(!new)>(kind: Kind<T, C>, first: T, second: T, max: nat, world: World<C>)
    requires Eligible(kind, first, max) && Eligible(kind, second, max)
    requires MULTIPART_CLOSE_LENGTH + kind.EstimateOf(first) + kind.EstimateOf(second) > max
    requires Undisturbed(world.Round(0)) && kind.PartOf(first, world.Round(0).ConditionsOf(1)).None?
    ensures var es := TwoEntries(first, second);
            var o := ExchangeStore(kind, es, max, world);
            o.code == Fail && o.accepted == [] && Cores(o.entries) == Cores(es)
  {
    var es, surroundings := TwoEntries(first, second), world.Round(0);
    var checked := CheckEntries(kind, es, max);
    var chosen := Select(checked, Space(max));
    assert Eligible(kind, es[0].item, max);
    assert checked[1..] == [checked[1]] && checked[1..][1..] == [];
    var left: nat := Space(max) - checked[0].size;
    assert checked[1].size > left && Select([checked[1]], left) == [checked[1]] + Select([], left);
    assert chosen == [checked[0].(status := Selected)] + [checked[1]];
    assert chosen[1..] == [checked[1]] && chosen[1..][1..] == [];
    assert Existing(kind, chosen[1..], surroundings) == [];
    FirstRoundFails(kind, es, max, world);
  }
}
