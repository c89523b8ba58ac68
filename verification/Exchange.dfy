/** The store exchange as a state machine over the entries of a store: what each step of a round does
    to them, and what a whole exchange does. */
module Exchange {
  import opened Core
  import opened Multipart
  import opened Receiver

  /** What an exchange needs to know about the items T it is made for: the estimated size of an item,
      and what the writer is given for it under the conditions C of the moment. */
  datatype Kind<!T(!new), !C(!new)> = Kind(estimate: T -> nat, source: (T, C) -> Source) {
    function EstimateOf(item: T): nat {
      estimate(item)
    }

    function SourceOf(item: T, conditions: C): Source {
      source(item, conditions)
    }

    function PartOf(item: T, conditions: C): Option<Part> {
      SourceOf(item, conditions).ToPart()
    }
  }

  datatype Status = Ready | Selected | Processed | Ignored

  datatype Entry<T> = Entry(item: T, id: nat, status: Status, size: nat)

  /** Everything outside the library that decides about one round: the main boundary, whether the
      body can be allocated, the conditions each item meets, and how sending the body ends. */
  datatype Surroundings<!C> = Surroundings(
    boundary: Obtained<Boundary>,
    bodyAllocated: bool,
    items: nat -> C,
    answer: Answer)
  {
    function ConditionsOf(id: nat): C {
      items(id)
    }
  }

  /** The surroundings of all rounds of an exchange. */
  datatype World<!C> = World(rounds: nat -> Surroundings<C>) {
    function Round(k: nat): Surroundings<C> {
      rounds(k)
    }
  }

  /** An item as it was put into a body. */
  datatype Carried<T> = Carried(id: nat, item: T, part: Part)

  /** A body the server has accepted: the items it carried under its boundary. */
  datatype Delivery<T> = Delivery(boundary: Boundary, carried: seq<Carried<T>>) {
    function Text(): string {
      Body(boundary, Parts(carried))
    }
  }

  // ----- the steps of a round -----

  predicate Eligible<T(!new), C(!new)>(kind: Kind<T, C>, item: T, max: nat) {
    MULTIPART_CLOSE_LENGTH + kind.EstimateOf(item) <= max
  }

  /** Sizes are computed and items that can never be sent are set aside. */
  function CheckEntry<T(!new), C(!new)>(kind: Kind<T, C>, e: Entry<T>, max: nat): Entry<T> {
    e.(size := kind.EstimateOf(e.item), status := if Eligible(kind, e.item, max) then e.status else Ignored)
  }

  function CheckEntries<T(!new), C(!new)>(kind: Kind<T, C>, es: seq<Entry<T>>, max: nat): (r: seq<Entry<T>>)
    ensures |r| == |es|
    ensures forall i :: 0 <= i < |es| ==> r[i] == CheckEntry(kind, es[i], max)
  {
    if es == [] then [] else [CheckEntry(kind, es[0], max)] + CheckEntries(kind, es[1..], max)
  }

  predicate AllIgnored<T(!new), C(!new)>(kind: Kind<T, C>, es: seq<Entry<T>>, max: nat) {
    forall i :: 0 <= i < |es| ==> !Eligible(kind, es[i].item, max)
  }

  function CheckCode<T(!new), C(!new)>(kind: Kind<T, C>, es: seq<Entry<T>>, max: nat): Code {
    if es == [] then StoreIsEmpty
    else if AllIgnored(kind, es, max) then ItemExceedsMaxHttpRequestSize
    else Ok
  }

  /** Greedy selection: every entry that fits into what is left. */
  function Select<T>(es: seq<Entry<T>>, room: nat): (r: seq<Entry<T>>)
    ensures |r| == |es|
  {
    if es == [] then []
    else if es[0].size <= room then [es[0].(status := Selected)] + Select(es[1..], room - es[0].size)
    else [es[0]] + Select(es[1..], room)
  }

  function RoomLeft<T>(es: seq<Entry<T>>, room: nat): (r: nat)
    ensures r <= room
  {
    if es == [] then room
    else if es[0].size <= room then RoomLeft(es[1..], room - es[0].size)
    else RoomLeft(es[1..], room)
  }

  /** The part an entry becomes, if it is selected and can be written into the given room. */
  function PartIn<T(!new), C(!new)>(kind: Kind<T, C>, e: Entry<T>, surroundings: Surroundings<C>, room: nat): Option<Part> {
    var part := kind.PartOf(e.item, surroundings.ConditionsOf(e.id));
    if e.status.Selected? && part.Some? && TupleLength(part.value) <= room then part else None
  }

  function RoomAfter<T(!new), C(!new)>(kind: Kind<T, C>, e: Entry<T>, surroundings: Surroundings<C>, room: nat): nat {
    match PartIn(kind, e, surroundings, room)
    case Some(part) => room - TupleLength(part)
    case None => room
  }

  function EntryAfter<T(!new), C(!new)>(kind: Kind<T, C>, e: Entry<T>, surroundings: Surroundings<C>, room: nat): Entry<T> {
    if PartIn(kind, e, surroundings, room).Some? then e.(status := Processed) else e
  }

  function CarriedBy<T(!new), C(!new)>(kind: Kind<T, C>, e: Entry<T>, surroundings: Surroundings<C>, room: nat)
    : seq<Carried<T>>
  {
    match PartIn(kind, e, surroundings, room)
    case Some(part) => [Carried(e.id, e.item, part)]
    case None => []
  }

  /** The entries after an attempt to write all selected ones: one that fails is skipped. */
  function BuiltEntries<T(!new), C(!new)>(kind: Kind<T, C>, es: seq<Entry<T>>, surroundings: Surroundings<C>, room: nat)
    : (r: seq<Entry<T>>)
    ensures |r| == |es|
  {
    if es == [] then []
    else
      [EntryAfter(kind, es[0], surroundings, room)]
      + BuiltEntries(kind, es[1..], surroundings, RoomAfter(kind, es[0], surroundings, room))
  }

  /** What the attempt has put into the body. */
  function BuiltBody<T(!new), C(!new)>(kind: Kind<T, C>, es: seq<Entry<T>>, surroundings: Surroundings<C>, room: nat)
    : seq<Carried<T>>
  {
    if es == [] then []
    else
      CarriedBy(kind, es[0], surroundings, room)
      + BuiltBody(kind, es[1..], surroundings, RoomAfter(kind, es[0], surroundings, room))
  }

  function Parts<T>(carried: seq<Carried<T>>): (r: seq<Part>)
    ensures |r| == |carried|
    ensures forall k :: 0 <= k < |carried| ==> r[k] == carried[k].part
  {
    if carried == [] then [] else [carried[0].part] + Parts(carried[1..])
  }

  /** Processed entries leave, selected ones that could not be written are ready again. */
  function AfterAccept<T>(es: seq<Entry<T>>): seq<Entry<T>> {
    if es == [] then []
    else if es[0].status.Processed? then AfterAccept(es[1..])
    else if es[0].status.Selected? then [es[0].(status := Ready)] + AfterAccept(es[1..])
    else [es[0]] + AfterAccept(es[1..])
  }

  predicate FullyProcessed<T>(es: seq<Entry<T>>) {
    forall i :: 0 <= i < |es| ==> es[i].status != Selected && es[i].status != Ready
  }

  function Revert<T>(es: seq<Entry<T>>): (r: seq<Entry<T>>)
    ensures |r| == |es|
    ensures forall i :: 0 <= i < |es| ==> r[i] == es[i].(status := Ready)
  {
    if es == [] then [] else [es[0].(status := Ready)] + Revert(es[1..])
  }

  // ----- rounds and exchanges -----

  datatype Outcome<T> = Outcome(entries: seq<Entry<T>>, code: Code, finished: bool, accepted: seq<Delivery<T>>)

  function Failed<T>(es: seq<Entry<T>>, code: Code): Outcome<T> {
    Outcome(Revert(es), code, false, [])
  }

  /** What the closing delimiter leaves for items. */
  function Space(max: nat): nat
    requires MULTIPART_CLOSE_LENGTH <= max
  {
    max - MULTIPART_CLOSE_LENGTH
  }

  /** The space set aside for the body of a round. */
  function BufferSize<T>(es: seq<Entry<T>>, max: nat): nat
    requires MULTIPART_CLOSE_LENGTH <= max
  {
    max - RoomLeft(es, Space(max))
  }

  /** A body exists if something was written and the closing delimiter still fits. */
  predicate Closes<T>(es: seq<Entry<T>>, max: nat, carried: seq<Carried<T>>)
    requires MULTIPART_CLOSE_LENGTH <= max
  {
    carried != [] && TuplesLength(Parts(carried)) + MULTIPART_CLOSE_LENGTH <= BufferSize(es, max)
  }

  /** What happens to the entries once the server has accepted a body. */
  function Accepted<T>(es: seq<Entry<T>>, delivery: Delivery<T>): Outcome<T> {
    var left, finished := AfterAccept(es), FullyProcessed(es);
    if finished && left != [] then Outcome(Revert(left), ItemExceedsMaxHttpRequestSize, true, [delivery])
    else Outcome(left, Ok, finished, [delivery])
  }

  function Round<T(!new), C(!new)>(kind: Kind<T, C>, es: seq<Entry<T>>, max: nat, surroundings: Surroundings<C>): Outcome<T>
    requires MULTIPART_CLOSE_LENGTH <= max
  {
    if surroundings.boundary.Failure? then Failed(es, surroundings.boundary.code)
    else
      var selected := Select(es, Space(max));
      if !surroundings.bodyAllocated then Failed(selected, OutOfMemory)
      else
        var built := BuiltEntries(kind, selected, surroundings, BufferSize(es, max));
        var carried := BuiltBody(kind, selected, surroundings, BufferSize(es, max));
        if !Closes(es, max, carried) then Failed(built, Fail)
        else if surroundings.answer != Ok then Failed(built, surroundings.answer)
        else Accepted(built, Delivery(surroundings.boundary.value, carried))
  }

  /** The body that a round sends, if it comes to that, whatever the answer is. */
  function Sent<T(!new), C(!new)>(kind: Kind<T, C>, es: seq<Entry<T>>, max: nat, surroundings: Surroundings<C>)
    : Option<Delivery<T>>
    requires MULTIPART_CLOSE_LENGTH <= max
  {
    if surroundings.boundary.Failure? || !surroundings.bodyAllocated then None
    else
      var carried := BuiltBody(kind, Select(es, Space(max)), surroundings, BufferSize(es, max));
      if Closes(es, max, carried) then Some(Delivery(surroundings.boundary.value, carried)) else None
  }

  lemma {:induction false} AfterAcceptIsShorter<T>(es: seq<Entry<T>>)
    ensures |AfterAccept(es)| <= |es|
    ensures (exists i :: 0 <= i < |es| && es[i].status.Processed?) ==> |AfterAccept(es)| < |es|
  {
    if es != [] {
      AfterAcceptIsShorter(es[1..]);
      if i :| 0 <= i < |es| && es[i].status.Processed? && !es[0].status.Processed? {
        assert es[1..][i - 1].status.Processed?;
      }
    }
  }

  lemma {:induction false} CarriedIsMarked<T(!new), C(!new)>(kind: Kind<T, C>, es: seq<Entry<T>>,
                                                             surroundings: Surroundings<C>, room: nat)
    requires BuiltBody(kind, es, surroundings, room) != []
    ensures exists i :: 0 <= i < |es| && BuiltEntries(kind, es, surroundings, room)[i].status.Processed?
  {
    var built := BuiltEntries(kind, es, surroundings, room);
    if PartIn(kind, es[0], surroundings, room).Some? {
      assert built[0].status.Processed?;
    } else {
      CarriedIsMarked(kind, es[1..], surroundings, room);
      var i :| 0 <= i < |es[1..]| && BuiltEntries(kind, es[1..], surroundings, room)[i].status.Processed?;
      assert built[i + 1].status.Processed?;
    }
  }

  /** The measure of the exchange loop: a round that ends well removes at least one entry, because a
      body is only sent if something was written into it. */
  lemma RoundRemoves<T(!new), C(!new)>(kind: Kind<T, C>, es: seq<Entry<T>>, max: nat, surroundings: Surroundings<C>)
    requires MULTIPART_CLOSE_LENGTH <= max
    ensures Round(kind, es, max, surroundings).code == Ok ==> |Round(kind, es, max, surroundings).entries| < |es|
  {
    var selected := Select(es, Space(max));
    var carried := BuiltBody(kind, selected, surroundings, BufferSize(es, max));
    if carried != [] {
      CarriedIsMarked(kind, selected, surroundings, BufferSize(es, max));
      AfterAcceptIsShorter(BuiltEntries(kind, selected, surroundings, BufferSize(es, max)));
    }
  }

  /** Rounds are repeated until one fails or nothing is left to send. */
  function Rounds<T(!new), C(!new)>(kind: Kind<T, C>, es: seq<Entry<T>>, max: nat, world: World<C>, k: nat): Outcome<T>
    requires MULTIPART_CLOSE_LENGTH <= max
    decreases |es|
  {
    RoundRemoves(kind, es, max, world.Round(k));
    var first := Round(kind, es, max, world.Round(k));
    if first.code == Ok && !first.finished then
      var others := Rounds(kind, first.entries, max, world, k + 1);
      others.(accepted := first.accepted + others.accepted)
    else first
  }

  /** All bodies that are sent, in these rounds. */
  function SentBodies<T(!new), C(!new)>(kind: Kind<T, C>, es: seq<Entry<T>>, max: nat, world: World<C>, k: nat)
    : seq<Delivery<T>>
    requires MULTIPART_CLOSE_LENGTH <= max
    decreases |es|
  {
    RoundRemoves(kind, es, max, world.Round(k));
    var first, sent := Round(kind, es, max, world.Round(k)), Sent(kind, es, max, world.Round(k));
    if first.code == Ok && !first.finished then
      sent.ToSeq() + SentBodies(kind, first.entries, max, world, k + 1)
    else sent.ToSeq()
  }

  lemma RoundsUnfold<T(!new), C(!new)>(kind: Kind<T, C>, es: seq<Entry<T>>, max: nat, world: World<C>, k: nat,
                                       first: Outcome<T>)
    requires MULTIPART_CLOSE_LENGTH <= max && first == Round(kind, es, max, world.Round(k))
    ensures if first.code == Ok && !first.finished
            then var rest := Rounds(kind, first.entries, max, world, k + 1);
                 Rounds(kind, es, max, world, k) == rest.(accepted := first.accepted + rest.accepted)
            else Rounds(kind, es, max, world, k) == first
  {
  }

  lemma SameRounds<T(!new), C(!new)>(kind: Kind<T, C>, es: seq<Entry<T>>, max: nat, world: World<C>, k: nat, m: nat)
    requires k == m && MULTIPART_CLOSE_LENGTH <= max
    ensures Rounds(kind, es, max, world, k) == Rounds(kind, es, max, world, m)
  {
  }

  /** The exchange of a store. */
  function ExchangeStore<T(!new), C(!new)>(kind: Kind<T, C>, es: seq<Entry<T>>, max: nat, world: World<C>): Outcome<T> {
    var code, checked := CheckCode(kind, es, max), CheckEntries(kind, es, max);
    if code != Ok then Failed(checked, code)
    else
      assert MULTIPART_CLOSE_LENGTH <= max;
      Rounds(kind, checked, max, world, 0)
  }

  /** All bodies that the exchange of a store sends. */
  function ExchangeSends<T(!new), C(!new)>(kind: Kind<T, C>, es: seq<Entry<T>>, max: nat, world: World<C>)
    : seq<Delivery<T>>
  {
    if CheckCode(kind, es, max) != Ok then []
    else
      assert MULTIPART_CLOSE_LENGTH <= max;
      SentBodies(kind, CheckEntries(kind, es, max), max, world, 0)
  }
}
