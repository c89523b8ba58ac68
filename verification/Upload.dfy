/** The exchange of a store of real items, from what was added to what a server reads. */
module Upload {
  import opened Core
  import opened Json
  import opened Items
  import opened ItemJson
  import opened ItemSize
  import opened ItemTuple
  import opened JsonReader
  import opened ItemReader
  import opened Multipart
  import opened Receiver
  import opened Exchange
  import opened ExchangeProofs
  import opened ExitStates
  import opened Progress
  import opened Unbuildable
  import opened OneBody
  import StoreRuns

  type Cargo = item: Item | Sendable(item)
    witness CustomData("", Some(""), Some(""), Some("x"), None)

  /** An item as its initializer and setters leave it. */
  type Built = item: Item | Constructed(item) witness CustomData("", None, None, None, None)

  /** What is added to a store: the item, if it passes the validation of its kind. */
  function Candidate(item: Built): Option<Cargo> {
    if Valid(item) then Some(item) else None
  }

  function ItemKind(): Kind<Cargo, Conditions> {
    Kind((item: Cargo) => TupleEstimate(item), (item: Cargo, conditions: Conditions) => SourceOf(item, conditions))
  }

  // ----- what a part says about its item -----

  predicate MetaTextShows(text: string, item: Item) {
    var json := Read(text);
    json.Some? && MetaShows(json.value, item)
  }

  predicate PayloadTextShows(text: string, item: Item) {
    var json := Read(text);
    json.Some? && PayloadShows(json.value, item)
  }

  /** A reader who knows the formats finds the item in the part: its meta data, its kind of content, and
      everything that its payload has to say.  Of a file that is the whole content, or its beginning. */
  predicate Shows(part: Part, item: Cargo, whole: bool) {
    && MetaTextShows(part.meta, item)
    && match item
       case File(_, _, local) =>
         && part.contentType == "application/octet-stream"
         && if whole then part.payload == local.value.content else part.payload <= local.value.content
       case CustomData(_, contentType, _, buffer, _) =>
         part.contentType == contentType.value && part.payload == buffer.value
       case _ => part.contentType == "application/json" && PayloadTextShows(part.payload, item)
  }

  /** No read of a file comes back empty before its end. */
  predicate ReadsAll(item: Cargo, conditions: Conditions) {
    item.File? ==> NoEmptyRead(|Content(item)|, conditions.chunks, 0)
  }

  /** A part shows its item; of a file it shows the whole exactly if no read came back empty too early. */
  lemma PartShows(item: Cargo, conditions: Conditions)
    requires ItemKind().PartOf(item, conditions).Some?
    ensures var part := ItemKind().PartOf(item, conditions).value;
            Shows(part, item, false) && (Shows(part, item, true) <==> ReadsAll(item, conditions))
  {
    MetaBack(item);
    PrintedIsRead(MetaTree(item));
    if HasCallbackPayload(item) {
      DeliveredIsShorter(Content(item), conditions.chunks, 0);
      DeliveredInFull(Content(item), conditions.chunks, 0);
      DeliveredInFull(Content(item), [], 0);
    } else {
      PayloadBack(item);
      PrintedIsRead(PayloadTree(item));
    }
  }

  // ----- whole runs -----

  type Operation = StoreRuns.Operation<Cargo, Conditions>

  /** Every accepted part shows its item, and the whole of those items that are `known` to be read well. */
  ghost predicate AllShown(ds: seq<Delivery<Cargo>>, known: seq<Stored<Cargo>>) {
    forall j, i :: 0 <= j < |ds| && 0 <= i < |ds[j].carried| ==> CarriedShows(ds[j].carried[i], known)
  }

  ghost predicate CarriedShows(c: Carried<Cargo>, known: seq<Stored<Cargo>>) {
    Shows(c.part, c.item, false) && (Stored(c.id, c.item) in known ==> Shows(c.part, c.item, true))
  }

  /** In no round do the reads of these items come back empty too early. */
  ghost predicate Steady(world: World<Conditions>, known: seq<Stored<Cargo>>) {
    forall k: nat, s :: s in known ==> ReadsAll(s.item, world.Round(k).ConditionsOf(s.id))
  }

  ghost predicate AllSteady(ops: seq<Operation>, known: seq<Stored<Cargo>>) {
    forall i :: 0 <= i < |ops| && ops[i].Exchange? ==> Steady(ops[i].world, known)
  }

  lemma DeliveryShows(d: Delivery<Cargo>, max: nat, world: World<Conditions>, k: nat, known: seq<Stored<Cargo>>)
    requires Sound(ItemKind(), d, max, world.Round(k)) && Steady(world, known)
    ensures forall i :: 0 <= i < |d.carried| ==> CarriedShows(d.carried[i], known)
  {
    forall i | 0 <= i < |d.carried| ensures CarriedShows(d.carried[i], known) {
      var c := d.carried[i];
      PartShows(c.item, world.Round(k).ConditionsOf(c.id));
      assert Stored(c.id, c.item).item == c.item && Stored(c.id, c.item).id == c.id;
    }
  }

  lemma {:induction false} SoundIsShown(ds: seq<Delivery<Cargo>>, max: nat, world: World<Conditions>, k: nat,
                                        known: seq<Stored<Cargo>>)
    requires AllSound(ItemKind(), ds, max, world, k) && Steady(world, known)
    ensures AllShown(ds, known)
  {
    if ds != [] {
      DeliveryShows(ds[0], max, world, k, known);
      SoundIsShown(ds[1..], max, world, k + 1, known);
      assert forall j :: 1 <= j < |ds| ==> ds[j] == ds[1..][j - 1];
    }
  }

  lemma ShownTogether(ds: seq<Delivery<Cargo>>, more: seq<Delivery<Cargo>>, known: seq<Stored<Cargo>>)
    requires AllShown(ds, known) && AllShown(more, known)
    ensures AllShown(ds + more, known)
  {
  }

  /** In every run each accepted part shows its item, and the whole of each item whose reads never come
      back empty too early. */
  lemma {:induction false} RunShows(limit: nat, ops: seq<Operation>, known: seq<Stored<Cargo>>)
    requires AllSteady(ops, known)
    ensures AllShown(StoreRuns.Run(ItemKind(), limit, ops).accepted, known)
  {
    if ops != [] {
      var init, op := ops[..|ops| - 1], ops[|ops| - 1];
      var s := StoreRuns.Run(ItemKind(), limit, init);
      assert forall i :: 0 <= i < |init| ==> init[i] == ops[i];
      RunShows(limit, init, known);
      if op.Exchange? {
        var more := ExchangeStore(ItemKind(), s.entries, op.max, op.world).accepted;
        StoreRuns.EveryRun(ItemKind(), limit, init);
        ExchangeIsSound(ItemKind(), s.entries, op.max, op.world);
        SoundIsShown(more, op.max, op.world, 0, known);
        ShownTogether(s.accepted, more, known);
      }
    }
  }

  // ----- what the server reads -----

  lemma ServerReads<T>(d: Delivery<T>)
    requires forall i :: 0 <= i < |d.carried| ==> Separated(d.boundary, d.carried[i].part)
    ensures Receive(d.Text(), d.boundary) == Some(Parts(d.carried))
            <==> forall i :: 0 <= i < |d.carried| ==> OneLine(d.carried[i].part)
  {
    BodyRoundTrip(d.boundary, Parts(d.carried));
    assert forall i :: 0 <= i < |d.carried| ==> Parts(d.carried)[i] == d.carried[i].part;
  }

  /** No boundary collides with what is sent, and no content type breaks its line. */
  ghost predicate Readable<T>(d: Delivery<T>) {
    forall i :: 0 <= i < |d.carried| ==> Separated(d.boundary, d.carried[i].part) && OneLine(d.carried[i].part)
  }

  ghost predicate ServerHas(ds: seq<Delivery<Cargo>>, item: Cargo, whole: bool) {
    exists j, i :: 0 <= j < |ds| && 0 <= i < |ds[j].carried| && ReadAt(ds[j], i, item, whole)
  }

  ghost predicate ReadAt(d: Delivery<Cargo>, i: nat, item: Cargo, whole: bool) {
    var parts := Receive(d.Text(), d.boundary);
    parts.Some? && i < |parts.value| && Shows(parts.value[i], item, whole)
  }

  lemma FindCarried<T>(carried: seq<Carried<T>>, s: Stored<T>) returns (i: nat)
    requires s in CarriedCores(carried)
    ensures i < |carried| && carried[i].id == s.id && carried[i].item == s.item
  {
    i :| i < |CarriedCores(carried)| && CarriedCores(carried)[i] == s;
  }

  lemma {:induction false} FindDelivered<T>(ds: seq<Delivery<T>>, s: Stored<T>) returns (j: nat, i: nat)
    requires s in DeliveredCores(ds)
    ensures j < |ds| && i < |ds[j].carried| && ds[j].carried[i].id == s.id && ds[j].carried[i].item == s.item
  {
    if s in CarriedCores(ds[0].carried) {
      j := 0;
      i := FindCarried(ds[0].carried, s);
    } else {
      var k;
      k, i := FindDelivered(ds[1..], s);
      j := k + 1;
    }
  }

  /** Nothing is lost between device and server over any run: an item that was added and is no longer
      stored can be read from an accepted body - of a file the whole content, if its own reads never come
      back empty too early, and in any case a beginning.  It only takes that the body it was in is readable. */
  lemma NothingIsLost(limit: nat, ops: seq<Operation>, n: nat, whole: bool)
    requires var s := StoreRuns.Run(ItemKind(), limit, ops);
             && n < |s.added| && s.added[n] !in Cores(s.entries)
             && (forall j :: 0 <= j < |s.accepted| && s.added[n] in CarriedCores(s.accepted[j].carried) ==>
                   Readable(s.accepted[j]))
             && (whole ==> AllSteady(ops, [s.added[n]]))
    ensures var s := StoreRuns.Run(ItemKind(), limit, ops); ServerHas(s.accepted, s.added[n].item, whole)
  {
    var s := StoreRuns.Run(ItemKind(), limit, ops);
    var x := s.added[n];
    StoreRuns.StoredOrDelivered(ItemKind(), limit, ops, n);
    var j, i := FindDelivered(s.accepted, x);
    RunShows(limit, ops, if whole then [x] else []);
    var d := s.accepted[j];
    assert CarriedShows(d.carried[i], if whole then [x] else []) && x == Stored(d.carried[i].id, d.carried[i].item);
    assert CarriedCores(d.carried)[i] == x;
    ServerReads(d);
    assert Parts(d.carried)[i] == d.carried[i].part;
    assert ReadAt(d, i, x.item, whole);
  }

  // ----- everything that can be sent is -----

  ghost predicate Given(conditions: Conditions) {
    conditions.sub.Success? && conditions.meta == Ok && conditions.payload == Ok
  }

  /** When an item keeps its estimate. */
  lemma WritableItem(id: nat, item: Cargo, surroundings: Surroundings<Conditions>)
    requires Given(surroundings.ConditionsOf(id))
    ensures Writable(ItemKind(), id, item, surroundings)
            <==> MetaGrowth(item) + PayloadGrowth(item)
                 <= ItemSlack(item) + Undelivered(item, surroundings.ConditionsOf(id))
    ensures EscapeFree(item) ==> Writable(ItemKind(), id, item, surroundings)
  {
    var conditions := surroundings.ConditionsOf(id);
    assert ItemKind().PartOf(item, conditions) == PartOf(item, conditions);
    TupleSize(conditions.sub.value, PartOf(item, conditions).value);
    EstimateBoundsTuple(conditions.sub.value, item, conditions);
  }

  /** The library's surroundings do not fail in the round. */
  ghost predicate NoFailure(ss: seq<Stored<Cargo>>, surroundings: Surroundings<Conditions>) {
    && Undisturbed(surroundings)
    && forall s :: s in ss ==> Given(surroundings.ConditionsOf(s.id))
  }

  ghost predicate AllEscapeFree(ss: seq<Stored<Cargo>>) {
    forall s :: s in ss ==> EscapeFree(s.item)
  }

  lemma EscapeFreeIsHealthy(ss: seq<Stored<Cargo>>, surroundings: Surroundings<Conditions>)
    requires AllEscapeFree(ss) && NoFailure(ss, surroundings)
    ensures Healthy(ItemKind(), ss, surroundings)
  {
    forall s | s in ss ensures Writable(ItemKind(), s.id, s.item, surroundings) {
      WritableItem(s.id, s.item, surroundings);
    }
  }

  /** If no string needs escaping and nothing outside fails, an exchange delivers every item within
      the limit, whatever else is in the store, and says whether there were others. */
  lemma EverythingWithinLimitIsSent(es: seq<Entry<Cargo>>, max: nat, world: World<Conditions>, low: nat)
    requires AllReady(es) && Ascending(Cores(es), low) && AllEscapeFree(Cores(es))
    requires forall k: nat :: NoFailure(Cores(es), world.Round(k))
    ensures var o, left := ExchangeStore(ItemKind(), es, max, world), Oversized(ItemKind(), Cores(es), max);
            && Cores(o.entries) == left
            && o.code == if es == [] then StoreIsEmpty else if left == [] then Ok else ItemExceedsMaxHttpRequestSize
  {
    forall k: nat ensures Healthy(ItemKind(), Cores(es), world.Round(k)) {
      EscapeFreeIsHealthy(Cores(es), world.Round(k));
    }
    HealthyExchange(ItemKind(), es, max, world, low);
  }

  /** In all rounds alike, nothing fails outside but that the items with the missing ids cannot be built. */
  ghost predicate OnlyTheseFail(ss: seq<Stored<Cargo>>, world: World<Conditions>, missing: set<nat>) {
    forall k: nat :: Undisturbed(world.Round(k)) && forall s :: s in ss ==>
      if s.id in missing then ItemKind().PartOf(s.item, world.Round(k).ConditionsOf(s.id)).None?
      else Given(world.Round(k).ConditionsOf(s.id))
  }

  /** If no string needs escaping, an item that cannot be built, in a store with others, makes the exchange
      end as a failure, if it is within the limit; still everything that fits behind such items is
      delivered. */
  lemma SentPastUnbuildable(es: seq<Entry<Cargo>>, max: nat, world: World<Conditions>, low: nat, missing: set<nat>)
    requires AllReady(es) && Ascending(Cores(es), low) && AllEscapeFree(Cores(es))
    requires OnlyTheseFail(Cores(es), world, missing)
    ensures var o := ExchangeStore(ItemKind(), es, max, world);
            && (o.code == Fail <==> SomeMissing(ItemKind(), Cores(es), max, missing))
            && Missing(Cores(o.entries), missing) == Missing(Cores(es), missing)
            && (forall s :: s in Cores(es) && FitsBehind(ItemKind(), Cores(es), s, max, missing) ==>
                  s !in Cores(o.entries) && s in DeliveredCores(o.accepted))
  {
    forall k: nat ensures Calm(ItemKind(), Cores(es), world.Round(k), missing) {
      assert Undisturbed(world.Round(k));
      forall s | s in Cores(es) ensures KeepsToIt(ItemKind(), s, world.Round(k), missing) {
        if s.id !in missing {
          WritableItem(s.id, s.item, world.Round(k));
        }
      }
    }
    UnbuildableItemsStay(ItemKind(), es, max, world, low, missing);
  }

  lemma ItemLength(boundary: Boundary, id: nat, item: Cargo, surroundings: Surroundings<Conditions>)
    requires Given(surroundings.ConditionsOf(id))
    ensures var part := PartOf(item, surroundings.ConditionsOf(id));
            && part.Some? && ItemKind().PartOf(item, surroundings.ConditionsOf(id)) == part
            && TextLength(ItemKind(), id, item, surroundings) == |Tuple(boundary, part.value)|
  {
    TupleSize(boundary, PartOf(item, surroundings.ConditionsOf(id)).value);
  }

  // ----- one escape too many -----

  /** The store that holds an item and, behind it, one whose text outgrows its estimate by a single
      character. */
  function GoodAndQuoted(good: Cargo): seq<Stored<Cargo>> {
    TwoStored(good, Quoted())
  }

  function TwoStored(first: Cargo, second: Cargo): seq<Stored<Cargo>> {
    [Stored(1, first), Stored(2, second)]
  }

  function TwoAdditions(first: Cargo, second: Cargo, a: StoreRuns.Conditions, b: StoreRuns.Conditions): seq<Operation> {
    [StoreRuns.Add(Some(first), a), StoreRuns.Add(Some(second), b)]
  }

  /** An exchange meets no failure, and both items are within the limit. */
  ghost predicate Favourable(good: Cargo, max: nat, world: World<Conditions>) {
    && MULTIPART_CLOSE_LENGTH + TupleEstimate(good) + TupleEstimate(Quoted()) <= max
    && Undisturbed(world.Round(0))
    && Given(world.Round(0).ConditionsOf(1)) && Given(world.Round(0).ConditionsOf(2))
  }

  lemma TwoLengths(good: Cargo, surroundings: Surroundings<Conditions>)
    requires EscapeFree(good) && AllTextsGiven(good) && !good.File? && surroundings.boundary.Success?
    requires Given(surroundings.ConditionsOf(1)) && Given(surroundings.ConditionsOf(2))
    ensures TextLength(ItemKind(), 1, good, surroundings) == ItemKind().EstimateOf(good)
    ensures TextLength(ItemKind(), 2, Quoted(), surroundings) == ItemKind().EstimateOf(Quoted()) + 1
  {
    var boundary := surroundings.boundary.value;
    ItemLength(boundary, 1, good, surroundings);
    EstimateIsExact(boundary, good, surroundings.ConditionsOf(1));
    ItemLength(boundary, 2, Quoted(), surroundings);
    EstimateCanBeTooSmall(boundary, surroundings.ConditionsOf(2));
  }

  lemma QuotedSendsNothing(good: Cargo, es: seq<Entry<Cargo>>, max: nat, world: World<Conditions>)
    requires EscapeFree(good) && AllTextsGiven(good) && !good.File? && Favourable(good, max, world)
    requires AllReady(es) && Cores(es) == GoodAndQuoted(good)
    ensures StoreRuns.SendsNothing(ItemKind(), es, StoreRuns.Exchange(max, world))
  {
    TwoLengths(good, world.Round(0));
    assert Cores(es)[0].id == 1 && Cores(es)[0].item == good && Cores(es)[1].id == 2 && Cores(es)[1].item == Quoted();
    OneItemBlocksOther(ItemKind(), es, max, world);
  }

  lemma AddTwo(limit: nat, first: Cargo, second: Cargo, a: StoreRuns.Conditions, b: StoreRuns.Conditions)
    requires StoreRuns.AddCode(true, 0, limit, a) == Ok && StoreRuns.AddCode(true, 1, limit, b) == Ok
    ensures var s := StoreRuns.Run(ItemKind(), limit, TwoAdditions(first, second, a, b));
            && Cores(s.entries) == TwoStored(first, second) && s.accepted == []
  {
    var x: Operation, y: Operation := StoreRuns.Add(Some(first), a), StoreRuns.Add(Some(second), b);
    assert [] + [x] == [x] && [x] + [y] == [x, y];
    StoreRuns.RunSnoc(ItemKind(), limit, [], x);
    StoreRuns.RunSnoc(ItemKind(), limit, [x], y);
  }

  /** Escape-free texts are needed: one item whose text outgrows its estimate by a single character keeps
      a whole store from being sent, however often it is tried, even if nothing else ever fails. */
  lemma OneEscapeBlocksStore(good: Cargo, limit: nat, a: StoreRuns.Conditions, b: StoreRuns.Conditions,
                             more: seq<Operation>)
    requires EscapeFree(good) && AllTextsGiven(good) && !good.File?
    requires StoreRuns.AddCode(true, 0, limit, a) == Ok && StoreRuns.AddCode(true, 1, limit, b) == Ok
    requires forall i :: 0 <= i < |more| ==> more[i].Exchange? && Favourable(good, more[i].max, more[i].world)
    ensures var s := StoreRuns.Run(ItemKind(), limit, TwoAdditions(good, Quoted(), a, b) + more);
            Cores(s.entries) == GoodAndQuoted(good) && s.accepted == []
  {
    var ops := TwoAdditions(good, Quoted(), a, b);
    var s := StoreRuns.Run(ItemKind(), limit, ops);
    AddTwo(limit, good, Quoted(), a, b);
    StoreRuns.EveryRun(ItemKind(), limit, ops);
    forall i | 0 <= i < |more| ensures StoreRuns.SendsNothing(ItemKind(), s.entries, more[i]) {
      QuotedSendsNothing(good, s.entries, more[i].max, more[i].world);
    }
    StoreRuns.StuckForever(ItemKind(), limit, ops, more);
  }

  // ----- a file that cannot be read -----

  /** A file whose first read comes back empty is sent without any of its content, and leaves the
      store. */
  lemma TruncatedFileLeaves(file: Cargo, max: nat, world: World<Conditions>)
    requires file.File? && Content(file) != "" && EscapeFree(file)
    requires MULTIPART_CLOSE_LENGTH + TupleEstimate(file) <= max && Undisturbed(world.Round(0))
    requires var conditions := world.Round(0).ConditionsOf(1);
             Given(conditions) && conditions.chunks != [] && conditions.chunks[0] == 0
    ensures var o := ExchangeStore(ItemKind(), [Entry(file, 1, Ready, 0)], max, world);
            && o.code == Ok && o.entries == [] && |o.accepted| == 1 && |o.accepted[0].carried| == 1
            && var c := o.accepted[0].carried[0];
               c.item == file && c.part.payload == "" && !Shows(c.part, file, true)
  {
    WritableItem(1, file, world.Round(0));
    OneWritableIsSent(ItemKind(), Entry(file, 1, Ready, 0), max, world);
    EmptyFirstRead(file, world.Round(0).ConditionsOf(1));
  }

  lemma EmptyFirstRead(file: Cargo, conditions: Conditions)
    requires file.File? && Content(file) != "" && Given(conditions)
    requires conditions.chunks != [] && conditions.chunks[0] == 0
    ensures ItemKind().PartOf(file, conditions).Some?
    ensures var part := ItemKind().PartOf(file, conditions).value; part.payload == "" && !Shows(part, file, true)
  {
  }

  // ----- a content type that breaks its line -----

  function TwoLines(): Cargo {
    CustomData("1.0", Some("\r\n"), Some("kind"), Some("x"), None)
  }

  /** A valid item with a line break in its content type, which no server reads back as it was sent. */
  lemma TwoLinesAreMisread(boundary: Boundary, conditions: Conditions)
    requires Given(conditions)
    ensures ItemKind().PartOf(TwoLines(), conditions).Some?
    ensures var part := ItemKind().PartOf(TwoLines(), conditions).value;
            Separated(boundary, part) ==> Receive(Body(boundary, [part]), boundary) != Some([part])
  {
    var part := ItemKind().PartOf(TwoLines(), conditions).value;
    assert OccursAt(part.contentType, LINE, 0);
    assert !OneLine(part);
    if Separated(boundary, part) {
      BodyRoundTrip(boundary, [part]);
      assert !OneLine([part][0]);
    }
  }
}
