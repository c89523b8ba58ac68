/** Items as multipart tuples: what is written for an item, and how that compares with the estimate
    that selection relies on. */
module ItemTuple {
  import opened Core
  import opened Json
  import opened Items
  import opened ItemJson
  import opened ItemSize
  import opened Multipart

  /** Everything outside the library that decides about one item: whether a boundary can be
      generated, how building its JSON ends, and how much the reads of a file deliver. */
  datatype Conditions = Conditions(sub: Obtained<Boundary>, meta: Answer, payload: Answer, chunks: seq<nat>)

  /** Files are read from the start; custom data is copied from memory and always delivered in full. */
  function PayloadOf(item: Item, conditions: Conditions): Payload
    requires Sendable(item)
  {
    if item.File? then FromCallback(Content(item), conditions.chunks)
    else if item.CustomData? then FromCallback(Content(item), [])
    else FromJson(Obtain(conditions.payload, Print(PayloadTree(item))))
  }

  function SourceOf(item: Item, conditions: Conditions): Source
    requires Sendable(item)
  {
    Source(conditions.sub,
           Obtain(conditions.meta, Print(MetaTree(item))),
           ContentType(item),
           PayloadOf(item, conditions))
  }

  /** What is given to the writer, by the conditions. */
  lemma SourceIs(item: Item, conditions: Conditions)
    requires Sendable(item)
    ensures var source := SourceOf(item, conditions);
            && source.sub == conditions.sub
            && (if conditions.meta == Ok then source.meta.Success? else source.meta == Failure(conditions.meta))
            && (item.File? || item.CustomData? <==> source.payload.FromCallback?)
            && (source.payload.FromJson? ==>
                  if conditions.payload == Ok then source.payload.json.Success?
                  else source.payload.json == Failure(conditions.payload))
  {
  }

  function PartOf(item: Item, conditions: Conditions): Option<Part>
    requires Sendable(item)
  {
    SourceOf(item, conditions).ToPart()
  }

  /** What `multipart_get_tuple_size` returns. */
  function TupleEstimate(item: Item): nat
    requires Sendable(item)
  {
    MULTIPART_BASE_SIZE + ItemEstimate(item) + |ContentType(item)|
  }

  /** What a file keeps back because a read came back empty before its end. */
  function Undelivered(item: Item, conditions: Conditions): int
    requires Sendable(item)
  {
    if item.File? then |Content(item)| - |Delivered(Content(item), conditions.chunks, 0)| else 0
  }

  // ----- escape-free items -----

  predicate PlainOption(s: Option<string>) {
    Plain(s.GetOr(""))
  }

  predicate PlainValue(v: TimeseriesValue) {
    PlainOption(v.dataPointId) && PlainOption(v.qualityCode) && PlainOption(v.value)
  }

  predicate PlainValueList(l: ValueList) {
    Plain(l.timestamp) && forall i :: 0 <= i < |l.values| ==> PlainValue(l.values[i])
  }

  predicate PlainDataPoint(p: DataPoint) {
    PlainOption(p.id) && PlainOption(p.name) && PlainOption(p.description) && PlainOption(p.kind) && PlainOption(p.unit)
  }

  predicate PlainDataSource(s: DataSource) {
    && PlainOption(s.name) && PlainOption(s.description)
    && forall i :: 0 <= i < |s.dataPoints| ==> PlainDataPoint(s.dataPoints[i])
  }

  /** No string that is measured by its plain length needs escaping.  Details and custom data are
      measured by printing them, so nothing is asked of them. */
  predicate EscapeFree(item: Item)
    requires Sendable(item)
  {
    match item
    case Timeseries(id, lists) =>
      PlainOption(id) && forall i :: 0 <= i < |lists| ==> PlainValueList(lists[i])
    case Event(_, id, correlationId, timestamp, _, description, kind, version, _) =>
      && Plain(id) && PlainOption(correlationId) && Plain(timestamp) && PlainOption(description)
      && PlainOption(kind) && PlainOption(version)
    case File(remoteName, fileType, local) =>
      PlainOption(remoteName) && PlainOption(fileType) && Plain(local.value.creationDate)
    case CustomData(version, _, kind, _, _) => Plain(version) && PlainOption(kind)
    case DataSourceConfiguration(c) =>
      PlainOption(c.id) && forall i :: 0 <= i < |c.dataSources| ==> PlainDataSource(c.dataSources[i])
  }

  lemma GrowIsZero(s: Option<string>)
    ensures PlainOption(s) <==> Grow(s) == 0
  {
    PlainIffNoGrowth(s.GetOr(""));
  }

  lemma {:induction false} ValuesGrowthIsZero(vs: seq<TimeseriesValue>)
    ensures (forall i :: 0 <= i < |vs| ==> PlainValue(vs[i])) <==> ValuesGrowth(vs) == 0
  {
    if vs != [] {
      var init, last := vs[..|vs| - 1], vs[|vs| - 1];
      ValuesGrowthIsZero(init);
      GrowIsZero(last.dataPointId);
      GrowIsZero(last.qualityCode);
      GrowIsZero(last.value);
      assert forall i :: 0 <= i < |init| ==> init[i] == vs[i];
    }
  }

  lemma {:induction false} ValueListsGrowthIsZero(ls: seq<ValueList>)
    ensures (forall i :: 0 <= i < |ls| ==> PlainValueList(ls[i])) <==> ValueListsGrowth(ls) == 0
  {
    if ls != [] {
      var init, last := ls[..|ls| - 1], ls[|ls| - 1];
      ValueListsGrowthIsZero(init);
      ValuesGrowthIsZero(last.values);
      PlainIffNoGrowth(last.timestamp);
      assert forall i :: 0 <= i < |init| ==> init[i] == ls[i];
    }
  }

  lemma {:induction false} DataPointsGrowthIsZero(ps: seq<DataPoint>)
    ensures (forall i :: 0 <= i < |ps| ==> PlainDataPoint(ps[i])) <==> DataPointsGrowth(ps) == 0
  {
    if ps != [] {
      var init, last := ps[..|ps| - 1], ps[|ps| - 1];
      DataPointsGrowthIsZero(init);
      GrowIsZero(last.id);
      GrowIsZero(last.name);
      GrowIsZero(last.description);
      GrowIsZero(last.kind);
      GrowIsZero(last.unit);
      assert forall i :: 0 <= i < |init| ==> init[i] == ps[i];
    }
  }

  lemma {:induction false} DataSourcesGrowthIsZero(ss: seq<DataSource>)
    ensures (forall i :: 0 <= i < |ss| ==> PlainDataSource(ss[i])) <==> DataSourcesGrowth(ss) == 0
  {
    if ss != [] {
      var init, last := ss[..|ss| - 1], ss[|ss| - 1];
      DataSourcesGrowthIsZero(init);
      GrowIsZero(last.name);
      GrowIsZero(last.description);
      DataPointsGrowthIsZero(last.dataPoints);
      assert forall i :: 0 <= i < |init| ==> init[i] == ss[i];
    }
  }

  lemma GrowthIsZero(item: Item)
    requires Sendable(item)
    ensures EscapeFree(item) <==> MetaGrowth(item) + PayloadGrowth(item) == 0
  {
    match item
    case Timeseries(id, lists) =>
      GrowIsZero(id);
      ValueListsGrowthIsZero(lists);
    case Event(_, id, correlationId, timestamp, _, description, kind, version, _) =>
      PlainIffNoGrowth(id);
      PlainIffNoGrowth(timestamp);
      GrowIsZero(correlationId);
      GrowIsZero(description);
      GrowIsZero(kind);
      GrowIsZero(version);
    case File(remoteName, fileType, local) =>
      GrowIsZero(remoteName);
      GrowIsZero(fileType);
      PlainIffNoGrowth(local.value.creationDate);
    case CustomData(version, _, kind, _, _) =>
      PlainIffNoGrowth(version);
      GrowIsZero(kind);
    case DataSourceConfiguration(c) =>
      GrowIsZero(c.id);
      DataSourcesGrowthIsZero(c.dataSources);
  }

  // ----- estimate against text -----

  lemma {:induction false} DeliveredIsShorter(content: string, chunks: seq<nat>, k: nat)
    ensures |Delivered(content, chunks, k)| <= |content|
    ensures Delivered(content, chunks, k) <= content
    decreases |content|
  {
    var n := ChunkSize(|content|, chunks, k);
    if n > 0 {
      DeliveredIsShorter(content[n..], chunks, k + 1);
      assert content == content[..n] + content[n..];
    }
  }

  /** How much the reads from the first one on to the last one ask for can deliver. */
  function Offered(chunks: seq<nat>, first: nat, last: nat): nat
    requires first <= last <= |chunks|
    decreases last - first
  {
    if first == last then 0 else chunks[first] + Offered(chunks, first + 1, last)
  }

  /** A read only comes back empty once the reads before it have offered the whole length. */
  predicate NoEmptyRead(length: nat, chunks: seq<nat>, k: nat) {
    forall j :: k <= j < |chunks| && chunks[j] == 0 ==> length <= Offered(chunks, k, j)
  }

  lemma NextRead(length: nat, chunks: seq<nat>, k: nat, next: nat)
    requires next == k + 1 && 0 < length
    ensures var n := ChunkSize(length, chunks, k);
            NoEmptyRead(length, chunks, k) <==> n > 0 && NoEmptyRead(length - n, chunks, next)
  {
    var n := ChunkSize(length, chunks, k);
    if k < |chunks| {
      assert chunks[k] == 0 ==> Offered(chunks, k, k) == 0;
      forall j | next <= j < |chunks|
        ensures Offered(chunks, k, j) == chunks[k] + Offered(chunks, next, j)
        ensures n > 0 ==> (length <= Offered(chunks, k, j) <==> length - n <= Offered(chunks, next, j))
      {
      }
    }
  }

  /** Reading delivers everything exactly if no read comes back empty too early. */
  lemma {:induction false} DeliveredInFull(content: string, chunks: seq<nat>, k: nat)
    ensures Delivered(content, chunks, k) == content <==> NoEmptyRead(|content|, chunks, k)
    decreases |content|
  {
    if content != "" {
      var n, next := ChunkSize(|content|, chunks, k), k + 1;
      NextRead(|content|, chunks, k, next);
      if n > 0 {
        DeliveredInFull(content[n..], chunks, next);
        assert content == content[..n] + content[n..];
        assert Delivered(content, chunks, k)[n..] == Delivered(content[n..], chunks, next);
      }
    }
  }

  /** The account of a payload alone. */
  lemma PayloadAccount(item: Item, conditions: Conditions, text: string)
    requires Sendable(item) && PayloadOf(item, conditions).Text() == Some(text)
    ensures 0 <= Undelivered(item, conditions)
    ensures |text| + ItemSlack(item) + Undelivered(item, conditions) == PayloadEstimate(item) + PayloadGrowth(item)
  {
    if HasCallbackPayload(item) {
      DeliveredIsShorter(Content(item), conditions.chunks, 0);
      DeliveredInFull(Content(item), [], 0);
    } else {
      PayloadSize(item);
    }
  }

  /** The exact account of a tuple: what is written, what optional parts leave unused and what a
      file keeps back make up the estimate and what escaping adds. */
  lemma TupleAccount(boundary: Boundary, item: Item, conditions: Conditions)
    requires Sendable(item) && PartOf(item, conditions).Some?
    ensures 0 <= Undelivered(item, conditions)
    ensures |Tuple(boundary, PartOf(item, conditions).value)| + ItemSlack(item) + Undelivered(item, conditions)
            == TupleEstimate(item) + MetaGrowth(item) + PayloadGrowth(item)
  {
    var part := PartOf(item, conditions).value;
    TupleSize(boundary, part);
    MetaSize(item);
    PayloadAccount(item, conditions, part.payload);
  }

  /** The estimate bounds the text exactly if escaping adds no more than is left unused. */
  lemma EstimateBoundsTuple(boundary: Boundary, item: Item, conditions: Conditions)
    requires Sendable(item) && PartOf(item, conditions).Some?
    ensures |Tuple(boundary, PartOf(item, conditions).value)| <= TupleEstimate(item)
            <==> MetaGrowth(item) + PayloadGrowth(item) <= ItemSlack(item) + Undelivered(item, conditions)
    ensures EscapeFree(item) ==> |Tuple(boundary, PartOf(item, conditions).value)| <= TupleEstimate(item)
  {
    TupleAccount(boundary, item, conditions);
    GrowthIsZero(item);
  }

  /** Every optional text is given: empty event texts and missing descriptions are what the estimate
      counts without being printed. */
  predicate AllTextsGiven(item: Item) {
    match item
    case Event(_, _, correlationId, _, _, description, _, _, _) =>
      correlationId != Some("") && description != Some("")
    case DataSourceConfiguration(c) =>
      forall i :: 0 <= i < |c.dataSources| ==> DescriptionsGiven(c.dataSources[i])
    case _ => true
  }

  predicate DescriptionsGiven(s: DataSource) {
    s.description.Some? && forall i :: 0 <= i < |s.dataPoints| ==> s.dataPoints[i].description.Some?
  }

  lemma {:induction false} DataPointsSlackIsZero(ps: seq<DataPoint>)
    ensures (forall i :: 0 <= i < |ps| ==> ps[i].description.Some?) <==> DataPointsSlack(ps) == 0
  {
    if ps != [] {
      var init := ps[..|ps| - 1];
      DataPointsSlackIsZero(init);
      assert forall i :: 0 <= i < |init| ==> init[i] == ps[i];
    }
  }

  lemma {:induction false} DataSourcesSlackIsZero(ss: seq<DataSource>)
    ensures (forall i :: 0 <= i < |ss| ==> DescriptionsGiven(ss[i])) <==> DataSourcesSlack(ss) == 0
  {
    if ss != [] {
      var init, last := ss[..|ss| - 1], ss[|ss| - 1];
      DataSourcesSlackIsZero(init);
      DataPointsSlackIsZero(last.dataPoints);
      assert forall i :: 0 <= i < |init| ==> init[i] == ss[i];
    }
  }

  lemma SlackIsZero(item: Item)
    requires Sendable(item)
    ensures ItemSlack(item) >= 0 && (AllTextsGiven(item) <==> ItemSlack(item) == 0)
  {
    match item
    case DataSourceConfiguration(c) => DataSourcesSlackIsZero(c.dataSources);
    case _ =>
  }

  /** The estimate of an escape-free item is exact if, and only if, all optional texts are given and
      its payload is delivered in full. */
  lemma EstimateIsExact(boundary: Boundary, item: Item, conditions: Conditions)
    requires Sendable(item) && PartOf(item, conditions).Some? && EscapeFree(item)
    ensures |Tuple(boundary, PartOf(item, conditions).value)| == TupleEstimate(item)
            <==> AllTextsGiven(item) && Undelivered(item, conditions) == 0
  {
    TupleAccount(boundary, item, conditions);
    GrowthIsZero(item);
    SlackIsZero(item);
  }

  function Quoted(): (r: Item)
    ensures Sendable(r)
  {
    CustomData("1.0", Some("text/plain"), Some("\""), Some("x"), None)
  }

  /** An estimate that is too small: a quotation mark in the type of custom data is printed as two
      characters, but counted as one. */
  lemma EstimateCanBeTooSmall(boundary: Boundary, conditions: Conditions)
    requires conditions.sub.Success? && conditions.meta == Ok
    ensures PartOf(Quoted(), conditions).Some?
    ensures |Tuple(boundary, PartOf(Quoted(), conditions).value)| == TupleEstimate(Quoted()) + 1
  {
    TupleAccount(boundary, Quoted(), conditions);
    PlainConstants();
    assert Growth("\"") == 1 by {
      assert !Plain("\"");
      assert "\""[1..] == "";
    }
  }
}
