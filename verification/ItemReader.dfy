/** What the trees of items say to somebody who knows the member names of the format, and nothing about
    how the trees are built. */
module ItemReader {
  import opened Core
  import opened Json
  import opened Items
  import opened ItemJson

  // ----- members -----

  function Member(fields: seq<Field>, name: string): Option<Json> {
    if fields == [] then None
    else if fields[0].name == name then Some(fields[0].value)
    else Member(fields[1..], name)
  }

  function MemberOf(j: Json, name: string): Option<Json> {
    if j.JObject? then Member(j.fields, name) else None
  }

  function TextOf(j: Json, name: string): Option<string> {
    match MemberOf(j, name)
    case Some(JString(text)) => Some(text)
    case _ => None
  }

  /** All elements of an array, each as it reads. */
  function EachOf<X>(j: Json, read: Json -> Option<X>): Option<seq<X>> {
    if j.JArray? then Each(j.items, read) else None
  }

  function Each<X>(items: seq<Json>, read: Json -> Option<X>): Option<seq<X>> {
    if items == [] then Some([])
    else
      match (read(items[0]), Each(items[1..], read))
      case (Some(first), Some(others)) => Some([first] + others)
      case _ => None
  }

  function ElementsOf<X>(j: Json, name: string, read: Json -> Option<X>): Option<seq<X>> {
    match MemberOf(j, name)
    case Some(elements) => EachOf(elements, read)
    case None => None
  }

  // ----- time series -----

  function ValueFrom(j: Json): Option<TimeseriesValue> {
    match (TextOf(j, "dataPointId"), TextOf(j, "value"), TextOf(j, "qualityCode"))
    case (Some(id), Some(value), Some(quality)) =>
      Some(TimeseriesValue(dataPointId := Some(id), qualityCode := Some(quality), value := Some(value)))
    case _ => None
  }

  function ValueListFrom(j: Json): Option<ValueList> {
    match (TextOf(j, "timestamp"), ElementsOf(j, "values", ValueFrom))
    case (Some(timestamp), Some(values)) => Some(ValueList(timestamp, values))
    case _ => None
  }

  function TimeseriesFrom(j: Json): Option<seq<ValueList>> {
    EachOf(j, ValueListFrom)
  }

  // ----- events -----

  datatype Reported = Reported(
    id: string,
    correlationId: Option<string>,
    timestamp: string,
    severity: nat,
    description: Option<string>,
    kind: string,
    version: string,
    details: Json)

  /** The number that decimal digits stand for. */
  function DecimalValue(s: string): Option<nat> {
    if s == "" then Some(0)
    else
      var last := s[|s| - 1];
      match DecimalValue(s[..|s| - 1])
      case Some(n) => if '0' <= last <= '9' then Some(10 * n + (last as int - '0' as int)) else None
      case None => None
  }

  function SeverityOf(j: Json): Option<nat> {
    match MemberOf(j, "severity")
    case Some(JNumber(lexeme)) => DecimalValue(lexeme)
    case _ => None
  }

  function EventFrom(j: Json): Option<Reported> {
    match (TextOf(j, "id"), TextOf(j, "timestamp"), SeverityOf(j), TextOf(j, "type"), TextOf(j, "version"),
           MemberOf(j, "details"))
    case (Some(id), Some(timestamp), Some(severity), Some(kind), Some(version), Some(details)) =>
      Some(Reported(id, TextOf(j, "correlationId"), timestamp, severity, TextOf(j, "description"), kind, version, details))
    case _ => None
  }

  // ----- configurations -----

  /** A member that may be missing, but must be a text. */
  function OptionalOf(j: Json, name: string): Option<Option<string>> {
    match MemberOf(j, name)
    case None => Some(None)
    case Some(JString(text)) => Some(Some(text))
    case _ => None
  }

  function DataPointFrom(j: Json): Option<DataPoint> {
    match (TextOf(j, "id"), TextOf(j, "name"), OptionalOf(j, "description"), TextOf(j, "type"), TextOf(j, "unit"))
    case (Some(id), Some(name), Some(description), Some(kind), Some(unit)) =>
      Some(DataPoint(id := Some(id), name := Some(name), description := description, kind := Some(kind),
                     unit := Some(unit), customData := MemberOf(j, "customData")))
    case _ => None
  }

  function DataSourceFrom(j: Json): Option<DataSource> {
    match (TextOf(j, "name"), OptionalOf(j, "description"), ElementsOf(j, "dataPoints", DataPointFrom))
    case (Some(name), Some(description), Some(points)) =>
      Some(DataSource(name := Some(name), description := description, dataPoints := points,
                      customData := MemberOf(j, "customData")))
    case _ => None
  }

  function ConfigurationFrom(j: Json): Option<Configuration> {
    match (TextOf(j, "configurationId"), ElementsOf(j, "dataSources", DataSourceFrom))
    case (Some(id), Some(sources)) => Some(Configuration(Some(id), sources))
    case _ => None
  }

  // ----- what a payload and meta data say about an item -----

  /** Empty texts are not reported. */
  function NonEmpty(s: Option<string>): Option<string> {
    if s == Some("") then None else s
  }

  predicate PayloadShows(j: Json, item: Item) {
    match item
    case Timeseries(_, lists) => TimeseriesFrom(j) == Some(lists)
    case Event(_, id, correlationId, timestamp, severity, description, kind, version, details) =>
      && kind.Some? && version.Some?
      && EachOf(j, EventFrom)
         == Some([Reported(id, NonEmpty(correlationId), timestamp, severity, NonEmpty(description), kind.value,
                           version.value, details.GetOr(JObject([])))])
    case DataSourceConfiguration(c) => ConfigurationFrom(j) == Some(c)
    case _ => false
  }

  predicate DetailsShow(payload: Json, item: Item) {
    var details := MemberOf(payload, "details");
    match item
    case Timeseries(id, _) => details.Some? && TextOf(details.value, "configurationId") == id
    case File(remoteName, fileType, local) =>
      && details.Some? && local.Some?
      && TextOf(details.value, "fileName") == remoteName
      && TextOf(details.value, "creationDate") == Some(local.value.creationDate)
      && OptionalOf(details.value, "fileType") == Some(fileType)
    case CustomData(_, _, _, _, given) => details == given
    case _ => details == None
  }

  predicate MetaShows(j: Json, item: Item) {
    && TextOf(j, "type") == Some("item") && TextOf(j, "version") == Some("1.0")
    && MemberOf(j, "payload").Some?
    && var payload := MemberOf(j, "payload").value;
    && DetailsShow(payload, item)
    && match item
       case Timeseries(_, _) => TextOf(payload, "type") == Some("standardTimeSeries") && TextOf(payload, "version") == Some("1.0")
       case Event(metaVersion, _, _, _, _, _, _, _, _) =>
         && TextOf(payload, "type") == Some("businessEvent")
         && TextOf(payload, "version") == Some(if metaVersion.EventVersion1? then "1.0" else "2.0")
       case File(_, _, _) => TextOf(payload, "type") == Some("file") && TextOf(payload, "version") == Some("1.0")
       case CustomData(version, _, kind, _, _) =>
         TextOf(payload, "type") == kind && TextOf(payload, "version") == Some(version)
       case DataSourceConfiguration(_) =>
         TextOf(payload, "type") == Some("dataSourceConfiguration") && TextOf(payload, "version") == Some("1.0")
  }

  // ----- finding members -----

  lemma {:induction false} MemberConcat(a: seq<Field>, b: seq<Field>, name: string)
    ensures Member(a + b, name) == if Member(a, name).Some? then Member(a, name) else Member(b, name)
  {
    if a == [] {
      assert a + b == b;
    } else {
      assert (a + b)[1..] == a[1..] + b;
      MemberConcat(a[1..], b, name);
    }
  }

  lemma InOne(a: Field, name: string)
    ensures Member([a], name) == if a.name == name then Some(a.value) else None
  {
    assert [a][1..] == [];
  }

  lemma InTwo(a: Field, b: Field, name: string)
    ensures Member([a, b], name)
            == if a.name == name then Some(a.value) else if b.name == name then Some(b.value) else None
  {
    assert [a, b][1..] == [b];
    InOne(b, name);
  }

  lemma InThree(a: Field, b: Field, c: Field, name: string)
    ensures Member([a, b, c], name)
            == if a.name == name then Some(a.value) else if b.name == name then Some(b.value)
               else if c.name == name then Some(c.value) else None
  {
    assert [a, b, c][1..] == [b, c];
    InTwo(b, c, name);
  }

  lemma {:induction false} EachIs<X>(items: seq<Json>, read: Json -> Option<X>, xs: seq<X>)
    requires |items| == |xs| && forall i :: 0 <= i < |xs| ==> read(items[i]) == Some(xs[i])
    ensures Each(items, read) == Some(xs)
  {
    if xs != [] {
      assert forall i :: 0 <= i < |xs[1..]| ==> items[1..][i] == items[i + 1] && xs[1..][i] == xs[i + 1];
      EachIs(items[1..], read, xs[1..]);
      HeadAndTail(xs);
    }
  }

  // ----- time series -----

  lemma ValueBack(v: TimeseriesValue)
    requires ValidValue(v)
    ensures ValueFrom(ValueTree(v)) == Some(v)
  {
    var a, b, c := ValueTree(v).fields[0], ValueTree(v).fields[1], ValueTree(v).fields[2];
    InThree(a, b, c, "dataPointId");
    InThree(a, b, c, "value");
    InThree(a, b, c, "qualityCode");
    assert |"dataPointId"| == 11 && |"value"| == 5 && |"qualityCode"| == 11 && "dataPointId"[0] != "qualityCode"[0];
  }

  lemma {:induction false} ValueTreeAt(vs: seq<TimeseriesValue>, i: nat)
    requires i < |vs| && forall k :: 0 <= k < |vs| ==> ValidValue(vs[k])
    ensures ValueTrees(vs)[i] == ValueTree(vs[i])
  {
    if i < |vs| - 1 {
      ValueTreeAt(vs[..|vs| - 1], i);
    }
  }

  lemma ValueListBack(l: ValueList)
    requires CompleteValueList(l)
    ensures ValueListFrom(ValueListTree(l)) == Some(l)
  {
    var trees := ValueTrees(l.values);
    forall i | 0 <= i < |l.values| ensures ValueFrom(trees[i]) == Some(l.values[i]) {
      ValueTreeAt(l.values, i);
      ValueBack(l.values[i]);
    }
    EachIs(trees, ValueFrom, l.values);
    var a, b := Text("timestamp", l.timestamp), Field("values", JArray(trees));
    InTwo(a, b, "timestamp");
    InTwo(a, b, "values");
    assert ValueListTree(l).fields == [a, b] && |"timestamp"| != |"values"|;
  }

  lemma {:induction false} ValueListTreeAt(ls: seq<ValueList>, i: nat)
    requires i < |ls| && forall k :: 0 <= k < |ls| ==> CompleteValueList(ls[k])
    ensures ValueListTrees(ls)[i] == ValueListTree(ls[i])
  {
    if i < |ls| - 1 {
      ValueListTreeAt(ls[..|ls| - 1], i);
    }
  }

  lemma TimeseriesBack(lists: seq<ValueList>)
    requires forall i :: 0 <= i < |lists| ==> CompleteValueList(lists[i])
    ensures TimeseriesFrom(JArray(ValueListTrees(lists))) == Some(lists)
  {
    var trees := ValueListTrees(lists);
    forall i | 0 <= i < |lists| ensures ValueListFrom(trees[i]) == Some(lists[i]) {
      ValueListTreeAt(lists, i);
      ValueListBack(lists[i]);
    }
    EachIs(trees, ValueListFrom, lists);
  }

  // ----- events -----

  lemma {:induction false} DecimalBack(n: nat)
    ensures DecimalValue(Decimal(n)) == Some(n)
  {
    if n < 10 {
      assert Decimal(n)[..0] == "";
    } else {
      DecimalBack(n / 10);
      assert Decimal(n)[..|Decimal(n)| - 1] == Decimal(n / 10);
    }
  }

  lemma OptionalIn(name: string, value: Option<string>, wanted: string)
    ensures Member(OptionalText(name, value), wanted)
            == if name == wanted && value.Some? then Some(JString(value.value)) else None
    ensures Member(NonEmptyText(name, value), wanted)
            == if name == wanted && NonEmpty(value).Some? then Some(JString(value.value)) else None
  {
    if value.Some? {
      InOne(Text(name, value.value), wanted);
    }
  }

  lemma OptionalJsonIn(name: string, value: Option<Json>, wanted: string)
    ensures Member(OptionalJson(name, value), wanted) == if name == wanted then value else None
  {
    if value.Some? {
      InOne(Field(name, value.value), wanted);
    }
  }

  lemma EventHeadMember(e: Item, name: string)
    requires e.Event?
    ensures Member(EventHeadFields(e), name)
            == if name == "id" then Some(JString(e.id))
               else if name == "correlationId" && NonEmpty(e.correlationId).Some? then Some(JString(e.correlationId.value))
               else if name == "timestamp" then Some(JString(e.timestamp))
               else if name == "severity" then Some(JNumber(Decimal(e.severity)))
               else if name == "description" && NonEmpty(e.description).Some? then Some(JString(e.description.value))
               else None
  {
    var a, b, d := [Text("id", e.id)], NonEmptyText("correlationId", e.correlationId),
                   NonEmptyText("description", e.description);
    var time, severity := Text("timestamp", e.timestamp), Field("severity", JNumber(Decimal(e.severity)));
    assert EventHeadFields(e) == a + b + [time, severity] + d;
    MemberConcat(a + b + [time, severity], d, name);
    MemberConcat(a + b, [time, severity], name);
    MemberConcat(a, b, name);
    InOne(Text("id", e.id), name);
    OptionalIn("correlationId", e.correlationId, name);
    InTwo(time, severity, name);
    OptionalIn("description", e.description, name);
  }

  lemma EventMember(e: Item, name: string)
    requires e.Event? && e.kind.Some? && e.version.Some?
    ensures Member(EventFields(e), name)
            == var head := Member(EventHeadFields(e), name);
               if head.Some? then head
               else if name == "type" then Some(JString(e.kind.value))
               else if name == "version" then Some(JString(e.version.value))
               else if name == "details" then Some(e.details.GetOr(JObject([])))
               else None
  {
    var a, b := Text("type", e.kind.value), Text("version", e.version.value);
    var c := Field("details", e.details.GetOr(JObject([])));
    assert EventFields(e) == EventHeadFields(e) + [a, b] + [c];
    MemberConcat(EventHeadFields(e) + [a, b], [c], name);
    MemberConcat(EventHeadFields(e), [a, b], name);
    InTwo(a, b, name);
    InOne(c, name);
  }

  lemma EventNamesDiffer()
    ensures "type" != "id" && "type" != "correlationId" && "type" != "timestamp" && "type" != "severity"
    ensures "type" != "description" && "type" != "version" && "type" != "details"
    ensures "version" != "id" && "version" != "correlationId" && "version" != "timestamp" && "version" != "severity"
    ensures "version" != "description" && "version" != "details"
    ensures "details" != "id" && "details" != "correlationId" && "details" != "timestamp" && "details" != "severity"
    ensures "details" != "description"
    ensures "id" != "correlationId" && "id" != "timestamp" && "id" != "severity" && "id" != "description"
    ensures "correlationId" != "timestamp" && "correlationId" != "severity" && "correlationId" != "description"
    ensures "timestamp" != "severity" && "timestamp" != "description" && "severity" != "description"
  {
    assert "version"[0] != "details"[0];
    assert |"type"| == 4 && |"id"| == 2 && |"correlationId"| == 13 && |"timestamp"| == 9 && |"severity"| == 8;
    assert |"description"| == 11 && |"version"| == 7 && |"details"| == 7;
  }

  lemma EventBack(e: Item)
    requires e.Event? && e.kind.Some? && e.version.Some?
    ensures EventFrom(JObject(EventFields(e)))
            == Some(Reported(e.id, NonEmpty(e.correlationId), e.timestamp, e.severity, NonEmpty(e.description),
                             e.kind.value, e.version.value, e.details.GetOr(JObject([]))))
  {
    EventNamesDiffer();
    EventHeadMember(e, "id");
    EventHeadMember(e, "correlationId");
    EventHeadMember(e, "timestamp");
    EventHeadMember(e, "severity");
    EventHeadMember(e, "description");
    EventHeadMember(e, "type");
    EventHeadMember(e, "version");
    EventHeadMember(e, "details");
    EventMember(e, "id");
    EventMember(e, "correlationId");
    EventMember(e, "timestamp");
    EventMember(e, "severity");
    EventMember(e, "description");
    EventMember(e, "type");
    EventMember(e, "version");
    EventMember(e, "details");
    DecimalBack(e.severity);
  }

  /** An event without a type or a version, as the serializer builds it after an error: the later members
      are missing, and the details are empty whatever was given. */
  lemma IncompleteEvent(e: Item)
    requires e.Event? && (e.kind == None || e.version == None)
    ensures var j := JObject(EventFields(e));
            && TextOf(j, "type") == e.kind && MemberOf(j, "version") == None && MemberOf(j, "details") == Some(JObject([]))
            && TextOf(j, "id") == Some(e.id) && TextOf(j, "timestamp") == Some(e.timestamp)
            && TextOf(j, "correlationId") == NonEmpty(e.correlationId)
            && TextOf(j, "description") == NonEmpty(e.description) && SeverityOf(j) == Some(e.severity)
  {
    EventNamesDiffer();
    DecimalBack(e.severity);
    IncompleteEventMember(e, "type");
    IncompleteEventMember(e, "version");
    IncompleteEventMember(e, "details");
    IncompleteEventMember(e, "id");
    IncompleteEventMember(e, "timestamp");
    IncompleteEventMember(e, "correlationId");
    IncompleteEventMember(e, "description");
    IncompleteEventMember(e, "severity");
  }

  lemma IncompleteEventMember(e: Item, name: string)
    requires e.Event? && (e.kind == None || e.version == None)
    ensures Member(EventFields(e), name)
            == if Member(EventHeadFields(e), name).Some? then Member(EventHeadFields(e), name)
               else if name == "type" && e.kind.Some? then Some(JString(e.kind.value))
               else if name == "details" then Some(JObject([]))
               else None
    ensures Member(EventHeadFields(e), name)
            == if name == "id" then Some(JString(e.id))
               else if name == "correlationId" && NonEmpty(e.correlationId).Some? then Some(JString(e.correlationId.value))
               else if name == "timestamp" then Some(JString(e.timestamp))
               else if name == "severity" then Some(JNumber(Decimal(e.severity)))
               else if name == "description" && NonEmpty(e.description).Some? then Some(JString(e.description.value))
               else None
  {
    EventHeadMember(e, name);
    var c := Field("details", JObject([]));
    InOne(c, name);
    if e.kind.None? {
      assert EventFields(e) == EventHeadFields(e) + [c];
      MemberConcat(EventHeadFields(e), [c], name);
    } else {
      var a := Text("type", e.kind.value);
      assert EventFields(e) == EventHeadFields(e) + [a] + [c];
      MemberConcat(EventHeadFields(e) + [a], [c], name);
      MemberConcat(EventHeadFields(e), [a], name);
      InOne(a, name);
    }
  }

  // ----- configurations -----

  lemma DataPointMember(p: DataPoint, name: string)
    requires ValidDataPoint(p)
    ensures Member(DataPointFields(p), name)
            == if name == "id" then Some(JString(p.id.value))
               else if name == "name" then Some(JString(p.name.value))
               else if name == "description" && p.description.Some? then Some(JString(p.description.value))
               else if name == "type" then Some(JString(p.kind.value))
               else if name == "unit" then Some(JString(p.unit.value))
               else if name == "customData" then p.customData
               else None
  {
    var a, b, c, d := Text("id", p.id.value), Text("name", p.name.value), Text("type", p.kind.value), Text("unit", p.unit.value);
    var description, customData := OptionalText("description", p.description), OptionalJson("customData", p.customData);
    assert DataPointFields(p) == [a, b] + description + [c, d] + customData;
    MemberConcat([a, b] + description + [c, d], customData, name);
    MemberConcat([a, b] + description, [c, d], name);
    MemberConcat([a, b], description, name);
    InTwo(a, b, name);
    OptionalIn("description", p.description, name);
    InTwo(c, d, name);
    OptionalJsonIn("customData", p.customData, name);
  }

  lemma PointNamesDiffer()
    ensures "id" != "name" && "id" != "description" && "id" != "type" && "id" != "unit" && "id" != "customData"
    ensures "name" != "description" && "name" != "type" && "name" != "unit" && "name" != "customData"
    ensures "description" != "type" && "description" != "unit" && "description" != "customData"
    ensures "type" != "unit" && "type" != "customData" && "unit" != "customData"
    ensures "name" != "dataPoints" && "description" != "dataPoints" && "dataPoints" != "customData"
  {
    assert |"id"| == 2 && |"name"| == 4 && |"description"| == 11 && |"type"| == 4 && |"unit"| == 4;
    assert |"customData"| == 10 && |"dataPoints"| == 10 && "dataPoints"[0] != "customData"[0];
    assert "name"[0] != "type"[0] && "name"[0] != "unit"[0] && "type"[0] != "unit"[0];
  }

  lemma DataPointBack(p: DataPoint)
    requires ValidDataPoint(p)
    ensures DataPointFrom(JObject(DataPointFields(p))) == Some(p)
  {
    PointNamesDiffer();
    DataPointMember(p, "id");
    DataPointMember(p, "name");
    DataPointMember(p, "description");
    DataPointMember(p, "type");
    DataPointMember(p, "unit");
    DataPointMember(p, "customData");
  }

  lemma {:induction false} DataPointTreeAt(ps: seq<DataPoint>, i: nat)
    requires i < |ps| && forall k :: 0 <= k < |ps| ==> ValidDataPoint(ps[k])
    ensures DataPointTrees(ps)[i] == JObject(DataPointFields(ps[i]))
  {
    if i < |ps| - 1 {
      DataPointTreeAt(ps[..|ps| - 1], i);
    }
  }

  lemma DataPointsBack(ps: seq<DataPoint>)
    requires forall i :: 0 <= i < |ps| ==> ValidDataPoint(ps[i])
    ensures EachOf(JArray(DataPointTrees(ps)), DataPointFrom) == Some(ps)
  {
    var trees := DataPointTrees(ps);
    forall i | 0 <= i < |ps| ensures DataPointFrom(trees[i]) == Some(ps[i]) {
      DataPointTreeAt(ps, i);
      DataPointBack(ps[i]);
    }
    EachIs(trees, DataPointFrom, ps);
  }

  lemma DataSourceMember(s: DataSource, name: string)
    requires CompleteDataSource(s)
    ensures Member(DataSourceFields(s), name)
            == if name == "name" then Some(JString(s.name.value))
               else if name == "description" && s.description.Some? then Some(JString(s.description.value))
               else if name == "dataPoints" then Some(JArray(DataPointTrees(s.dataPoints)))
               else if name == "customData" then s.customData
               else None
  {
    var a, points := Text("name", s.name.value), Field("dataPoints", JArray(DataPointTrees(s.dataPoints)));
    var description, customData := OptionalText("description", s.description), OptionalJson("customData", s.customData);
    assert DataSourceFields(s) == [a] + description + [points] + customData;
    MemberConcat([a] + description + [points], customData, name);
    MemberConcat([a] + description, [points], name);
    MemberConcat([a], description, name);
    InOne(a, name);
    OptionalIn("description", s.description, name);
    InOne(points, name);
    OptionalJsonIn("customData", s.customData, name);
  }

  lemma DataSourceBack(s: DataSource)
    requires CompleteDataSource(s)
    ensures DataSourceFrom(JObject(DataSourceFields(s))) == Some(s)
  {
    PointNamesDiffer();
    DataPointsBack(s.dataPoints);
    DataSourceMember(s, "name");
    DataSourceMember(s, "description");
    DataSourceMember(s, "dataPoints");
    DataSourceMember(s, "customData");
  }

  lemma {:induction false} DataSourceTreeAt(ss: seq<DataSource>, i: nat)
    requires i < |ss| && forall k :: 0 <= k < |ss| ==> CompleteDataSource(ss[k])
    ensures DataSourceTrees(ss)[i] == JObject(DataSourceFields(ss[i]))
  {
    if i < |ss| - 1 {
      DataSourceTreeAt(ss[..|ss| - 1], i);
    }
  }

  /** A configuration can be read from its tree, whole. */
  lemma ConfigurationBack(c: Configuration)
    requires CompleteConfiguration(c)
    ensures ConfigurationFrom(ConfigurationTree(c)) == Some(c)
  {
    var trees := DataSourceTrees(c.dataSources);
    forall i | 0 <= i < |c.dataSources| ensures DataSourceFrom(trees[i]) == Some(c.dataSources[i]) {
      DataSourceTreeAt(c.dataSources, i);
      DataSourceBack(c.dataSources[i]);
    }
    EachIs(trees, DataSourceFrom, c.dataSources);
    var a, b := Text("configurationId", c.id.value), Field("dataSources", JArray(trees));
    InTwo(a, b, "configurationId");
    InTwo(a, b, "dataSources");
    assert ConfigurationTree(c).fields == [a, b] && |"configurationId"| != |"dataSources"|;
  }

  // ----- whole items -----

  /** A payload tree says all of its item. */
  lemma PayloadBack(item: Item)
    requires Valid(item) && !HasCallbackPayload(item)
    ensures PayloadShows(PayloadTree(item), item)
  {
    match item
    case Timeseries(_, lists) => TimeseriesBack(lists);
    case Event(_, _, _, _, _, _, _, _, _) =>
      EventBack(item);
      EachIs([JObject(EventFields(item))], EventFrom, [EventFrom(JObject(EventFields(item))).value]);
    case DataSourceConfiguration(c) => ConfigurationBack(c);
  }

  lemma MetaNamesDiffer()
    ensures "type" != "version" && "type" != "payload" && "type" != "details"
    ensures "version" != "payload" && "version" != "details"
    ensures "fileName" != "creationDate" && "fileName" != "fileType" && "creationDate" != "fileType"
  {
    assert |"type"| == 4 && |"version"| == 7 && |"payload"| == 7 && |"details"| == 7;
    assert "version"[0] != "payload"[0] && "version"[0] != "details"[0];
    assert |"fileName"| == 8 && |"creationDate"| == 12 && |"fileType"| == 8 && "fileName"[4] != "fileType"[4];
  }

  lemma MetaPayloadMember(item: Item, name: string)
    requires Valid(item)
    ensures Member(MetaPayloadFields(item), name)
            == if name == "type" then Some(JString(MetaPayloadType(item)))
               else if name == "version" then Some(JString(MetaPayloadVersion(item)))
               else Member(MetaDetails(item), name)
  {
    var a, b := Text("type", MetaPayloadType(item)), Text("version", MetaPayloadVersion(item));
    assert MetaPayloadFields(item) == [a, b] + MetaDetails(item);
    MemberConcat([a, b], MetaDetails(item), name);
    InTwo(a, b, name);
  }

  lemma FileDetailsMember(remoteName: string, creationDate: string, fileType: Option<string>, name: string)
    ensures Member([Text("fileName", remoteName), Text("creationDate", creationDate)] + OptionalText("fileType", fileType), name)
            == if name == "fileName" then Some(JString(remoteName))
               else if name == "creationDate" then Some(JString(creationDate))
               else if name == "fileType" && fileType.Some? then Some(JString(fileType.value))
               else None
  {
    var a, b := Text("fileName", remoteName), Text("creationDate", creationDate);
    MemberConcat([a, b], OptionalText("fileType", fileType), name);
    InTwo(a, b, name);
    OptionalIn("fileType", fileType, name);
  }

  lemma DetailsBack(item: Item)
    requires Valid(item)
    ensures DetailsShow(JObject(MetaPayloadFields(item)), item)
  {
    MetaNamesDiffer();
    MetaPayloadMember(item, "details");
    match item
    case Timeseries(id, _) =>
      InOne(MetaDetails(item)[0], "details");
      InOne(Text("configurationId", id.value), "configurationId");
    case File(remoteName, fileType, local) =>
      InOne(MetaDetails(item)[0], "details");
      FileDetailsMember(remoteName.value, local.value.creationDate, fileType, "fileName");
      FileDetailsMember(remoteName.value, local.value.creationDate, fileType, "creationDate");
      FileDetailsMember(remoteName.value, local.value.creationDate, fileType, "fileType");
    case CustomData(_, _, _, _, details) => OptionalJsonIn("details", details, "details");
    case _ =>
  }

  /** A meta tree says what its item is. */
  lemma MetaBack(item: Item)
    requires Valid(item)
    ensures MetaShows(MetaTree(item), item)
  {
    MetaNamesDiffer();
    DetailsBack(item);
    var a, b, c := Text("type", "item"), Text("version", "1.0"), Field("payload", JObject(MetaPayloadFields(item)));
    assert MetaTree(item).fields == [a, b, c];
    InThree(a, b, c, "type");
    InThree(a, b, c, "version");
    InThree(a, b, c, "payload");
    MetaPayloadMember(item, "type");
    MetaPayloadMember(item, "version");
  }
}
