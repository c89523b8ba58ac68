/** The JSON form of items: the trees (functions) and the serializers that build them step by step
    (methods). */
module ItemJson {
  import opened Core
  import opened Json
  import opened Items

  // ----- member names -----

  const FIELD_ID := "id"
  const FIELD_NAME := "name"
  const FIELD_DESCRIPTION := "description"
  const FIELD_TYPE := "type"
  const FIELD_UNIT := "unit"
  const FIELD_CUSTOM_DATA := "customData"
  const FIELD_DATA_POINTS := "dataPoints"
  const FIELD_CONFIGURATION_ID := "configurationId"
  const FIELD_DATA_SOURCES := "dataSources"
  const FIELD_DATA_POINT_ID := "dataPointId"
  const FIELD_VALUE := "value"
  const FIELD_QUALITY_CODE := "qualityCode"
  const FIELD_TIMESTAMP := "timestamp"
  const FIELD_VALUES := "values"
  const FIELD_CORRELATION_ID := "correlationId"
  const FIELD_SEVERITY := "severity"
  const FIELD_VERSION := "version"
  const FIELD_DETAILS := "details"
  const FIELD_FILE_NAME := "fileName"
  const FIELD_CREATION_DATE := "creationDate"
  const FIELD_FILE_TYPE := "fileType"
  const FIELD_PAYLOAD := "payload"

  /** The member names of a data point are pairwise different. */
  lemma DataPointNames()
    ensures
      && !SameName(FIELD_ID, FIELD_NAME) && !SameName(FIELD_ID, FIELD_DESCRIPTION) && !SameName(FIELD_ID, FIELD_TYPE)
      && !SameName(FIELD_ID, FIELD_UNIT) && !SameName(FIELD_ID, FIELD_CUSTOM_DATA)
    ensures
      && !SameName(FIELD_NAME, FIELD_DESCRIPTION) && !SameName(FIELD_NAME, FIELD_TYPE)
      && !SameName(FIELD_NAME, FIELD_UNIT) && !SameName(FIELD_NAME, FIELD_CUSTOM_DATA)
    ensures
      && !SameName(FIELD_DESCRIPTION, FIELD_TYPE) && !SameName(FIELD_DESCRIPTION, FIELD_UNIT)
      && !SameName(FIELD_DESCRIPTION, FIELD_CUSTOM_DATA)
    ensures !SameName(FIELD_TYPE, FIELD_UNIT) && !SameName(FIELD_TYPE, FIELD_CUSTOM_DATA)
    ensures !SameName(FIELD_UNIT, FIELD_CUSTOM_DATA)
  {
  }

  /** The member names of a data source are pairwise different. */
  lemma DataSourceNames()
    ensures
      && !SameName(FIELD_NAME, FIELD_DESCRIPTION) && !SameName(FIELD_NAME, FIELD_DATA_POINTS)
      && !SameName(FIELD_NAME, FIELD_CUSTOM_DATA)
    ensures !SameName(FIELD_DESCRIPTION, FIELD_DATA_POINTS) && !SameName(FIELD_DESCRIPTION, FIELD_CUSTOM_DATA)
    ensures !SameName(FIELD_DATA_POINTS, FIELD_CUSTOM_DATA)
  {
  }

  /** The member names of an event are pairwise different. */
  lemma EventNames()
    ensures
      && !SameName(FIELD_ID, FIELD_CORRELATION_ID) && !SameName(FIELD_ID, FIELD_TIMESTAMP)
      && !SameName(FIELD_ID, FIELD_SEVERITY) && !SameName(FIELD_ID, FIELD_DESCRIPTION)
      && !SameName(FIELD_ID, FIELD_TYPE) && !SameName(FIELD_ID, FIELD_VERSION) && !SameName(FIELD_ID, FIELD_DETAILS)
    ensures
      && !SameName(FIELD_CORRELATION_ID, FIELD_TIMESTAMP) && !SameName(FIELD_CORRELATION_ID, FIELD_SEVERITY)
      && !SameName(FIELD_CORRELATION_ID, FIELD_DESCRIPTION) && !SameName(FIELD_CORRELATION_ID, FIELD_TYPE)
      && !SameName(FIELD_CORRELATION_ID, FIELD_VERSION) && !SameName(FIELD_CORRELATION_ID, FIELD_DETAILS)
    ensures
      && !SameName(FIELD_TIMESTAMP, FIELD_SEVERITY) && !SameName(FIELD_TIMESTAMP, FIELD_DESCRIPTION)
      && !SameName(FIELD_TIMESTAMP, FIELD_TYPE) && !SameName(FIELD_TIMESTAMP, FIELD_VERSION)
      && !SameName(FIELD_TIMESTAMP, FIELD_DETAILS)
    ensures
      && !SameName(FIELD_SEVERITY, FIELD_DESCRIPTION) && !SameName(FIELD_SEVERITY, FIELD_TYPE)
      && !SameName(FIELD_SEVERITY, FIELD_VERSION) && !SameName(FIELD_SEVERITY, FIELD_DETAILS)
    ensures
      && !SameName(FIELD_DESCRIPTION, FIELD_TYPE) && !SameName(FIELD_DESCRIPTION, FIELD_VERSION)
      && !SameName(FIELD_DESCRIPTION, FIELD_DETAILS)
    ensures !SameName(FIELD_TYPE, FIELD_VERSION) && !SameName(FIELD_TYPE, FIELD_DETAILS)
    ensures !SameName(FIELD_VERSION, FIELD_DETAILS)
  {
  }

  /** The remaining objects have two or three members each. */
  lemma OtherNames()
    ensures !SameName(FIELD_CONFIGURATION_ID, FIELD_DATA_SOURCES)
    ensures !SameName(FIELD_TIMESTAMP, FIELD_VALUES)
    ensures !SameName(FIELD_DATA_POINT_ID, FIELD_VALUE)
    ensures !SameName(FIELD_DATA_POINT_ID, FIELD_QUALITY_CODE) && !SameName(FIELD_VALUE, FIELD_QUALITY_CODE)
    ensures !SameName(FIELD_TYPE, FIELD_VERSION)
    ensures !SameName(FIELD_TYPE, FIELD_DETAILS) && !SameName(FIELD_VERSION, FIELD_DETAILS)
    ensures !SameName(FIELD_TYPE, FIELD_PAYLOAD) && !SameName(FIELD_VERSION, FIELD_PAYLOAD)
    ensures !SameName(FIELD_FILE_NAME, FIELD_CREATION_DATE)
    ensures !SameName(FIELD_FILE_NAME, FIELD_FILE_TYPE) && !SameName(FIELD_CREATION_DATE, FIELD_FILE_TYPE)
  {
    assert FIELD_FILE_NAME[4] != FIELD_FILE_TYPE[4];
  }

  // ----- the trees -----

  function Text(name: string, value: string): Field {
    Field(name, JString(value))
  }

  function OptionalText(name: string, value: Option<string>): seq<Field> {
    if value.Some? then [Text(name, value.value)] else []
  }

  /** Null and empty strings are both left out. */
  function NonEmptyText(name: string, value: Option<string>): seq<Field> {
    if value.Some? && value.value != "" then [Text(name, value.value)] else []
  }

  function OptionalJson(name: string, value: Option<Json>): seq<Field> {
    if value.Some? then [Field(name, value.value)] else []
  }

  function VersionText(version: EventVersion): string {
    match version
    case EventVersion1 => "1.0"
    case EventVersion2 => "2.0"
  }

  function DataPointFields(p: DataPoint): seq<Field>
    requires ValidDataPoint(p)
  {
    [Text(FIELD_ID, p.id.value), Text(FIELD_NAME, p.name.value)]
    + OptionalText(FIELD_DESCRIPTION, p.description)
    + [Text(FIELD_TYPE, p.kind.value), Text(FIELD_UNIT, p.unit.value)]
    + OptionalJson(FIELD_CUSTOM_DATA, p.customData)
  }

  function DataPointTrees(ps: seq<DataPoint>): (r: seq<Json>)
    requires forall i :: 0 <= i < |ps| ==> ValidDataPoint(ps[i])
    ensures |r| == |ps|
  {
    if ps == [] then [] else DataPointTrees(ps[..|ps| - 1]) + [JObject(DataPointFields(ps[|ps| - 1]))]
  }

  function DataSourceFields(s: DataSource): seq<Field>
    requires CompleteDataSource(s)
  {
    [Text(FIELD_NAME, s.name.value)]
    + OptionalText(FIELD_DESCRIPTION, s.description)
    + [Field(FIELD_DATA_POINTS, JArray(DataPointTrees(s.dataPoints)))]
    + OptionalJson(FIELD_CUSTOM_DATA, s.customData)
  }

  function DataSourceTrees(ss: seq<DataSource>): (r: seq<Json>)
    requires forall i :: 0 <= i < |ss| ==> CompleteDataSource(ss[i])
    ensures |r| == |ss|
  {
    if ss == [] then [] else DataSourceTrees(ss[..|ss| - 1]) + [JObject(DataSourceFields(ss[|ss| - 1]))]
  }

  function ConfigurationTree(c: Configuration): Json
    requires CompleteConfiguration(c)
  {
    JObject([Text(FIELD_CONFIGURATION_ID, c.id.value),
             Field(FIELD_DATA_SOURCES, JArray(DataSourceTrees(c.dataSources)))])
  }

  function ValueTree(v: TimeseriesValue): Json
    requires ValidValue(v)
  {
    JObject([Text(FIELD_DATA_POINT_ID, v.dataPointId.value),
             Text(FIELD_VALUE, v.value.value),
             Text(FIELD_QUALITY_CODE, v.qualityCode.value)])
  }

  function ValueTrees(vs: seq<TimeseriesValue>): (r: seq<Json>)
    requires forall i :: 0 <= i < |vs| ==> ValidValue(vs[i])
    ensures |r| == |vs|
  {
    if vs == [] then [] else ValueTrees(vs[..|vs| - 1]) + [ValueTree(vs[|vs| - 1])]
  }

  function ValueListTree(l: ValueList): Json
    requires CompleteValueList(l)
  {
    JObject([Text(FIELD_TIMESTAMP, l.timestamp), Field(FIELD_VALUES, JArray(ValueTrees(l.values)))])
  }

  function ValueListTrees(ls: seq<ValueList>): (r: seq<Json>)
    requires forall i :: 0 <= i < |ls| ==> CompleteValueList(ls[i])
    ensures |r| == |ls|
  {
    if ls == [] then [] else ValueListTrees(ls[..|ls| - 1]) + [ValueListTree(ls[|ls| - 1])]
  }

  function DecimalDigit(n: nat): char
    requires n < 10
  {
    ('0' as int + n) as char
  }

  lemma {:induction false} DigitsEndNumber(s: string)
    requires forall i :: 0 <= i < |s| ==> '0' <= s[i] <= '9'
    ensures EndsNumber(s, Integer)
  {
    if s != "" {
      DigitsEndNumber(s[1..]);
    }
  }

  lemma DigitsAreNumber(s: string)
    requires s != "" && (s[0] == '0' ==> |s| == 1)
    requires forall i :: 0 <= i < |s| ==> '0' <= s[i] <= '9'
    ensures IsNumber(s)
  {
    if s[0] == '0' {
      assert s[1..] == "";
    } else {
      DigitsEndNumber(s[1..]);
    }
  }

  function Decimal(n: nat): (s: Number)
    ensures |s| >= 1
    ensures n < 10 ==> |s| == 1
    ensures 10 <= n < 100 ==> |s| == 2
    ensures forall i :: 0 <= i < |s| ==> '0' <= s[i] <= '9'
    ensures s[0] == '0' ==> n == 0
  {
    var s := if n < 10 then [DecimalDigit(n)] else Decimal(n / 10) + [DecimalDigit(n % 10)];
    DigitsAreNumber(s);
    s
  }

  /** The fields of an event up to its description. */
  function EventHeadFields(e: Item): seq<Field>
    requires e.Event?
  {
    [Text(FIELD_ID, e.id)]
    + NonEmptyText(FIELD_CORRELATION_ID, e.correlationId)
    + [Text(FIELD_TIMESTAMP, e.timestamp), Field(FIELD_SEVERITY, JNumber(Decimal(e.severity)))]
    + NonEmptyText(FIELD_DESCRIPTION, e.description)
  }

  /** The fields of any event.  When the type or the version is missing, the code that creates the
      details overwrites the error: the fields from the missing one on are dropped, the details are
      replaced by an empty object, and the serializer still reports success. */
  function EventFields(e: Item): seq<Field>
    requires e.Event?
  {
    if e.kind.None? then EventHeadFields(e) + [Field(FIELD_DETAILS, JObject([]))]
    else if e.version.None? then
      EventHeadFields(e) + [Text(FIELD_TYPE, e.kind.value)] + [Field(FIELD_DETAILS, JObject([]))]
    else
      EventHeadFields(e)
      + [Text(FIELD_TYPE, e.kind.value), Text(FIELD_VERSION, e.version.value)]
      + [Field(FIELD_DETAILS, e.details.GetOr(JObject([])))]
  }

  function PayloadTree(item: Item): Json
    requires Valid(item) && !HasCallbackPayload(item)
  {
    match item
    case Timeseries(_, lists) => JArray(ValueListTrees(lists))
    case Event(_, _, _, _, _, _, _, _, _) => JArray([JObject(EventFields(item))])
    case DataSourceConfiguration(c) => ConfigurationTree(c)
  }

  function MetaDetails(item: Item): seq<Field>
    requires Valid(item)
  {
    match item
    case Timeseries(id, _) => [Field(FIELD_DETAILS, JObject([Text(FIELD_CONFIGURATION_ID, id.value)]))]
    case Event(_, _, _, _, _, _, _, _, _) => []
    case File(remoteName, fileType, local) =>
      [Field(FIELD_DETAILS, JObject(
        [Text(FIELD_FILE_NAME, remoteName.value), Text(FIELD_CREATION_DATE, local.value.creationDate)]
        + OptionalText(FIELD_FILE_TYPE, fileType)))]
    case CustomData(_, _, _, _, details) => OptionalJson(FIELD_DETAILS, details)
    case DataSourceConfiguration(_) => []
  }

  function MetaPayloadType(item: Item): string
    requires Valid(item)
  {
    match item
    case Timeseries(_, _) => "standardTimeSeries"
    case Event(_, _, _, _, _, _, _, _, _) => "businessEvent"
    case File(_, _, _) => "file"
    case CustomData(_, _, kind, _, _) => kind.value
    case DataSourceConfiguration(_) => "dataSourceConfiguration"
  }

  function MetaPayloadVersion(item: Item): string {
    match item
    case Event(version, _, _, _, _, _, _, _, _) => VersionText(version)
    case CustomData(version, _, _, _, _) => version
    case _ => "1.0"
  }

  function MetaPayloadFields(item: Item): seq<Field>
    requires Valid(item)
  {
    [Text(FIELD_TYPE, MetaPayloadType(item)), Text(FIELD_VERSION, MetaPayloadVersion(item))] + MetaDetails(item)
  }

  function MetaTree(item: Item): Json
    requires Valid(item)
  {
    JObject([Text(FIELD_TYPE, "item"), Text(FIELD_VERSION, "1.0"),
             Field(FIELD_PAYLOAD, JObject(MetaPayloadFields(item)))])
  }

  // ----- building trees member by member -----

  /** A successful addition makes exactly one more name taken. */
  function AddMember(root: Json, name: string, value: Json): (r: Result<Json>)
    ensures r.Success? ==>
              && root.JObject? && r.value.JObject?
              && forall n :: Find(r.value.fields, n).None? <==>
                             Find(root.fields, n).None? && !SameName(name, n)
  {
    match root
    case JObject(fields) =>
      if Find(fields, name).Some? then Failure(JsonNameDuplication)
      else
        assert forall n :: Find(fields + [Field(name, value)], n).None? <==>
                           Find(fields, n).None? && !SameName(name, n) by {
          forall n
            ensures Find(fields + [Field(name, value)], n).None? <==>
                    Find(fields, n).None? && !SameName(name, n)
          {
            FindConcat(fields, [Field(name, value)], n);
            assert [Field(name, value)][1..] == [];
          }
        }
        Success(JObject(fields + [Field(name, value)]))
    case _ => Failure(InvalidParameter)
  }

  function AddString(root: Json, name: string, value: Option<string>): Result<Json> {
    if value.None? then Failure(TriggeredWithNull) else AddMember(root, name, JString(value.value))
  }

  method JsonFromDataPoint(p: DataPoint) returns (r: Result<Json>)
    ensures r == if ValidDataPoint(p) then Success(JObject(DataPointFields(p))) else Failure(TriggeredWithNull)
  {
    DataPointNames();
    var json := JObject([]);
    json :- AddString(json, FIELD_ID, p.id);
    json :- AddString(json, FIELD_NAME, p.name);
    if p.description.Some? {
      json :- AddString(json, FIELD_DESCRIPTION, p.description);
    }
    assert json.fields == [Text(FIELD_ID, p.id.value), Text(FIELD_NAME, p.name.value)]
                          + OptionalText(FIELD_DESCRIPTION, p.description);
    json :- AddString(json, FIELD_TYPE, p.kind);
    json :- AddString(json, FIELD_UNIT, p.unit);
    if p.customData.Some? {
      json :- AddMember(json, FIELD_CUSTOM_DATA, p.customData.value);
    }
    assert json.fields == DataPointFields(p);
    return Success(json);
  }

  /** The array of all points, unless one of them is incomplete. */
  function DataPointsJson(ps: seq<DataPoint>): Result<Json> {
    if forall i :: 0 <= i < |ps| ==> ValidDataPoint(ps[i])
    then Success(JArray(DataPointTrees(ps))) else Failure(TriggeredWithNull)
  }

  method DataPointArray(ps: seq<DataPoint>) returns (r: Result<Json>)
    ensures r == DataPointsJson(ps)
  {
    var elements := [];
    for index := 0 to |ps|
      invariant forall i :: 0 <= i < index ==> ValidDataPoint(ps[i])
      invariant elements == DataPointTrees(ps[..index])
    {
      assert ps[..index + 1][..index] == ps[..index];
      var json :- JsonFromDataPoint(ps[index]);
      elements := elements + [json];
    }
    assert ps[..|ps|] == ps;
    return Success(JArray(elements));
  }

  method JsonFromDataSource(s: DataSource) returns (r: Result<Json>)
    ensures r == if CompleteDataSource(s) then Success(JObject(DataSourceFields(s))) else Failure(TriggeredWithNull)
  {
    DataSourceNames();
    var json := JObject([]);
    json :- AddString(json, FIELD_NAME, s.name);
    if s.description.Some? {
      json :- AddString(json, FIELD_DESCRIPTION, s.description);
    }
    var elements :- DataPointArray(s.dataPoints);
    json :- AddMember(json, FIELD_DATA_POINTS, elements);
    if s.customData.Some? {
      json :- AddMember(json, FIELD_CUSTOM_DATA, s.customData.value);
    }
    assert json.fields == DataSourceFields(s);
    return Success(json);
  }

  /** The array of all sources, unless one of them is incomplete. */
  function DataSourcesJson(ss: seq<DataSource>): Result<Json> {
    if forall i :: 0 <= i < |ss| ==> CompleteDataSource(ss[i])
    then Success(JArray(DataSourceTrees(ss))) else Failure(TriggeredWithNull)
  }

  method DataSourceArray(ss: seq<DataSource>) returns (r: Result<Json>)
    ensures r == DataSourcesJson(ss)
  {
    var elements := [];
    for index := 0 to |ss|
      invariant forall i :: 0 <= i < index ==> CompleteDataSource(ss[i])
      invariant elements == DataSourceTrees(ss[..index])
    {
      assert ss[..index + 1][..index] == ss[..index];
      var json :- JsonFromDataSource(ss[index]);
      elements := elements + [json];
    }
    assert ss[..|ss|] == ss;
    return Success(JArray(elements));
  }

  method JsonFromConfiguration(c: Configuration) returns (r: Result<Json>)
    ensures r == if CompleteConfiguration(c) then Success(ConfigurationTree(c)) else Failure(TriggeredWithNull)
  {
    OtherNames();
    var json := JObject([]);
    json :- AddString(json, FIELD_CONFIGURATION_ID, c.id);
    var elements :- DataSourceArray(c.dataSources);
    json :- AddMember(json, FIELD_DATA_SOURCES, elements);
    assert json.fields == [Text(FIELD_CONFIGURATION_ID, c.id.value), Field(FIELD_DATA_SOURCES, elements)];
    return Success(json);
  }

  method JsonFromTimeseriesValue(v: TimeseriesValue) returns (r: Result<Json>)
    ensures r == if ValidValue(v) then Success(ValueTree(v)) else Failure(TriggeredWithNull)
  {
    OtherNames();
    var json :- AddString(JObject([]), FIELD_DATA_POINT_ID, v.dataPointId);
    json :- AddString(json, FIELD_VALUE, v.value);
    json :- AddString(json, FIELD_QUALITY_CODE, v.qualityCode);
    assert json.fields == ValueTree(v).fields;
    return Success(json);
  }

  method ValueArray(vs: seq<TimeseriesValue>) returns (r: Result<Json>)
    ensures r == if forall i :: 0 <= i < |vs| ==> ValidValue(vs[i])
                 then Success(JArray(ValueTrees(vs))) else Failure(TriggeredWithNull)
  {
    var elements := [];
    for index := 0 to |vs|
      invariant forall i :: 0 <= i < index ==> ValidValue(vs[i])
      invariant elements == ValueTrees(vs[..index])
    {
      assert vs[..index + 1][..index] == vs[..index];
      var json :- JsonFromTimeseriesValue(vs[index]);
      elements := elements + [json];
    }
    assert vs[..|vs|] == vs;
    return Success(JArray(elements));
  }

  method JsonFromValueList(l: ValueList) returns (r: Result<Json>)
    ensures r == if CompleteValueList(l) then Success(ValueListTree(l)) else Failure(TriggeredWithNull)
  {
    OtherNames();
    var json :- AddString(JObject([]), FIELD_TIMESTAMP, Some(l.timestamp));
    var elements :- ValueArray(l.values);
    json :- AddMember(json, FIELD_VALUES, elements);
    assert json.fields == [Text(FIELD_TIMESTAMP, l.timestamp), Field(FIELD_VALUES, elements)];
    return Success(json);
  }

  /** The array of all value lists, unless one of them is incomplete. */
  function TimeseriesJson(lists: seq<ValueList>): Result<Json> {
    if forall i :: 0 <= i < |lists| ==> CompleteValueList(lists[i])
    then Success(JArray(ValueListTrees(lists))) else Failure(TriggeredWithNull)
  }

  method JsonFromTimeseries(lists: seq<ValueList>) returns (r: Result<Json>)
    ensures r == TimeseriesJson(lists)
  {
    var elements := [];
    for index := 0 to |lists|
      invariant forall i :: 0 <= i < index ==> CompleteValueList(lists[i])
      invariant elements == ValueListTrees(lists[..index])
    {
      assert lists[..index + 1][..index] == lists[..index];
      var json :- JsonFromValueList(lists[index]);
      elements := elements + [json];
    }
    assert lists[..|lists|] == lists;
    return Success(JArray(elements));
  }

  /** The members up to the description; none of the later names is taken yet. */
  method EventHead(e: Item) returns (r: Result<Json>)
    requires e.Event?
    ensures r == Success(JObject(EventHeadFields(e)))
    ensures Find(EventHeadFields(e), FIELD_TYPE).None?
    ensures Find(EventHeadFields(e), FIELD_VERSION).None?
    ensures Find(EventHeadFields(e), FIELD_DETAILS).None?
  {
    EventNames();
    var json :- AddString(JObject([]), FIELD_ID, Some(e.id));
    if e.correlationId.Some? && e.correlationId.value != "" {
      json :- AddString(json, FIELD_CORRELATION_ID, e.correlationId);
    }
    assert json.fields == [Text(FIELD_ID, e.id)] + NonEmptyText(FIELD_CORRELATION_ID, e.correlationId);
    json :- AddString(json, FIELD_TIMESTAMP, Some(e.timestamp));
    json :- AddMember(json, FIELD_SEVERITY, JNumber(Decimal(e.severity)));
    if e.description.Some? && e.description.value != "" {
      json :- AddString(json, FIELD_DESCRIPTION, e.description);
    }
    assert json.fields == EventHeadFields(e);
    return Success(json);
  }

  /** The step that creates the details overwrites whatever error the steps before it left. */
  method JsonFromEvent(e: Item) returns (r: Result<Json>)
    requires e.Event?
    ensures r == Success(JArray([JObject(EventFields(e))]))
  {
    EventNames();
    var json :- EventHead(e);
    var next := AddString(json, FIELD_TYPE, e.kind);
    if next.Success? {
      json := next.value;
      next := AddString(json, FIELD_VERSION, e.version);
      if next.Success? {
        json := next.value;
      }
    }
    var details := JObject([]);
    if next.Success? && e.details.Some? {
      details := e.details.value;
    }
    json :- AddMember(json, FIELD_DETAILS, details);
    assert json.fields == EventFields(e);
    return Success(JArray([json]));
  }

  method JsonFromItemPayload(item: Item) returns (r: Result<Json>)
    requires Valid(item)
    ensures r == if HasCallbackPayload(item) then Failure(Fail) else Success(PayloadTree(item))
  {
    match item
    case Timeseries(_, lists) => r := JsonFromTimeseries(lists);
    case Event(_, _, _, _, _, _, _, _, _) => r := JsonFromEvent(item);
    case DataSourceConfiguration(c) => r := JsonFromConfiguration(c);
    case _ => r := Failure(Fail);
  }

  method FileDetails(file: Item) returns (r: Result<Json>)
    requires file.File? && Valid(file)
    ensures r == Success(MetaDetails(file)[0].value)
  {
    OtherNames();
    var json :- AddString(JObject([]), FIELD_FILE_NAME, file.remoteName);
    json :- AddString(json, FIELD_CREATION_DATE, Some(file.local.value.creationDate));
    if file.fileType.Some? {
      json :- AddString(json, FIELD_FILE_TYPE, file.fileType);
    }
    assert json.fields == MetaDetails(file)[0].value.fields;
    return Success(json);
  }

  method MetaPayload(item: Item) returns (r: Result<Json>)
    requires Valid(item)
    ensures r == Success(JObject(MetaPayloadFields(item)))
  {
    OtherNames();
    var json :- AddString(JObject([]), FIELD_TYPE, Some(MetaPayloadType(item)));
    json :- AddString(json, FIELD_VERSION, Some(MetaPayloadVersion(item)));
    if item.Timeseries? {
      var details :- AddString(JObject([]), FIELD_CONFIGURATION_ID, item.configurationId);
      assert details.fields == [Text(FIELD_CONFIGURATION_ID, item.configurationId.value)];
      json :- AddMember(json, FIELD_DETAILS, details);
    } else if item.File? {
      var details :- FileDetails(item);
      json :- AddMember(json, FIELD_DETAILS, details);
    } else if item.CustomData? && item.details.Some? {
      json :- AddMember(json, FIELD_DETAILS, item.details.value);
    }
    assert json.fields == MetaPayloadFields(item);
    return Success(json);
  }

  method JsonFromItemMeta(item: Item) returns (r: Result<Json>)
    requires Valid(item)
    ensures r == Success(MetaTree(item))
  {
    OtherNames();
    var root :- AddString(JObject([]), FIELD_TYPE, Some("item"));
    root :- AddString(root, FIELD_VERSION, Some("1.0"));
    var payload :- MetaPayload(item);
    root :- AddMember(root, FIELD_PAYLOAD, payload);
    assert root.fields == MetaTree(item).fields;
    return Success(root);
  }
}
