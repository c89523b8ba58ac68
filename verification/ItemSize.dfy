/** Sizes of items computed without printing them, and how they relate to the printed text. */
module ItemSize {
  import opened Core
  import opened Json
  import opened Items
  import opened ItemJson

  const DOUBLE_BRACE_SIZE := 2
  const DELIMITER_SIZE := 1

  // The lengths of the skeletons that remain when all variable parts are taken out.
  const ITEM_META_BASE_SIZE: nat := 42
  const TIMESERIES_META_BASE_SIZE: nat := 75
  const TIMESERIES_VALUE_BASE_SIZE: nat := 46
  const VALUE_LIST_BASE_SIZE: nat := 28 + TIMESTAMP_LENGTH - NULL_CHAR_SIZE
  const EVENT_META_BASE_SIZE: nat := 37
  const EVENT_PAYLOAD_BASE_SIZE: nat := 70 + TIMESTAMP_LENGTH - NULL_CHAR_SIZE
  const EVENT_CORRELATION_ID_SIZE: nat := 19
  const EVENT_DESCRIPTION_SIZE: nat := 17
  const FILE_META_BASE_SIZE: nat := 72 + TIMESTAMP_LENGTH - NULL_CHAR_SIZE
  const FILE_META_FILE_TYPE_SIZE: nat := 14
  const CUSTOM_DATA_META_BASE_SIZE: nat := 24
  const CUSTOM_DATA_META_DETAILS_SIZE: nat := 11
  const CONFIGURATION_META_BASE_SIZE: nat := 47
  const CONFIGURATION_PAYLOAD_BASE_SIZE: nat := 39
  const DATA_SOURCE_BASE_SIZE: nat := 44
  const DATA_POINT_BASE_SIZE: nat := 56
  const CUSTOM_DATA_FIELD_SIZE: nat := 14

  /** The constants are the lengths of the printed skeletons. */
  lemma BaseSizes1()
    ensures ITEM_META_BASE_SIZE == |"{\"type\":\"item\",\"version\":\"1.0\",\"payload\":}"|
    ensures TIMESERIES_META_BASE_SIZE
            == |"{\"type\":\"standardTimeSeries\",\"version\":\"\",\"details\":{\"configurationId\":\"\"}}"|
    ensures TIMESERIES_VALUE_BASE_SIZE == |"{\"dataPointId\":\"\",\"value\":\"\",\"qualityCode\":\"\"}"|
    ensures VALUE_LIST_BASE_SIZE == |"{\"timestamp\":\"\",\"values\":[]}"| + TIMESTAMP_LENGTH - NULL_CHAR_SIZE
    ensures EVENT_META_BASE_SIZE == |"{\"type\":\"businessEvent\",\"version\":\"\"}"|
  {
  }

  /** The constants are the lengths of the printed skeletons, continued. */
  lemma BaseSizes2()
    ensures EVENT_PAYLOAD_BASE_SIZE
            == |"{\"id\":\"\",\"timestamp\":\"\",\"severity\":,\"type\":\"\",\"version\":\"\",\"details\":}"| + TIMESTAMP_LENGTH - NULL_CHAR_SIZE
    ensures EVENT_CORRELATION_ID_SIZE == |",\"correlationId\":\"\""|
    ensures EVENT_DESCRIPTION_SIZE == |",\"description\":\"\""|
    ensures FILE_META_BASE_SIZE
            == |"{\"type\":\"file\",\"version\":\"\",\"details\":{\"fileName\":\"\",\"creationDate\":\"\"}}"| + TIMESTAMP_LENGTH - NULL_CHAR_SIZE
    ensures FILE_META_FILE_TYPE_SIZE == |",\"fileType\":\"\""|
  {
  }

  /** The constants are the lengths of the printed skeletons, continued. */
  lemma BaseSizes3()
    ensures CUSTOM_DATA_META_BASE_SIZE == |"{\"type\":\"\",\"version\":\"\"}"|
    ensures CUSTOM_DATA_META_DETAILS_SIZE == |",\"details\":"|
    ensures CONFIGURATION_META_BASE_SIZE == |"{\"type\":\"dataSourceConfiguration\",\"version\":\"\"}"|
    ensures CONFIGURATION_PAYLOAD_BASE_SIZE == |"{\"configurationId\":\"\",\"dataSources\":[]}"|
    ensures DATA_SOURCE_BASE_SIZE == |"{\"name\":\"\",\"description\":\"\",\"dataPoints\":[]}"|
    ensures DATA_POINT_BASE_SIZE == |"{\"id\":\"\",\"name\":\"\",\"description\":\"\",\"type\":\"\",\"unit\":\"\"}"|
    ensures CUSTOM_DATA_FIELD_SIZE == |",\"customData\":"|
  {
  }

  /** String length; a null string counts as empty. */
  function Len(s: Option<string>): nat {
    |s.GetOr("")|
  }

  // ----- the estimates -----

  function ValueEstimate(v: TimeseriesValue): nat {
    TIMESERIES_VALUE_BASE_SIZE + Len(v.dataPointId) + Len(v.qualityCode) + Len(v.value)
  }

  function ValuesEstimate(vs: seq<TimeseriesValue>): nat {
    if vs == [] then 0 else ValuesEstimate(vs[..|vs| - 1]) + ValueEstimate(vs[|vs| - 1])
  }

  function ValueListEstimate(l: ValueList): nat
    requires ValidValueList(l)
  {
    VALUE_LIST_BASE_SIZE + ValuesEstimate(l.values) + (|l.values| - 1) * DELIMITER_SIZE
  }

  function ValueListsEstimate(ls: seq<ValueList>): nat
    requires forall i :: 0 <= i < |ls| ==> ValidValueList(ls[i])
  {
    if ls == [] then 0 else ValueListsEstimate(ls[..|ls| - 1]) + ValueListEstimate(ls[|ls| - 1])
  }

  function CustomFieldEstimate(customData: Option<Json>): nat {
    if customData.Some? then CUSTOM_DATA_FIELD_SIZE + |Print(customData.value)| else 0
  }

  function DataPointEstimate(p: DataPoint): nat {
    DATA_POINT_BASE_SIZE + Len(p.id) + Len(p.name) + Len(p.description) + Len(p.kind) + Len(p.unit)
    + CustomFieldEstimate(p.customData)
  }

  function DataPointsEstimate(ps: seq<DataPoint>): nat {
    if ps == [] then 0 else DataPointsEstimate(ps[..|ps| - 1]) + DataPointEstimate(ps[|ps| - 1])
  }

  function DataSourceEstimate(s: DataSource): nat
    requires ValidDataSource(s)
  {
    DATA_SOURCE_BASE_SIZE + Len(s.name) + Len(s.description)
    + DataPointsEstimate(s.dataPoints) + (|s.dataPoints| - 1) * DELIMITER_SIZE
    + CustomFieldEstimate(s.customData)
  }

  function DataSourcesEstimate(ss: seq<DataSource>): nat
    requires forall i :: 0 <= i < |ss| ==> ValidDataSource(ss[i])
  {
    if ss == [] then 0 else DataSourcesEstimate(ss[..|ss| - 1]) + DataSourceEstimate(ss[|ss| - 1])
  }

  function EventEstimate(e: Item): nat
    requires e.Event?
  {
    EVENT_PAYLOAD_BASE_SIZE + DOUBLE_BRACE_SIZE + |e.id| + Len(e.kind) + Len(e.version)
    + (if e.metaVersion.EventVersion1? then 1 else 2)
    + (if e.correlationId.Some? then EVENT_CORRELATION_ID_SIZE + Len(e.correlationId) else 0)
    + (if e.description.Some? then EVENT_DESCRIPTION_SIZE + Len(e.description) else 0)
    + (if e.details.Some? then |Print(e.details.value)| else DOUBLE_BRACE_SIZE)
  }

  function PayloadEstimate(item: Item): nat
    requires Sendable(item)
  {
    match item
    case Timeseries(_, lists) =>
      DOUBLE_BRACE_SIZE + ValueListsEstimate(lists) + (|lists| - 1) * DELIMITER_SIZE
    case Event(_, _, _, _, _, _, _, _, _) => EventEstimate(item)
    case File(_, _, _) => |Content(item)|
    case CustomData(_, _, _, _, _) => |Content(item)|
    case DataSourceConfiguration(c) =>
      CONFIGURATION_PAYLOAD_BASE_SIZE + Len(c.id)
      + DataSourcesEstimate(c.dataSources) + (|c.dataSources| - 1) * DELIMITER_SIZE
  }

  function MetaEstimate(item: Item): nat
    requires Sendable(item)
  {
    ITEM_META_BASE_SIZE + |MetaPayloadVersion(item)|
    + match item
      case Timeseries(id, _) => TIMESERIES_META_BASE_SIZE + Len(id)
      case Event(_, _, _, _, _, _, _, _, _) => EVENT_META_BASE_SIZE
      case File(remoteName, fileType, _) =>
        FILE_META_BASE_SIZE + Len(remoteName)
        + (if fileType.Some? then FILE_META_FILE_TYPE_SIZE + Len(fileType) else 0)
      case CustomData(_, _, kind, _, details) =>
        CUSTOM_DATA_META_BASE_SIZE + Len(kind)
        + (if details.Some? then CUSTOM_DATA_META_DETAILS_SIZE + |Print(details.value)| else 0)
      case DataSourceConfiguration(_) => CONFIGURATION_META_BASE_SIZE
  }

  /** What `json_get_item_size` returns. */
  function ItemEstimate(item: Item): nat
    requires Sendable(item)
  {
    MetaEstimate(item) + PayloadEstimate(item)
  }

  // ----- growth: what escaping adds to the text -----

  function Grow(s: Option<string>): nat {
    Growth(s.GetOr(""))
  }

  function ValueGrowth(v: TimeseriesValue): nat {
    Grow(v.dataPointId) + Grow(v.qualityCode) + Grow(v.value)
  }

  function ValuesGrowth(vs: seq<TimeseriesValue>): nat {
    if vs == [] then 0 else ValuesGrowth(vs[..|vs| - 1]) + ValueGrowth(vs[|vs| - 1])
  }

  function ValueListsGrowth(ls: seq<ValueList>): nat {
    if ls == [] then 0
    else ValueListsGrowth(ls[..|ls| - 1]) + Growth(ls[|ls| - 1].timestamp) + ValuesGrowth(ls[|ls| - 1].values)
  }

  function DataPointGrowth(p: DataPoint): nat {
    Grow(p.id) + Grow(p.name) + Grow(p.description) + Grow(p.kind) + Grow(p.unit)
  }

  function DataPointsGrowth(ps: seq<DataPoint>): nat {
    if ps == [] then 0 else DataPointsGrowth(ps[..|ps| - 1]) + DataPointGrowth(ps[|ps| - 1])
  }

  function DataSourceGrowth(s: DataSource): nat {
    Grow(s.name) + Grow(s.description) + DataPointsGrowth(s.dataPoints)
  }

  function DataSourcesGrowth(ss: seq<DataSource>): nat {
    if ss == [] then 0 else DataSourcesGrowth(ss[..|ss| - 1]) + DataSourceGrowth(ss[|ss| - 1])
  }

  function EventGrowth(e: Item): nat
    requires e.Event?
  {
    Growth(e.id) + Grow(e.correlationId) + Growth(e.timestamp) + Grow(e.description) + Grow(e.kind)
    + Grow(e.version)
  }

  function MetaGrowth(item: Item): nat
    requires Sendable(item)
  {
    match item
    case Timeseries(id, _) => Grow(id)
    case File(remoteName, fileType, local) =>
      Grow(remoteName) + Grow(fileType) + Growth(local.value.creationDate)
    case CustomData(version, _, kind, _, _) => Growth(version) + Grow(kind)
    case _ => 0
  }

  function PayloadGrowth(item: Item): nat {
    match item
    case Timeseries(_, lists) => ValueListsGrowth(lists)
    case Event(_, _, _, _, _, _, _, _, _) => EventGrowth(item)
    case DataSourceConfiguration(c) => Grow(c.id) + DataSourcesGrowth(c.dataSources)
    case _ => 0
  }

  // ----- slack: what the estimate counts for optional parts that are not printed -----

  function DescriptionSlack(description: Option<string>): nat {
    if description.Some? then 0 else EVENT_DESCRIPTION_SIZE
  }

  function DataPointsSlack(ps: seq<DataPoint>): nat {
    if ps == [] then 0 else DataPointsSlack(ps[..|ps| - 1]) + DescriptionSlack(ps[|ps| - 1].description)
  }

  function DataSourcesSlack(ss: seq<DataSource>): nat {
    if ss == [] then 0
    else
      DataSourcesSlack(ss[..|ss| - 1])
      + DescriptionSlack(ss[|ss| - 1].description) + DataPointsSlack(ss[|ss| - 1].dataPoints)
  }

  function EventSlack(e: Item): nat
    requires e.Event?
  {
    (if e.correlationId == Some("") then EVENT_CORRELATION_ID_SIZE else 0)
    + (if e.description == Some("") then EVENT_DESCRIPTION_SIZE else 0)
  }

  function ItemSlack(item: Item): nat {
    match item
    case Event(_, _, _, _, _, _, _, _, _) => EventSlack(item)
    case DataSourceConfiguration(c) => DataSourcesSlack(c.dataSources)
    case _ => 0
  }

  /** How many points, or sources, have no description. */
  function UndescribedPoints(ps: seq<DataPoint>): nat {
    if ps == [] then 0 else UndescribedPoints(ps[..|ps| - 1]) + if ps[|ps| - 1].description == None then 1 else 0
  }

  function Undescribed(ss: seq<DataSource>): nat {
    if ss == [] then 0
    else
      Undescribed(ss[..|ss| - 1]) + UndescribedPoints(ss[|ss| - 1].dataPoints)
      + if ss[|ss| - 1].description == None then 1 else 0
  }

  lemma {:induction false} PointsSlackIs(ps: seq<DataPoint>)
    ensures DataPointsSlack(ps) == 17 * UndescribedPoints(ps)
  {
    if ps != [] {
      PointsSlackIs(ps[..|ps| - 1]);
    }
  }

  lemma {:induction false} SourcesSlackIs(ss: seq<DataSource>)
    ensures DataSourcesSlack(ss) == 17 * Undescribed(ss)
  {
    if ss != [] {
      SourcesSlackIs(ss[..|ss| - 1]);
      PointsSlackIs(ss[|ss| - 1].dataPoints);
    }
  }

  /** What the estimate counts without it being printed, in characters: the member of every missing
      description of a configuration, and those of empty event texts. */
  lemma SlackIs(item: Item)
    ensures ItemSlack(item)
            == match item
               case Event(_, _, correlationId, _, _, description, _, _, _) =>
                 (if correlationId == Some("") then 19 else 0) + (if description == Some("") then 17 else 0)
               case DataSourceConfiguration(c) => 17 * Undescribed(c.dataSources)
               case _ => 0
  {
    if item.DataSourceConfiguration? {
      SourcesSlackIs(item.configuration.dataSources);
    }
  }

  // ----- the sizing loops -----

  method SizeOfValues(vs: seq<TimeseriesValue>) returns (size: nat)
    requires vs != []
    ensures size == ValuesEstimate(vs) + |vs| - 1
  {
    size := 0;
    for index := 0 to |vs|
      invariant size == ValuesEstimate(vs[..index])
    {
      assert vs[..index + 1][..index] == vs[..index];
      size := size + ValueEstimate(vs[index]);
    }
    assert vs[..|vs|] == vs;
    size := size + (|vs| - 1) * DELIMITER_SIZE;
  }

  method SizeOfTimeseries(lists: seq<ValueList>) returns (size: nat)
    requires lists != [] && forall i :: 0 <= i < |lists| ==> ValidValueList(lists[i])
    ensures size == DOUBLE_BRACE_SIZE + ValueListsEstimate(lists) + |lists| - 1
  {
    size := DOUBLE_BRACE_SIZE;
    for index := 0 to |lists|
      invariant size == DOUBLE_BRACE_SIZE + ValueListsEstimate(lists[..index])
    {
      assert lists[..index + 1][..index] == lists[..index];
      var values := SizeOfValues(lists[index].values);
      size := size + VALUE_LIST_BASE_SIZE + values;
    }
    assert lists[..|lists|] == lists;
    size := size + (|lists| - 1) * DELIMITER_SIZE;
  }

  method SizeOfDataSource(s: DataSource) returns (size: nat)
    requires ValidDataSource(s)
    ensures size == DataSourceEstimate(s)
  {
    size := DATA_SOURCE_BASE_SIZE + Len(s.name) + Len(s.description);
    for index := 0 to |s.dataPoints|
      invariant size == DATA_SOURCE_BASE_SIZE + Len(s.name) + Len(s.description)
                        + DataPointsEstimate(s.dataPoints[..index])
    {
      assert s.dataPoints[..index + 1][..index] == s.dataPoints[..index];
      size := size + DataPointEstimate(s.dataPoints[index]);
    }
    assert s.dataPoints[..|s.dataPoints|] == s.dataPoints;
    size := size + (|s.dataPoints| - 1) * DELIMITER_SIZE;
    if s.customData.Some? {
      size := size + CUSTOM_DATA_FIELD_SIZE + |Print(s.customData.value)|;
    }
  }

  method SizeOfConfiguration(c: Configuration) returns (size: nat)
    requires ValidConfiguration(c)
    ensures size == CONFIGURATION_PAYLOAD_BASE_SIZE + Len(c.id)
                    + DataSourcesEstimate(c.dataSources) + |c.dataSources| - 1
  {
    size := CONFIGURATION_PAYLOAD_BASE_SIZE + Len(c.id);
    for index := 0 to |c.dataSources|
      invariant size == CONFIGURATION_PAYLOAD_BASE_SIZE + Len(c.id) + DataSourcesEstimate(c.dataSources[..index])
    {
      assert c.dataSources[..index + 1][..index] == c.dataSources[..index];
      var source := SizeOfDataSource(c.dataSources[index]);
      size := size + source;
    }
    assert c.dataSources[..|c.dataSources|] == c.dataSources;
    size := size + (|c.dataSources| - 1) * DELIMITER_SIZE;
  }

  method GetItemSize(item: Item) returns (size: nat)
    requires Sendable(item)
    ensures size == ItemEstimate(item)
  {
    size := MetaEstimate(item);
    match item {
      case Timeseries(_, lists) =>
        var payload := SizeOfTimeseries(lists);
        size := size + payload;
      case DataSourceConfiguration(c) =>
        var payload := SizeOfConfiguration(c);
        size := size + payload;
      case _ =>
        size := size + PayloadEstimate(item);
    }
  }

  // ----- estimate against text -----

  lemma PlainSize(name: string)
    requires Plain(name)
    ensures TextSize(name) == |name| + 2
  {
  }

  lemma PlainNames1()
    ensures Plain(FIELD_ID) && Plain(FIELD_NAME) && Plain(FIELD_DESCRIPTION)
    ensures Plain(FIELD_TYPE) && Plain(FIELD_UNIT) && Plain(FIELD_CUSTOM_DATA)
    ensures Plain(FIELD_DATA_POINTS) && Plain(FIELD_CONFIGURATION_ID)
  {
  }

  lemma PlainNames2()
    ensures Plain(FIELD_DATA_SOURCES) && Plain(FIELD_DATA_POINT_ID) && Plain(FIELD_VALUE)
    ensures Plain(FIELD_QUALITY_CODE) && Plain(FIELD_TIMESTAMP) && Plain(FIELD_VALUES)
    ensures Plain(FIELD_CORRELATION_ID)
  {
  }

  lemma PlainNames3()
    ensures Plain(FIELD_SEVERITY) && Plain(FIELD_VERSION) && Plain(FIELD_DETAILS)
    ensures Plain(FIELD_FILE_NAME) && Plain(FIELD_CREATION_DATE) && Plain(FIELD_FILE_TYPE)
    ensures Plain(FIELD_PAYLOAD)
  {
  }

  lemma SourceNameSizes()
    ensures TextSize(FIELD_ID) == 4
    ensures TextSize(FIELD_NAME) == 6
    ensures TextSize(FIELD_DESCRIPTION) == 13
    ensures TextSize(FIELD_TYPE) == 6
    ensures TextSize(FIELD_UNIT) == 6
    ensures TextSize(FIELD_CUSTOM_DATA) == 12
    ensures TextSize(FIELD_DATA_POINTS) == 12
    ensures TextSize(FIELD_CONFIGURATION_ID) == 17
    ensures TextSize(FIELD_DATA_SOURCES) == 13
  {
    PlainNames1();
    PlainNames2();
    PlainNames3();
    PlainSize(FIELD_ID);
    PlainSize(FIELD_NAME);
    PlainSize(FIELD_DESCRIPTION);
    PlainSize(FIELD_TYPE);
    PlainSize(FIELD_UNIT);
    PlainSize(FIELD_CUSTOM_DATA);
    PlainSize(FIELD_DATA_POINTS);
    PlainSize(FIELD_CONFIGURATION_ID);
    PlainSize(FIELD_DATA_SOURCES);
  }

  lemma SeriesNameSizes()
    ensures TextSize(FIELD_DATA_POINT_ID) == 13
    ensures TextSize(FIELD_VALUE) == 7
    ensures TextSize(FIELD_QUALITY_CODE) == 13
    ensures TextSize(FIELD_TIMESTAMP) == 11
    ensures TextSize(FIELD_VALUES) == 8
  {
    PlainNames1();
    PlainNames2();
    PlainNames3();
    PlainSize(FIELD_DATA_POINT_ID);
    PlainSize(FIELD_VALUE);
    PlainSize(FIELD_QUALITY_CODE);
    PlainSize(FIELD_TIMESTAMP);
    PlainSize(FIELD_VALUES);
  }

  lemma EventNameSizes()
    ensures TextSize(FIELD_ID) == 4
    ensures TextSize(FIELD_CORRELATION_ID) == 15
    ensures TextSize(FIELD_TIMESTAMP) == 11
    ensures TextSize(FIELD_SEVERITY) == 10
    ensures TextSize(FIELD_DESCRIPTION) == 13
    ensures TextSize(FIELD_TYPE) == 6
    ensures TextSize(FIELD_VERSION) == 9
    ensures TextSize(FIELD_DETAILS) == 9
  {
    PlainNames1();
    PlainNames2();
    PlainNames3();
    PlainSize(FIELD_ID);
    PlainSize(FIELD_CORRELATION_ID);
    PlainSize(FIELD_TIMESTAMP);
    PlainSize(FIELD_SEVERITY);
    PlainSize(FIELD_DESCRIPTION);
    PlainSize(FIELD_TYPE);
    PlainSize(FIELD_VERSION);
    PlainSize(FIELD_DETAILS);
  }

  lemma MetaNameSizes()
    ensures TextSize(FIELD_TYPE) == 6
    ensures TextSize(FIELD_VERSION) == 9
    ensures TextSize(FIELD_DETAILS) == 9
    ensures TextSize(FIELD_FILE_NAME) == 10
    ensures TextSize(FIELD_CREATION_DATE) == 14
    ensures TextSize(FIELD_FILE_TYPE) == 10
    ensures TextSize(FIELD_PAYLOAD) == 9
    ensures TextSize(FIELD_CONFIGURATION_ID) == 17
  {
    PlainNames1();
    PlainNames2();
    PlainNames3();
    PlainSize(FIELD_TYPE);
    PlainSize(FIELD_VERSION);
    PlainSize(FIELD_DETAILS);
    PlainSize(FIELD_FILE_NAME);
    PlainSize(FIELD_CREATION_DATE);
    PlainSize(FIELD_FILE_TYPE);
    PlainSize(FIELD_PAYLOAD);
    PlainSize(FIELD_CONFIGURATION_ID);
  }

  lemma FieldsSizeOf1(a: Field)
    ensures FieldsSize([a]) == FieldSize(a) + 1
  {
    assert [a][1..] == [];
  }

  lemma FieldsSizeOf2(a: Field, b: Field)
    ensures FieldsSize([a, b]) == FieldSize(a) + FieldSize(b) + 2
  {
    FieldsSizeOf1(b);
    assert [a, b][1..] == [b];
  }

  lemma FieldsSizeOf3(a: Field, b: Field, c: Field)
    ensures FieldsSize([a, b, c]) == FieldSize(a) + FieldSize(b) + FieldSize(c) + 3
  {
    FieldsSizeOf2(b, c);
    assert [a, b, c][1..] == [b, c];
  }

  lemma OneField(name: string, value: Json)
    ensures FieldsSize([Field(name, value)]) == TextSize(name) + Size(value) + 2
  {
    FieldsSizeOf1(Field(name, value));
  }

  lemma OneText(name: string, value: string)
    ensures FieldsSize([Text(name, value)]) == TextSize(name) + |value| + Growth(value) + 4
  {
    FieldsSizeOf1(Text(name, value));
  }

  lemma TwoTexts(name1: string, value1: string, name2: string, value2: string)
    ensures FieldsSize([Text(name1, value1), Text(name2, value2)])
            == TextSize(name1) + |value1| + Growth(value1) + TextSize(name2) + |value2| + Growth(value2) + 8
  {
    FieldsSizeOf2(Text(name1, value1), Text(name2, value2));
  }

  lemma TextAndField(name1: string, value1: string, name2: string, value2: Json)
    ensures FieldsSize([Text(name1, value1), Field(name2, value2)])
            == TextSize(name1) + |value1| + Growth(value1) + TextSize(name2) + Size(value2) + 6
  {
    FieldsSizeOf2(Text(name1, value1), Field(name2, value2));
  }

  lemma ThreeTexts(name1: string, value1: string, name2: string, value2: string, name3: string, value3: string)
    ensures FieldsSize([Text(name1, value1), Text(name2, value2), Text(name3, value3)])
            == TextSize(name1) + |value1| + Growth(value1) + TextSize(name2) + |value2| + Growth(value2)
               + TextSize(name3) + |value3| + Growth(value3) + 12
  {
    FieldsSizeOf3(Text(name1, value1), Text(name2, value2), Text(name3, value3));
  }

  lemma ObjectOf3(a: seq<Field>, b: seq<Field>, c: seq<Field>)
    requires a != []
    ensures FieldsSize(a + b + c) == FieldsSize(a) + FieldsSize(b) + FieldsSize(c)
    ensures Size(JObject(a + b + c)) == FieldsSize(a) + FieldsSize(b) + FieldsSize(c) + 1
  {
    FieldsSizeConcat(a + b, c);
    FieldsSizeConcat(a, b);
  }

  lemma ObjectOf4(a: seq<Field>, b: seq<Field>, c: seq<Field>, d: seq<Field>)
    requires a != []
    ensures FieldsSize(a + b + c + d) == FieldsSize(a) + FieldsSize(b) + FieldsSize(c) + FieldsSize(d)
    ensures Size(JObject(a + b + c + d)) == FieldsSize(a) + FieldsSize(b) + FieldsSize(c) + FieldsSize(d) + 1
  {
    ObjectOf3(a, b, c);
    FieldsSizeConcat(a + b + c, d);
  }

  lemma OptionalTextSize(name: string, value: Option<string>)
    ensures FieldsSize(OptionalText(name, value))
            == if value.Some? then TextSize(name) + 4 + Len(value) + Grow(value) else 0
  {
    if value.Some? {
      FieldsSizeOf1(Text(name, value.value));
    }
  }

  lemma NonEmptyTextSize(name: string, value: Option<string>)
    ensures FieldsSize(NonEmptyText(name, value))
            == if value.Some? && value.value != "" then TextSize(name) + 4 + Len(value) + Grow(value) else 0
  {
    if value.Some? && value.value != "" {
      FieldsSizeOf1(Text(name, value.value));
    }
  }

  lemma OptionalJsonSize(name: string, value: Option<Json>)
    ensures FieldsSize(OptionalJson(name, value))
            == if value.Some? then TextSize(name) + 2 + |Print(value.value)| else 0
  {
    if value.Some? {
      FieldsSizeOf1(Field(name, value.value));
      PrintSize(value.value);
    }
  }

  // --- time series

  lemma ValueSize(v: TimeseriesValue)
    requires ValidValue(v)
    ensures Size(ValueTree(v)) == ValueEstimate(v) + ValueGrowth(v)
  {
    SeriesNameSizes();
    ThreeTexts(FIELD_DATA_POINT_ID, v.dataPointId.value, FIELD_VALUE, v.value.value,
               FIELD_QUALITY_CODE, v.qualityCode.value);
  }

  lemma {:induction false} ValuesSize(vs: seq<TimeseriesValue>)
    requires forall i :: 0 <= i < |vs| ==> ValidValue(vs[i])
    ensures ItemsSize(ValueTrees(vs)) == ValuesEstimate(vs) + |vs| + ValuesGrowth(vs)
  {
    if vs != [] {
      var init, last := vs[..|vs| - 1], vs[|vs| - 1];
      ItemsSizeSnoc(ValueTrees(init), ValueTree(last));
      ValuesSize(init);
      ValueSize(last);
    }
  }

  lemma ValueListSize(l: ValueList)
    requires ValidValueList(l)
    ensures Size(ValueListTree(l)) == ValueListEstimate(l) + Growth(l.timestamp) + ValuesGrowth(l.values)
  {
    SeriesNameSizes();
    ValuesSize(l.values);
    TextAndField(FIELD_TIMESTAMP, l.timestamp, FIELD_VALUES, JArray(ValueTrees(l.values)));
  }

  lemma {:induction false} ValueListsSize(ls: seq<ValueList>)
    requires forall i :: 0 <= i < |ls| ==> ValidValueList(ls[i]) && CompleteValueList(ls[i])
    ensures ItemsSize(ValueListTrees(ls)) == ValueListsEstimate(ls) + |ls| + ValueListsGrowth(ls)
  {
    if ls != [] {
      var init, last := ls[..|ls| - 1], ls[|ls| - 1];
      ItemsSizeSnoc(ValueListTrees(init), ValueListTree(last));
      ValueListsSize(init);
      ValueListSize(last);
    }
  }

  // --- data source configurations

  lemma DataPointSize(p: DataPoint)
    requires ValidDataPoint(p)
    ensures Size(JObject(DataPointFields(p))) + DescriptionSlack(p.description)
            == DataPointEstimate(p) + DataPointGrowth(p)
  {
    SourceNameSizes();
    ObjectOf4([Text(FIELD_ID, p.id.value), Text(FIELD_NAME, p.name.value)],
              OptionalText(FIELD_DESCRIPTION, p.description),
              [Text(FIELD_TYPE, p.kind.value), Text(FIELD_UNIT, p.unit.value)],
              OptionalJson(FIELD_CUSTOM_DATA, p.customData));
    TwoTexts(FIELD_ID, p.id.value, FIELD_NAME, p.name.value);
    TwoTexts(FIELD_TYPE, p.kind.value, FIELD_UNIT, p.unit.value);
    OptionalTextSize(FIELD_DESCRIPTION, p.description);
    OptionalJsonSize(FIELD_CUSTOM_DATA, p.customData);
  }

  lemma {:induction false} DataPointsSize(ps: seq<DataPoint>)
    requires forall i :: 0 <= i < |ps| ==> ValidDataPoint(ps[i])
    ensures ItemsSize(DataPointTrees(ps)) + DataPointsSlack(ps)
            == DataPointsEstimate(ps) + |ps| + DataPointsGrowth(ps)
  {
    if ps != [] {
      var init, last := ps[..|ps| - 1], ps[|ps| - 1];
      ItemsSizeSnoc(DataPointTrees(init), JObject(DataPointFields(last)));
      DataPointsSize(init);
      DataPointSize(last);
    }
  }

  lemma DataSourceSize(s: DataSource)
    requires ValidDataSource(s)
    ensures Size(JObject(DataSourceFields(s))) + DescriptionSlack(s.description) + DataPointsSlack(s.dataPoints)
            == DataSourceEstimate(s) + DataSourceGrowth(s)
  {
    SourceNameSizes();
    var points := JArray(DataPointTrees(s.dataPoints));
    DataPointsSize(s.dataPoints);
    ObjectOf4([Text(FIELD_NAME, s.name.value)], OptionalText(FIELD_DESCRIPTION, s.description),
              [Field(FIELD_DATA_POINTS, points)], OptionalJson(FIELD_CUSTOM_DATA, s.customData));
    OneText(FIELD_NAME, s.name.value);
    OneField(FIELD_DATA_POINTS, points);
    OptionalTextSize(FIELD_DESCRIPTION, s.description);
    OptionalJsonSize(FIELD_CUSTOM_DATA, s.customData);
  }

  lemma {:induction false} DataSourcesSize(ss: seq<DataSource>)
    requires forall i :: 0 <= i < |ss| ==> ValidDataSource(ss[i]) && CompleteDataSource(ss[i])
    ensures ItemsSize(DataSourceTrees(ss)) + DataSourcesSlack(ss)
            == DataSourcesEstimate(ss) + |ss| + DataSourcesGrowth(ss)
  {
    if ss != [] {
      var init, last := ss[..|ss| - 1], ss[|ss| - 1];
      ItemsSizeSnoc(DataSourceTrees(init), JObject(DataSourceFields(last)));
      DataSourcesSize(init);
      DataSourceSize(last);
    }
  }

  lemma ConfigurationSize(c: Configuration)
    requires ValidConfiguration(c)
    ensures Size(ConfigurationTree(c)) + DataSourcesSlack(c.dataSources)
            == CONFIGURATION_PAYLOAD_BASE_SIZE + Len(c.id) + DataSourcesEstimate(c.dataSources)
               + |c.dataSources| - 1 + Grow(c.id) + DataSourcesGrowth(c.dataSources)
  {
    SourceNameSizes();
    DataSourcesSize(c.dataSources);
    TextAndField(FIELD_CONFIGURATION_ID, c.id.value, FIELD_DATA_SOURCES, JArray(DataSourceTrees(c.dataSources)));
  }

  // --- events

  lemma EventHeadSize(e: Item)
    requires e.Event? && IsTimestamp(e.timestamp)
    ensures FieldsSize(EventHeadFields(e))
            == 59 + |e.id| + Growth(e.id) + Growth(e.timestamp) + |Decimal(e.severity)|
               + (if e.correlationId.Some? && e.correlationId.value != ""
                  then EVENT_CORRELATION_ID_SIZE + Len(e.correlationId) + Grow(e.correlationId) else 0)
               + (if e.description.Some? && e.description.value != ""
                  then EVENT_DESCRIPTION_SIZE + Len(e.description) + Grow(e.description) else 0)
  {
    EventNameSizes();
    var stamp, severity := Text(FIELD_TIMESTAMP, e.timestamp), JNumber(Decimal(e.severity));
    ObjectOf4([Text(FIELD_ID, e.id)], NonEmptyText(FIELD_CORRELATION_ID, e.correlationId),
              [stamp, Field(FIELD_SEVERITY, severity)], NonEmptyText(FIELD_DESCRIPTION, e.description));
    OneText(FIELD_ID, e.id);
    TextAndField(FIELD_TIMESTAMP, e.timestamp, FIELD_SEVERITY, severity);
    NonEmptyTextSize(FIELD_CORRELATION_ID, e.correlationId);
    NonEmptyTextSize(FIELD_DESCRIPTION, e.description);
  }

  lemma SeveritySize(e: Item)
    requires e.Event? && IsSeverity(e.metaVersion, e.severity)
    ensures |Decimal(e.severity)| == if e.metaVersion.EventVersion1? then 1 else 2
  {
  }

  lemma EventObjectSize(e: Item)
    requires e.Event? && IsTimestamp(e.timestamp) && e.kind.Some? && e.version.Some?
    ensures Size(JObject(EventFields(e)))
            == FieldsSize(EventHeadFields(e)) + 35 + |e.kind.value| + Growth(e.kind.value)
               + |e.version.value| + Growth(e.version.value) + Size(e.details.GetOr(JObject([])))
  {
    EventNameSizes();
    var details := e.details.GetOr(JObject([]));
    ObjectOf3(EventHeadFields(e), [Text(FIELD_TYPE, e.kind.value), Text(FIELD_VERSION, e.version.value)],
              [Field(FIELD_DETAILS, details)]);
    TwoTexts(FIELD_TYPE, e.kind.value, FIELD_VERSION, e.version.value);
    OneField(FIELD_DETAILS, details);
  }

  lemma EventSize(e: Item)
    requires e.Event? && IsTimestamp(e.timestamp) && e.kind.Some? && e.version.Some?
    requires IsSeverity(e.metaVersion, e.severity)
    ensures Size(JObject(EventFields(e))) + 2 + EventSlack(e) == EventEstimate(e) + EventGrowth(e)
  {
    EventObjectSize(e);
    EventHeadSize(e);
    SeveritySize(e);
    PrintSize(e.details.GetOr(JObject([])));
  }

  // --- meta data

  lemma FileDetailsSize(file: Item)
    requires file.File? && Sendable(file)
    ensures Size(MetaDetails(file)[0].value)
            == 33 + Len(file.remoteName) + Grow(file.remoteName)
               + |file.local.value.creationDate| + Growth(file.local.value.creationDate)
               + if file.fileType.Some? then 14 + Len(file.fileType) + Grow(file.fileType) else 0
  {
    MetaNameSizes();
    var front := [Text(FIELD_FILE_NAME, file.remoteName.value),
                  Text(FIELD_CREATION_DATE, file.local.value.creationDate)];
    ObjectOf3(front, OptionalText(FIELD_FILE_TYPE, file.fileType), []);
    assert front + OptionalText(FIELD_FILE_TYPE, file.fileType) + []
           == front + OptionalText(FIELD_FILE_TYPE, file.fileType);
    TwoTexts(FIELD_FILE_NAME, file.remoteName.value, FIELD_CREATION_DATE, file.local.value.creationDate);
    OptionalTextSize(FIELD_FILE_TYPE, file.fileType);
  }

  function DetailsSize(item: Item): nat
    requires Sendable(item)
  {
    match item
    case Timeseries(id, _) => 33 + Len(id) + Grow(id)
    case File(remoteName, fileType, local) =>
      44 + Len(remoteName) + Grow(remoteName) + TIMESTAMP_LENGTH - NULL_CHAR_SIZE
      + Growth(local.value.creationDate)
      + if fileType.Some? then 14 + Len(fileType) + Grow(fileType) else 0
    case CustomData(_, _, _, _, details) => if details.Some? then 11 + |Print(details.value)| else 0
    case _ => 0
  }

  lemma MetaDetailsSize(item: Item)
    requires Sendable(item)
    ensures FieldsSize(MetaDetails(item)) == DetailsSize(item)
  {
    MetaNameSizes();
    match item
    case Timeseries(id, _) =>
      OneText(FIELD_CONFIGURATION_ID, id.value);
      OneField(FIELD_DETAILS, JObject([Text(FIELD_CONFIGURATION_ID, id.value)]));
    case File(_, _, _) =>
      FileDetailsSize(item);
      OneField(FIELD_DETAILS, MetaDetails(item)[0].value);
    case CustomData(_, _, _, _, details) =>
      OptionalJsonSize(FIELD_DETAILS, details);
    case _ =>
  }

  lemma PlainConstants()
    ensures Plain("item") && Plain("1.0") && Plain("2.0") && Plain("file")
    ensures Plain("standardTimeSeries") && Plain("businessEvent") && Plain("dataSourceConfiguration")
  {
  }

  lemma KindSize(item: Item)
    requires Sendable(item)
    ensures |MetaPayloadType(item)| + Growth(MetaPayloadType(item))
            == match item
               case Timeseries(_, _) => 18
               case Event(_, _, _, _, _, _, _, _, _) => 13
               case File(_, _, _) => 4
               case CustomData(_, _, kind, _, _) => Len(kind) + Grow(kind)
               case DataSourceConfiguration(_) => 23
  {
    PlainConstants();
  }

  lemma VersionSize(item: Item)
    requires !item.CustomData?
    ensures |MetaPayloadVersion(item)| == 3 && Growth(MetaPayloadVersion(item)) == 0
  {
    PlainConstants();
  }

  lemma MetaPayloadSize(item: Item)
    requires Sendable(item)
    ensures Size(JObject(MetaPayloadFields(item)))
            == 24 + |MetaPayloadType(item)| + Growth(MetaPayloadType(item))
               + |MetaPayloadVersion(item)| + Growth(MetaPayloadVersion(item)) + DetailsSize(item)
  {
    MetaNameSizes();
    MetaDetailsSize(item);
    var kind, version := MetaPayloadType(item), MetaPayloadVersion(item);
    TwoTexts(FIELD_TYPE, kind, FIELD_VERSION, version);
    ObjectOf3([Text(FIELD_TYPE, kind), Text(FIELD_VERSION, version)], MetaDetails(item), []);
    assert MetaPayloadFields(item) + [] == MetaPayloadFields(item);
  }

  lemma MetaTreeSize(item: Item)
    requires Valid(item)
    ensures Size(MetaTree(item)) == ITEM_META_BASE_SIZE + Size(JObject(MetaPayloadFields(item)))
  {
    MetaNameSizes();
    PlainConstants();
    var payload := JObject(MetaPayloadFields(item));
    TwoTexts(FIELD_TYPE, "item", FIELD_VERSION, "1.0");
    OneField(FIELD_PAYLOAD, payload);
    var front := [Text(FIELD_TYPE, "item"), Text(FIELD_VERSION, "1.0")];
    ObjectOf3(front, [Field(FIELD_PAYLOAD, payload)], []);
    assert MetaTree(item).fields == front + [Field(FIELD_PAYLOAD, payload)] + [];
  }

  /** The meta data takes exactly the estimated space plus what escaping adds. */
  lemma MetaSize(item: Item)
    requires Sendable(item)
    ensures |Print(MetaTree(item))| == MetaEstimate(item) + MetaGrowth(item)
  {
    PrintSize(MetaTree(item));
    MetaTreeSize(item);
    MetaPayloadSize(item);
    KindSize(item);
    if !item.CustomData? {
      VersionSize(item);
    }
  }

  /** The payload text and the slack together take exactly the estimated space plus what escaping
      adds.  Nested value lists, data sources and data points are all accounted for. */
  lemma PayloadSize(item: Item)
    requires Sendable(item) && !HasCallbackPayload(item)
    ensures |Print(PayloadTree(item))| + ItemSlack(item) == PayloadEstimate(item) + PayloadGrowth(item)
  {
    PrintSize(PayloadTree(item));
    match item
    case Timeseries(_, lists) =>
      assert forall i :: 0 <= i < |lists| ==> CompleteValueList(lists[i]);
      ValueListsSize(lists);
    case Event(_, _, _, _, _, _, _, _, _) =>
      EventSize(item);
      var tree := JObject(EventFields(item));
      ItemsSizeSnoc([], tree);
      assert [] + [tree] == [tree];
    case DataSourceConfiguration(c) =>
      ConfigurationSize(c);
  }
}
