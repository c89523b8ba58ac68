/** The items that can be exchanged: plain values with the fields of the C structures.
    An Option field is a pointer that may still be null. */
module Items {
  import opened Core
  import opened Json

  const TIMESTAMP_LENGTH := 25
  const NULL_CHAR_SIZE := 1

  datatype TimeseriesValue =
    TimeseriesValue(dataPointId: Option<string>, qualityCode: Option<string>, value: Option<string>)

  datatype ValueList = ValueList(timestamp: string, values: seq<TimeseriesValue>)

  datatype DataPoint = DataPoint(
    id: Option<string>,
    name: Option<string>,
    description: Option<string>,
    kind: Option<string>,
    unit: Option<string>,
    customData: Option<Json>)

  datatype DataSource = DataSource(
    name: Option<string>,
    description: Option<string>,
    dataPoints: seq<DataPoint>,
    customData: Option<Json>)

  datatype Configuration = Configuration(id: Option<string>, dataSources: seq<DataSource>)

  datatype EventVersion = EventVersion1 | EventVersion2

  /** What setting the local path of a file stores: its creation date and what it holds. */
  datatype LocalFile = LocalFile(creationDate: string, content: string)

  datatype Item =
    | Timeseries(configurationId: Option<string>, valueLists: seq<ValueList>)
    | Event(
        metaVersion: EventVersion,
        id: string,
        correlationId: Option<string>,
        timestamp: string,
        severity: nat,
        description: Option<string>,
        kind: Option<string>,
        version: Option<string>,
        details: Option<Json>)
    | File(remoteName: Option<string>, fileType: Option<string>, local: Option<LocalFile>)
    | CustomData(
        dataVersion: string,
        contentType: Option<string>,
        kind: Option<string>,
        buffer: Option<string>,
        details: Option<Json>)
    | DataSourceConfiguration(configuration: Configuration)

  predicate IsTimestamp(s: string) {
    |s| == TIMESTAMP_LENGTH - NULL_CHAR_SIZE
  }

  /** The severities an event of the given version can be set to. */
  predicate IsSeverity(version: EventVersion, severity: nat) {
    match version
    case EventVersion1 => severity in {1, 2, 3}
    case EventVersion2 => severity in {20, 30, 40}
  }

  predicate ValidValue(v: TimeseriesValue) {
    v.dataPointId.Some? && v.qualityCode.Some? && v.value.Some?
  }

  /** All mandatory strings are set. */
  predicate CompleteValueList(l: ValueList) {
    forall i :: 0 <= i < |l.values| ==> ValidValue(l.values[i])
  }

  predicate ValidValueList(l: ValueList) {
    IsTimestamp(l.timestamp) && l.values != [] && CompleteValueList(l)
  }

  predicate ValidDataPoint(p: DataPoint) {
    p.id.Some? && p.name.Some? && p.kind.Some? && p.unit.Some?
  }

  predicate CompleteDataSource(s: DataSource) {
    s.name.Some? && forall i :: 0 <= i < |s.dataPoints| ==> ValidDataPoint(s.dataPoints[i])
  }

  predicate ValidDataSource(s: DataSource) {
    s.dataPoints != [] && CompleteDataSource(s)
  }

  predicate CompleteConfiguration(c: Configuration) {
    c.id.Some? && forall i :: 0 <= i < |c.dataSources| ==> CompleteDataSource(c.dataSources[i])
  }

  predicate ValidConfiguration(c: Configuration) {
    && c.dataSources != []
    && CompleteConfiguration(c)
    && forall i :: 0 <= i < |c.dataSources| ==> ValidDataSource(c.dataSources[i])
  }

  /** The checks an item has to pass before it enters a store or is exchanged. */
  predicate Valid(item: Item) {
    match item
    case Timeseries(id, lists) =>
      id.Some? && lists != [] && forall i :: 0 <= i < |lists| ==> ValidValueList(lists[i])
    case Event(_, _, _, timestamp, _, _, kind, version, _) =>
      IsTimestamp(timestamp) && kind.Some? && version.Some?
    case File(remoteName, _, local) =>
      local.Some? && remoteName.Some?
    case CustomData(_, contentType, kind, buffer, _) =>
      buffer.Some? && contentType.Some? && kind.Some? && buffer.value != ""
    case DataSourceConfiguration(c) => ValidConfiguration(c)
  }

  /** What the initializers and setters establish: severities come from the table of the event
      version, and the creation date of a file is a formatted timestamp. */
  predicate Constructed(item: Item) {
    && (item.Event? ==> IsSeverity(item.metaVersion, item.severity))
    && (item.File? && item.local.Some? ==> IsTimestamp(item.local.value.creationDate))
  }

  predicate Sendable(item: Item) {
    Valid(item) && Constructed(item)
  }

  predicate HasCallbackPayload(item: Item) {
    item.File? || item.CustomData?
  }

  /** The bytes a payload callback reads from: the file, or the buffer of the custom data. */
  function Content(item: Item): string
    requires Sendable(item) && HasCallbackPayload(item)
  {
    if item.File? then item.local.value.content else item.buffer.value
  }

  function ContentType(item: Item): string
    requires Sendable(item)
  {
    match item
    case File(_, _, _) => "application/octet-stream"
    case CustomData(_, contentType, _, _, _) => contentType.value
    case _ => "application/json"
  }

  /** What each kind of item needs, in plain terms. */
  lemma ValidityIs(item: Item)
    ensures item.Timeseries? ==>
              (Valid(item)
               <==> item.configurationId != None && item.valueLists != []
                    && forall i :: 0 <= i < |item.valueLists| ==>
                         && |item.valueLists[i].timestamp| == 24 && item.valueLists[i].values != []
                         && forall k :: 0 <= k < |item.valueLists[i].values| ==>
                              var v := item.valueLists[i].values[k];
                              v.dataPointId != None && v.value != None && v.qualityCode != None)
    ensures item.Event? ==> (Valid(item) <==> |item.timestamp| == 24 && item.kind != None && item.version != None)
    ensures item.File? ==> (Valid(item) <==> item.remoteName != None && item.local != None)
    ensures item.CustomData? ==>
              (Valid(item)
               <==> item.contentType != None && item.kind != None && item.buffer != None && item.buffer != Some(""))
  {
  }

  lemma ConfigurationValidityIs(c: Configuration)
    ensures Valid(DataSourceConfiguration(c))
            <==> c.id != None && c.dataSources != []
                 && forall i :: 0 <= i < |c.dataSources| ==>
                      && c.dataSources[i].name != None && c.dataSources[i].dataPoints != []
                      && forall k :: 0 <= k < |c.dataSources[i].dataPoints| ==>
                           var p := c.dataSources[i].dataPoints[k];
                           p.id != None && p.name != None && p.kind != None && p.unit != None
  {
  }
}
