/** Reading a data source configuration back from its JSON form. */
module ConfigurationParser {
  import opened Core
  import opened Json
  import opened Items
  import opened ItemJson

  // ----- what parsing yields -----

  function ParseText(json: Json, name: string): Result<Option<string>> {
    var child :- GetObjectItem(json, name);
    GetString(child)
  }

  /** A missing member is not an error here. */
  function ParseOptionalText(json: Json, name: string): Result<Option<string>> {
    var text := ParseText(json, name);
    if text == Failure(JsonNonExistingChild) then Success(None) else text
  }

  function ParseOptionalJson(json: Json, name: string): Option<Json> {
    match GetObjectItem(json, name)
    case Success(value) => Some(value)
    case Failure(_) => None
  }

  function Elements(json: Json): Result<seq<Json>> {
    match json
    case JArray(items) => Success(items)
    case _ => Failure(JsonTypeMismatch)
  }

  function ParsedDataPoint(json: Json): Result<DataPoint> {
    var id :- ParseText(json, FIELD_ID);
    var name :- ParseText(json, FIELD_NAME);
    var kind :- ParseText(json, FIELD_TYPE);
    var unit :- ParseText(json, FIELD_UNIT);
    var description :- ParseOptionalText(json, FIELD_DESCRIPTION);
    Success(DataPoint(id, name, description, kind, unit, ParseOptionalJson(json, FIELD_CUSTOM_DATA)))
  }

  function ParsedDataPoints(items: seq<Json>): Result<seq<DataPoint>> {
    if items == [] then Success([])
    else
      var front :- ParsedDataPoints(items[..|items| - 1]);
      var last :- ParsedDataPoint(items[|items| - 1]);
      Success(front + [last])
  }

  function ParsedDataSource(json: Json): Result<DataSource> {
    var name :- ParseText(json, FIELD_NAME);
    var description :- ParseOptionalText(json, FIELD_DESCRIPTION);
    var child :- GetObjectItem(json, FIELD_DATA_POINTS);
    var items :- Elements(child);
    var points :- ParsedDataPoints(items);
    Success(DataSource(name, description, points, ParseOptionalJson(json, FIELD_CUSTOM_DATA)))
  }

  function ParsedDataSources(items: seq<Json>): Result<seq<DataSource>> {
    if items == [] then Success([])
    else
      var front :- ParsedDataSources(items[..|items| - 1]);
      var last :- ParsedDataSource(items[|items| - 1]);
      Success(front + [last])
  }

  function ParsedConfiguration(json: Json): Result<Configuration> {
    var id :- ParseText(json, FIELD_CONFIGURATION_ID);
    var child :- GetObjectItem(json, FIELD_DATA_SOURCES);
    var items :- Elements(child);
    var sources :- ParsedDataSources(items);
    Success(Configuration(id, sources))
  }

  // ----- what parsing yields, in plain terms -----

  /** Whether a text member can be read: null stands for an unset text. */
  function TextCode(json: Json, name: string, optional: bool): Code {
    if !json.JObject? || Find(json.fields, name).None? then (if optional then Ok else JsonNonExistingChild)
    else
      match Find(json.fields, name).value
      case JString(_) | JNull => Ok
      case _ => JsonTypeMismatch
  }

  function TextValue(json: Json, name: string): Option<string> {
    if json.JObject? && Find(json.fields, name).Some? && Find(json.fields, name).value.JString?
    then Some(Find(json.fields, name).value.text) else None
  }

  function ArrayCode(json: Json, name: string): Code {
    if !json.JObject? || Find(json.fields, name).None? then JsonNonExistingChild
    else if !Find(json.fields, name).value.JArray? then JsonTypeMismatch
    else Ok
  }

  function FirstError(codes: seq<Code>): Code {
    if codes == [] then Ok else if codes[0] != Ok then codes[0] else FirstError(codes[1..])
  }

  lemma FirstErrorOf(first: Code, others: seq<Code>)
    ensures FirstError([first] + others) == if first != Ok then first else FirstError(others)
  {
    assert ([first] + others)[1..] == others;
  }

  /** The members of a point, by name, and the first of them that cannot be read. */
  lemma DataPointIs(json: Json)
    ensures var codes := [TextCode(json, "id", false)] + ([TextCode(json, "name", false)]
                         + ([TextCode(json, "type", false)] + ([TextCode(json, "unit", false)]
                         + ([TextCode(json, "description", true)] + []))));
            match ParsedDataPoint(json)
            case Failure(code) => code != Ok && code == FirstError(codes)
            case Success(point) =>
              && FirstError(codes) == Ok
              && point.id == TextValue(json, "id") && point.name == TextValue(json, "name")
              && point.kind == TextValue(json, "type") && point.unit == TextValue(json, "unit")
              && point.description == TextValue(json, "description")
              && point.customData == if json.JObject? then Find(json.fields, "customData") else None
  {
    var id, name, kind, unit := TextCode(json, "id", false), TextCode(json, "name", false), TextCode(json, "type", false),
                                TextCode(json, "unit", false);
    var description := TextCode(json, "description", true);
    FirstErrorOf(description, []);
    FirstErrorOf(unit, [description] + []);
    FirstErrorOf(kind, [unit] + ([description] + []));
    FirstErrorOf(name, [kind] + ([unit] + ([description] + [])));
    FirstErrorOf(id, [name] + ([kind] + ([unit] + ([description] + []))));
  }

  /** The same for a source, up to its points. */
  lemma DataSourceIs(json: Json)
    ensures match ParsedDataSource(json)
            case Failure(code) =>
              if TextCode(json, "name", false) != Ok then code == TextCode(json, "name", false)
              else if TextCode(json, "description", true) != Ok then code == TextCode(json, "description", true)
              else if ArrayCode(json, "dataPoints") != Ok then code == ArrayCode(json, "dataPoints")
              else ParsedDataPoints(Find(json.fields, "dataPoints").value.items) == Failure(code)
            case Success(source) =>
              && source.name == TextValue(json, "name") && source.description == TextValue(json, "description")
              && ArrayCode(json, "dataPoints") == Ok
              && ParsedDataPoints(Find(json.fields, "dataPoints").value.items) == Success(source.dataPoints)
              && source.customData == Find(json.fields, "customData")
  {
  }

  /** The same for a configuration, up to its sources. */
  lemma ConfigurationIs(json: Json)
    ensures match ParsedConfiguration(json)
            case Failure(code) =>
              if TextCode(json, "configurationId", false) != Ok then code == TextCode(json, "configurationId", false)
              else if ArrayCode(json, "dataSources") != Ok then code == ArrayCode(json, "dataSources")
              else ParsedDataSources(Find(json.fields, "dataSources").value.items) == Failure(code)
            case Success(c) =>
              && c.id == TextValue(json, "configurationId") && ArrayCode(json, "dataSources") == Ok
              && ParsedDataSources(Find(json.fields, "dataSources").value.items) == Success(c.dataSources)
  {
  }

  /** A list is read in order, up to the first element that cannot be read. */
  lemma {:induction false} DataPointsAre(items: seq<Json>)
    ensures match ParsedDataPoints(items)
            case Success(points) =>
              |points| == |items| && forall i :: 0 <= i < |items| ==> ParsedDataPoint(items[i]) == Success(points[i])
            case Failure(code) =>
              exists i :: 0 <= i < |items| && ParsedDataPoint(items[i]) == Failure(code)
                          && forall k :: 0 <= k < i ==> ParsedDataPoint(items[k]).Success?
  {
    if items != [] {
      var init := items[..|items| - 1];
      DataPointsAre(init);
      assert forall i :: 0 <= i < |init| ==> init[i] == items[i];
      if ParsedDataPoints(init).Failure? {
        var i :| 0 <= i < |init| && ParsedDataPoint(init[i]) == Failure(ParsedDataPoints(init).code)
                 && forall k :: 0 <= k < i ==> ParsedDataPoint(init[k]).Success?;
        assert ParsedDataPoint(items[i]) == Failure(ParsedDataPoints(items).code);
      }
    }
  }

  lemma {:induction false} DataSourcesAre(items: seq<Json>)
    ensures match ParsedDataSources(items)
            case Success(sources) =>
              |sources| == |items| && forall i :: 0 <= i < |items| ==> ParsedDataSource(items[i]) == Success(sources[i])
            case Failure(code) =>
              exists i :: 0 <= i < |items| && ParsedDataSource(items[i]) == Failure(code)
                          && forall k :: 0 <= k < i ==> ParsedDataSource(items[k]).Success?
  {
    if items != [] {
      var init := items[..|items| - 1];
      DataSourcesAre(init);
      assert forall i :: 0 <= i < |init| ==> init[i] == items[i];
      if ParsedDataSources(init).Failure? {
        var i :| 0 <= i < |init| && ParsedDataSource(init[i]) == Failure(ParsedDataSources(init).code)
                 && forall k :: 0 <= k < i ==> ParsedDataSource(init[k]).Success?;
        assert ParsedDataSource(items[i]) == Failure(ParsedDataSources(items).code);
      }
    }
  }

  // ----- the parsers -----

  method ParseDataPoint(json: Json) returns (r: Result<DataPoint>)
    ensures r == ParsedDataPoint(json)
  {
    var point := DataPoint(None, None, None, None, None, None);
    var text :- ParseText(json, FIELD_ID);
    point := point.(id := text);
    text :- ParseText(json, FIELD_NAME);
    point := point.(name := text);
    text :- ParseText(json, FIELD_TYPE);
    point := point.(kind := text);
    text :- ParseText(json, FIELD_UNIT);
    point := point.(unit := text);
    text :- ParseOptionalText(json, FIELD_DESCRIPTION);
    point := point.(description := text);
    var customData := GetObjectItem(json, FIELD_CUSTOM_DATA);
    if customData.Success? {
      point := point.(customData := Some(customData.value));
    }
    return Success(point);
  }

  /** A failing element stops the loop. */
  lemma {:induction false} ParsedDataPointsFail(items: seq<Json>, k: nat)
    requires k <= |items| && ParsedDataPoints(items[..k]).Failure?
    ensures ParsedDataPoints(items) == ParsedDataPoints(items[..k])
    decreases |items|
  {
    if k < |items| {
      assert items[..|items| - 1][..k] == items[..k];
      ParsedDataPointsFail(items[..|items| - 1], k);
    } else {
      assert items[..k] == items;
    }
  }

  lemma {:induction false} ParsedDataSourcesFail(items: seq<Json>, k: nat)
    requires k <= |items| && ParsedDataSources(items[..k]).Failure?
    ensures ParsedDataSources(items) == ParsedDataSources(items[..k])
    decreases |items|
  {
    if k < |items| {
      assert items[..|items| - 1][..k] == items[..k];
      ParsedDataSourcesFail(items[..|items| - 1], k);
    } else {
      assert items[..k] == items;
    }
  }

  method FillDataPoints(json: Json) returns (r: Result<seq<DataPoint>>)
    ensures r == if json.JArray? then ParsedDataPoints(json.items) else Failure(JsonTypeMismatch)
  {
    var items :- Elements(json);
    var points := [];
    for index := 0 to |items|
      invariant ParsedDataPoints(items[..index]) == Success(points)
    {
      var point := ParseDataPoint(items[index]);
      assert items[..index + 1][..index] == items[..index];
      if point.Failure? {
        ParsedDataPointsFail(items, index + 1);
        return Failure(point.code);
      }
      points := points + [point.value];
    }
    assert items[..|items|] == items;
    return Success(points);
  }

  method ParseDataSource(json: Json) returns (r: Result<DataSource>)
    ensures r == ParsedDataSource(json)
  {
    var source := DataSource(None, None, [], None);
    var text :- ParseText(json, FIELD_NAME);
    source := source.(name := text);
    text :- ParseOptionalText(json, FIELD_DESCRIPTION);
    source := source.(description := text);
    var customData := GetObjectItem(json, FIELD_CUSTOM_DATA);
    if customData.Success? {
      source := source.(customData := Some(customData.value));
    }
    var child :- GetObjectItem(json, FIELD_DATA_POINTS);
    var points :- FillDataPoints(child);
    source := source.(dataPoints := points);
    return Success(source);
  }

  method FillDataSources(json: Json) returns (r: Result<seq<DataSource>>)
    ensures r == if json.JArray? then ParsedDataSources(json.items) else Failure(JsonTypeMismatch)
  {
    var items :- Elements(json);
    var sources := [];
    for index := 0 to |items|
      invariant ParsedDataSources(items[..index]) == Success(sources)
    {
      var source := ParseDataSource(items[index]);
      assert items[..index + 1][..index] == items[..index];
      if source.Failure? {
        ParsedDataSourcesFail(items, index + 1);
        return Failure(source.code);
      }
      sources := sources + [source.value];
    }
    assert items[..|items|] == items;
    return Success(sources);
  }

  method ParseConfiguration(json: Json) returns (r: Result<Configuration>)
    ensures r == ParsedConfiguration(json)
  {
    var configuration := Configuration(None, []);
    var text :- ParseText(json, FIELD_CONFIGURATION_ID);
    configuration := configuration.(id := text);
    var child :- GetObjectItem(json, FIELD_DATA_SOURCES);
    var sources :- FillDataSources(child);
    configuration := configuration.(dataSources := sources);
    return Success(configuration);
  }

  // ----- round trip -----

  lemma FindFirst(f: Field, rest: seq<Field>, name: string)
    ensures Find([f] + rest, name) == if SameName(f.name, name) then Some(f.value) else Find(rest, name)
  {
    assert ([f] + rest)[1..] == rest;
  }

  lemma FindOptionalText(name: string, value: Option<string>, wanted: string)
    ensures Find(OptionalText(name, value), wanted)
            == if value.Some? && SameName(name, wanted) then Some(JString(value.value)) else None
  {
    if value.Some? {
      assert [Text(name, value.value)][1..] == [];
    }
  }

  lemma FindOptionalJson(name: string, value: Option<Json>, wanted: string)
    ensures Find(OptionalJson(name, value), wanted) == if SameName(name, wanted) then value else None
  {
    if value.Some? {
      assert [Field(name, value.value)][1..] == [];
    }
  }

  /** Looking a name up in the members of a data point, for any choice of member names. */
  lemma FindInDataPoint(n1: string, v1: string, n2: string, v2: string, n3: string, v3: Option<string>,
                        n4: string, v4: string, n5: string, v5: string, n6: string, v6: Option<Json>, name: string)
    ensures Find([Text(n1, v1), Text(n2, v2)] + OptionalText(n3, v3)
                 + [Text(n4, v4), Text(n5, v5)] + OptionalJson(n6, v6), name)
            == if SameName(n1, name) then Some(JString(v1))
               else if SameName(n2, name) then Some(JString(v2))
               else if SameName(n3, name) && v3.Some? then Some(JString(v3.value))
               else if SameName(n4, name) then Some(JString(v4))
               else if SameName(n5, name) then Some(JString(v5))
               else if SameName(n6, name) then v6
               else None
  {
    var a, b, c, d := [Text(n1, v1), Text(n2, v2)], OptionalText(n3, v3), [Text(n4, v4), Text(n5, v5)], OptionalJson(n6, v6);
    FindConcat(a + b + c, d, name);
    FindConcat(a + b, c, name);
    FindConcat(a, b, name);
    FindOptionalText(n3, v3, name);
    FindOptionalJson(n6, v6, name);
    FindFirst(a[0], [a[1]], name);
    FindFirst(a[1], [], name);
    FindFirst(c[0], [c[1]], name);
    FindFirst(c[1], [], name);
    assert a == [a[0]] + [a[1]] && [a[1]] == [a[1]] + [];
    assert c == [c[0]] + [c[1]] && [c[1]] == [c[1]] + [];
  }

  lemma SameNameSymmetric(a: string, b: string)
    ensures SameName(a, b) == SameName(b, a)
  {
  }

  lemma DataPointRoundTrip(p: DataPoint)
    requires ValidDataPoint(p)
    ensures ParsedDataPoint(JObject(DataPointFields(p))) == Success(p)
  {
    DataPointNames();
    SameNameSymmetric(FIELD_TYPE, FIELD_DESCRIPTION);
    SameNameSymmetric(FIELD_UNIT, FIELD_DESCRIPTION);
    SameNameSymmetric(FIELD_CUSTOM_DATA, FIELD_DESCRIPTION);
    forall name | name in {FIELD_ID, FIELD_NAME, FIELD_DESCRIPTION, FIELD_TYPE, FIELD_UNIT, FIELD_CUSTOM_DATA} {
      FindInDataPoint(FIELD_ID, p.id.value, FIELD_NAME, p.name.value, FIELD_DESCRIPTION, p.description,
                      FIELD_TYPE, p.kind.value, FIELD_UNIT, p.unit.value, FIELD_CUSTOM_DATA, p.customData, name);
    }
  }

  lemma {:induction false} DataPointsRoundTrip(ps: seq<DataPoint>)
    requires forall i :: 0 <= i < |ps| ==> ValidDataPoint(ps[i])
    ensures ParsedDataPoints(DataPointTrees(ps)) == Success(ps)
  {
    if ps != [] {
      var trees := DataPointTrees(ps);
      assert trees[..|trees| - 1] == DataPointTrees(ps[..|ps| - 1]);
      DataPointsRoundTrip(ps[..|ps| - 1]);
      DataPointRoundTrip(ps[|ps| - 1]);
      assert ps == ps[..|ps| - 1] + [ps[|ps| - 1]];
    }
  }

  lemma FindInDataSource(n1: string, v1: string, n2: string, v2: Option<string>, n3: string, v3: Json,
                         n4: string, v4: Option<Json>, name: string)
    ensures Find([Text(n1, v1)] + OptionalText(n2, v2) + [Field(n3, v3)] + OptionalJson(n4, v4), name)
            == if SameName(n1, name) then Some(JString(v1))
               else if SameName(n2, name) && v2.Some? then Some(JString(v2.value))
               else if SameName(n3, name) then Some(v3)
               else if SameName(n4, name) then v4
               else None
  {
    var a, b, c, d := [Text(n1, v1)], OptionalText(n2, v2), [Field(n3, v3)], OptionalJson(n4, v4);
    FindConcat(a + b + c, d, name);
    FindConcat(a + b, c, name);
    FindConcat(a, b, name);
    FindOptionalText(n2, v2, name);
    FindOptionalJson(n4, v4, name);
    FindFirst(a[0], [], name);
    FindFirst(c[0], [], name);
    assert a == [a[0]] + [] && c == [c[0]] + [];
  }

  lemma FindInSourceFields(s: DataSource, name: string)
    requires CompleteDataSource(s)
    ensures Find(DataSourceFields(s), name)
            == if SameName(FIELD_NAME, name) then Some(JString(s.name.value))
               else if SameName(FIELD_DESCRIPTION, name) && s.description.Some?
               then Some(JString(s.description.value))
               else if SameName(FIELD_DATA_POINTS, name) then Some(JArray(DataPointTrees(s.dataPoints)))
               else if SameName(FIELD_CUSTOM_DATA, name) then s.customData
               else None
  {
    FindInDataSource(FIELD_NAME, s.name.value, FIELD_DESCRIPTION, s.description,
                     FIELD_DATA_POINTS, JArray(DataPointTrees(s.dataPoints)),
                     FIELD_CUSTOM_DATA, s.customData, name);
  }

  lemma DataSourceMembers(s: DataSource)
    requires CompleteDataSource(s)
    ensures var json := JObject(DataSourceFields(s));
            && GetObjectItem(json, FIELD_NAME) == Success(JString(s.name.value))
            && ParseOptionalText(json, FIELD_DESCRIPTION) == Success(s.description)
            && GetObjectItem(json, FIELD_DATA_POINTS) == Success(JArray(DataPointTrees(s.dataPoints)))
            && ParseOptionalJson(json, FIELD_CUSTOM_DATA) == s.customData
  {
    DataSourceNames();
    SameNameSymmetric(FIELD_DATA_POINTS, FIELD_DESCRIPTION);
    SameNameSymmetric(FIELD_CUSTOM_DATA, FIELD_DESCRIPTION);
    FindInSourceFields(s, FIELD_NAME);
    FindInSourceFields(s, FIELD_DESCRIPTION);
    FindInSourceFields(s, FIELD_DATA_POINTS);
    FindInSourceFields(s, FIELD_CUSTOM_DATA);
  }

  lemma SourceFromMembers(json: Json, s: DataSource, items: seq<Json>)
    requires s.name.Some? && GetObjectItem(json, FIELD_NAME) == Success(JString(s.name.value))
    requires ParseOptionalText(json, FIELD_DESCRIPTION) == Success(s.description)
    requires GetObjectItem(json, FIELD_DATA_POINTS) == Success(JArray(items))
    requires ParsedDataPoints(items) == Success(s.dataPoints)
    requires ParseOptionalJson(json, FIELD_CUSTOM_DATA) == s.customData
    ensures ParsedDataSource(json) == Success(s)
  {
  }

  lemma DataSourceRoundTrip(s: DataSource)
    requires CompleteDataSource(s)
    ensures ParsedDataSource(JObject(DataSourceFields(s))) == Success(s)
  {
    DataSourceMembers(s);
    DataPointsRoundTrip(s.dataPoints);
    SourceFromMembers(JObject(DataSourceFields(s)), s, DataPointTrees(s.dataPoints));
  }

  lemma ParsedSourcesSnoc(trees: seq<Json>, tree: Json, ss: seq<DataSource>, s: DataSource)
    requires ParsedDataSources(trees) == Success(ss) && ParsedDataSource(tree) == Success(s)
    ensures ParsedDataSources(trees + [tree]) == Success(ss + [s])
  {
    assert (trees + [tree])[..|trees + [tree]| - 1] == trees;
  }

  lemma LastSourceRoundTrip(init: seq<DataSource>, last: DataSource, trees: seq<Json>, tree: Json)
    requires CompleteDataSource(last) && tree == JObject(DataSourceFields(last))
    requires ParsedDataSources(trees) == Success(init)
    ensures ParsedDataSources(trees + [tree]) == Success(init + [last])
  {
    DataSourceRoundTrip(last);
    ParsedSourcesSnoc(trees, tree, init, last);
  }

  lemma {:induction false} DataSourcesRoundTrip(ss: seq<DataSource>)
    requires forall i :: 0 <= i < |ss| ==> CompleteDataSource(ss[i])
    ensures ParsedDataSources(DataSourceTrees(ss)) == Success(ss)
  {
    if ss != [] {
      var init, last := ss[..|ss| - 1], ss[|ss| - 1];
      DataSourcesRoundTrip(init);
      LastSourceRoundTrip(init, last, DataSourceTrees(init), JObject(DataSourceFields(last)));
      InitAndLast(ss);
    }
  }

  lemma FindOf2(a: Field, b: Field, name: string)
    ensures Find([a, b], name)
            == if SameName(a.name, name) then Some(a.value)
               else if SameName(b.name, name) then Some(b.value)
               else None
  {
    FindFirst(a, [b], name);
    FindFirst(b, [], name);
    assert [a, b] == [a] + [b] && [b] == [b] + [];
  }

  lemma ConfigurationMembers(c: Configuration)
    requires CompleteConfiguration(c)
    ensures GetObjectItem(ConfigurationTree(c), FIELD_CONFIGURATION_ID) == Success(JString(c.id.value))
    ensures GetObjectItem(ConfigurationTree(c), FIELD_DATA_SOURCES) == Success(JArray(DataSourceTrees(c.dataSources)))
  {
    OtherNames();
    var id := Text(FIELD_CONFIGURATION_ID, c.id.value);
    var sources := Field(FIELD_DATA_SOURCES, JArray(DataSourceTrees(c.dataSources)));
    FindOf2(id, sources, FIELD_CONFIGURATION_ID);
    FindOf2(id, sources, FIELD_DATA_SOURCES);
  }

  lemma ParsedFromMembers(json: Json, id: string, items: seq<Json>, sources: seq<DataSource>)
    requires GetObjectItem(json, FIELD_CONFIGURATION_ID) == Success(JString(id))
    requires GetObjectItem(json, FIELD_DATA_SOURCES) == Success(JArray(items))
    requires ParsedDataSources(items) == Success(sources)
    ensures ParsedConfiguration(json) == Success(Configuration(Some(id), sources))
  {
  }

  /** Parsing what the serializer builds gives back the configuration: absent descriptions, custom
      data and the order of all sources and points included.  The serializer succeeds on exactly
      these configurations, so no valid one is left out and empty lists are covered as well. */
  lemma ConfigurationRoundTrip(c: Configuration)
    requires CompleteConfiguration(c)
    ensures ParsedConfiguration(ConfigurationTree(c)) == Success(c)
  {
    ConfigurationMembers(c);
    DataSourcesRoundTrip(c.dataSources);
    ParsedFromMembers(ConfigurationTree(c), c.id.value, DataSourceTrees(c.dataSources), c.dataSources);
  }
}
