/** The body of an upload URL request, which is assembled from pieces, against the JSON it stands for. */
module DataLakeTree {
  import opened Core
  import opened Json
  import DataLakeBody
  import ItemReader
  import JsonReader

  type Paths = seq<Option<string>>

  const FIELD_PATH := "path"
  const FIELD_PATHS := "paths"
  const FIELD_SUBTENANT_ID := "subtenantId"

  function Target(client: string, path: string): string {
    client + "/" + path
  }

  function Item(client: string, path: string): Json {
    JObject([Field(FIELD_PATH, JString(Target(client, path)))])
  }

  function Items(client: string, paths: Paths): seq<Json> {
    if paths == [] then []
    else
      match paths[|paths| - 1]
      case None => Items(client, paths[..|paths| - 1])
      case Some(path) => Items(client, paths[..|paths| - 1]) + [Item(client, path)]
  }

  function SubtenantFields(subtenant: Option<string>): seq<Field> {
    if subtenant.GetOr("") == "" then [] else [Field(FIELD_SUBTENANT_ID, JString(subtenant.value))]
  }

  function Tree(client: string, paths: Paths, subtenant: Option<string>): Json {
    JObject([Field(FIELD_PATHS, JArray(Items(client, paths)))] + SubtenantFields(subtenant))
  }

  predicate AllPlain(client: string, paths: Paths) {
    forall i :: 0 <= i < |paths| && paths[i].Some? ==> Plain(Target(client, paths[i].value))
  }

  // ----- what escaping adds -----

  function Gain(client: string, paths: Paths): nat {
    if paths == [] then 0
    else
      Gain(client, paths[..|paths| - 1])
      + match paths[|paths| - 1] { case None => 0 case Some(path) => Growth(Target(client, path)) }
  }

  lemma {:induction false} GainIsZero(client: string, paths: Paths)
    ensures Gain(client, paths) == 0 <==> AllPlain(client, paths)
  {
    if paths != [] {
      var init, last := paths[..|paths| - 1], paths[|paths| - 1];
      GainIsZero(client, init);
      if last.Some? {
        PlainIffNoGrowth(Target(client, last.value));
      }
      assert forall i :: 0 <= i < |init| ==> init[i] == paths[i];
    }
  }

  lemma NamesArePlain()
    ensures Plain(FIELD_PATH) && Plain(FIELD_PATHS) && Plain(FIELD_SUBTENANT_ID)
    ensures |FIELD_PATH| == 4 && |FIELD_PATHS| == 5 && |FIELD_SUBTENANT_ID| == 11
  {
  }

  lemma ItemSize(client: string, path: string)
    ensures Size(Item(client, path)) == |DataLakeBody.Element(client, path)| + Growth(Target(client, path))
  {
    NamesArePlain();
    DataLakeBody.ElementSize(client, path);
    var field := Field(FIELD_PATH, JString(Target(client, path)));
    assert [field][1..] == [];
    assert FieldsSize([field]) == FieldSize(field) + 1;
  }

  lemma {:induction false} ItemsLength(client: string, paths: Paths)
    ensures |Items(client, paths)| == DataLakeBody.Count(paths)
    ensures |PrintItems(Items(client, paths))| == |DataLakeBody.Elements(client, paths)| + Gain(client, paths)
  {
    DataLakeBody.ElementsSize(client, paths);
    PrintItemsSize(Items(client, paths));
    if paths != [] {
      var init, last := paths[..|paths| - 1], paths[|paths| - 1];
      ItemsLength(client, init);
      DataLakeBody.ElementsSize(client, init);
      PrintItemsSize(Items(client, init));
      if last.Some? {
        ItemSize(client, last.value);
        ItemsSizeSnoc(Items(client, init), Item(client, last.value));
      }
    }
  }

  // ----- the text itself -----

  lemma {:induction false} PrintItemsSnoc(items: seq<Json>, last: Json)
    ensures PrintItems(items + [last])
            == PrintItems(items) + (if items == [] then "" else ",") + Print(last)
  {
    if items == [] {
      assert items + [last] == [last];
    } else {
      var all, rest := items + [last], items[1..];
      assert all[1..] == rest + [last];
      PrintItemsSnoc(rest, last);
    }
  }

  lemma PrintPlainText(s: string)
    requires Plain(s)
    ensures Print(JString(s)) == "\"" + s + "\"" && Escape(s) == s
  {
  }

  lemma PrintItem(client: string, path: string)
    requires Plain(Target(client, path))
    ensures Print(Item(client, path)) == DataLakeBody.Element(client, path)
  {
    NamesArePlain();
    PrintPlainText(FIELD_PATH);
    PrintPlainText(Target(client, path));
    var field := Field(FIELD_PATH, JString(Target(client, path)));
    assert PrintFields([field]) == PrintField(field);
    assert Print(Item(client, path)) == "{" + PrintField(field) + "}";
    assert "\"" + FIELD_PATH + "\":" == "\"path\":";
    PieceByPiece(client, path);
  }

  lemma PieceByPiece(client: string, path: string)
    ensures "{" + ("\"path\":" + ("\"" + Target(client, path) + "\"")) + "}" == DataLakeBody.Element(client, path)
  {
  }

  lemma {:induction false} PrintAllItems(client: string, paths: Paths)
    requires AllPlain(client, paths)
    ensures PrintItems(Items(client, paths)) == DataLakeBody.Elements(client, paths)
    ensures Items(client, paths) == [] <==> DataLakeBody.Elements(client, paths) == ""
  {
    ItemsLength(client, paths);
    DataLakeBody.ElementsSize(client, paths);
    if paths != [] {
      var init, last := paths[..|paths| - 1], paths[|paths| - 1];
      assert forall i :: 0 <= i < |init| ==> init[i] == paths[i];
      PrintAllItems(client, init);
      if last.Some? {
        PrintItem(client, last.value);
        PrintItemsSnoc(Items(client, init), Item(client, last.value));
      }
    }
  }

  // ----- the whole text -----

  lemma PrintOne(f: Field)
    ensures Print(JObject([f])) == "{" + PrintField(f) + "}"
  {
    assert PrintFields([f]) == PrintField(f);
  }

  lemma PrintTwo(f: Field, g: Field)
    ensures Print(JObject([f] + [g])) == "{" + (PrintField(f) + "," + PrintField(g)) + "}"
  {
    assert ([f] + [g])[1..] == [g];
    assert PrintFields([g]) == PrintField(g);
    assert PrintFields([f] + [g]) == PrintField(f) + "," + PrintField(g);
  }

  lemma PlainField(name: string, value: Json, begin: string)
    requires Plain(name) && begin == "\"" + name + "\":"
    ensures PrintField(Field(name, value)) == begin + Print(value)
  {
  }

  lemma PathsField(value: Json)
    ensures PrintField(Field(FIELD_PATHS, value)) == "\"paths\":" + Print(value)
  {
    NamesArePlain();
    PlainField(FIELD_PATHS, value, "\"paths\":");
  }

  lemma SubtenantField(value: Json)
    ensures PrintField(Field(FIELD_SUBTENANT_ID, value)) == "\"subtenantId\":" + Print(value)
  {
    NamesArePlain();
    PlainField(FIELD_SUBTENANT_ID, value, "\"subtenantId\":");
  }

  lemma OpenPaths(elements: string)
    ensures "{" + ("\"paths\":" + ("[" + elements + "]")) == DataLakeBody.PRE_PATH_LIST + elements + "]"
  {
  }

  lemma OpenSubtenant(s: string)
    ensures "," + ("\"subtenantId\":" + ("\"" + s + "\"")) == DataLakeBody.SUBTENANT_ID_KEY + s + "\""
  {
  }

  lemma JoinMembers(a: string, b: string)
    ensures "{" + (a + "," + b) + "}" == ("{" + a) + ("," + b) + "}"
  {
  }

  /** What is printed for the list of paths, and for the subtenant. */
  lemma PathsText(client: string, paths: Paths)
    requires AllPlain(client, paths)
    ensures "{" + PrintField(Field(FIELD_PATHS, JArray(Items(client, paths))))
            == DataLakeBody.PRE_PATH_LIST + DataLakeBody.Elements(client, paths) + "]"
  {
    PrintAllItems(client, paths);
    PathsField(JArray(Items(client, paths)));
    OpenPaths(DataLakeBody.Elements(client, paths));
  }

  lemma SubtenantText(s: string)
    requires Plain(s) && s != ""
    ensures "," + PrintField(Field(FIELD_SUBTENANT_ID, JString(s))) == DataLakeBody.Subtenant(Some(s))
  {
    SubtenantField(JString(s));
    PrintPlainText(s);
    OpenSubtenant(s);
  }

  lemma PlainBody(client: string, paths: Paths, subtenant: Option<string>)
    requires AllPlain(client, paths) && Plain(subtenant.GetOr(""))
    ensures Print(Tree(client, paths, subtenant)) == DataLakeBody.Body(client, paths, subtenant)
  {
    var first := Field(FIELD_PATHS, JArray(Items(client, paths)));
    PathsText(client, paths);
    if subtenant.GetOr("") == "" {
      PrintOne(first);
      assert [first] + [] == [first];
      var text := "{" + PrintField(first);
      assert text + "" == text;
    } else {
      var second := Field(FIELD_SUBTENANT_ID, JString(subtenant.value));
      PrintTwo(first, second);
      SubtenantText(subtenant.value);
      JoinMembers(PrintField(first), PrintField(second));
    }
  }

  lemma ListFieldSize(client: string, paths: Paths)
    ensures FieldSize(Field(FIELD_PATHS, JArray(Items(client, paths))))
            == |DataLakeBody.Elements(client, paths)| + Gain(client, paths) + 10
  {
    NamesArePlain();
    ItemsLength(client, paths);
    PrintItemsSize(Items(client, paths));
  }

  /** The tree prints to what the body has, and what escaping adds. */
  lemma TreeLength(client: string, paths: Paths, subtenant: Option<string>)
    ensures |Print(Tree(client, paths, subtenant))|
            == |DataLakeBody.Body(client, paths, subtenant)| + Gain(client, paths) + Growth(subtenant.GetOr(""))
  {
    var first, others := Field(FIELD_PATHS, JArray(Items(client, paths))), SubtenantFields(subtenant);
    NamesArePlain();
    DataLakeBody.ConstantLengths();
    ListFieldSize(client, paths);
    PrintSize(Tree(client, paths, subtenant));
    assert ([first] + others)[1..] == others;
    assert FieldsSize([first] + others) == FieldSize(first) + 1 + FieldsSize(others);
    if subtenant.GetOr("") != "" {
      var second := Field(FIELD_SUBTENANT_ID, JString(subtenant.value));
      assert others == [second] && others[1..] == [];
      assert FieldsSize(others) == FieldSize(second) + 1;
      assert FieldSize(second) == 13 + 1 + (2 + |subtenant.value| + Growth(subtenant.value));
    }
  }

  /** The assembled body is the JSON it stands for exactly if no text in it needs escaping: the pieces
      are copied as they are. */
  lemma BodyIsJson(client: string, paths: Paths, subtenant: Option<string>)
    ensures DataLakeBody.Body(client, paths, subtenant) == Print(Tree(client, paths, subtenant))
            <==> AllPlain(client, paths) && Plain(subtenant.GetOr(""))
  {
    TreeLength(client, paths, subtenant);
    GainIsZero(client, paths);
    PlainIffNoGrowth(subtenant.GetOr(""));
    if AllPlain(client, paths) && Plain(subtenant.GetOr("")) {
      PlainBody(client, paths, subtenant);
    }
  }

  /** A quotation mark in a path ends its string early: the body is not the JSON it stands for. */
  lemma QuotedPathIsNotJson(client: string)
    ensures DataLakeBody.Body(client, [Some("\"")], None) != Print(Tree(client, [Some("\"")], None))
  {
    var paths: Paths := [Some("\"")];
    var target := Target(client, "\"");
    assert target[|target| - 1] == '\"';
    assert !Plain(target) && paths[0] == Some("\"");
    assert !AllPlain(client, paths);
    BodyIsJson(client, paths, None);
  }

  // ----- what the server reads -----

  function PathFrom(j: Json): Option<string> {
    ItemReader.TextOf(j, "path")
  }

  /** The paths that are asked for, and the subtenant they are for, by the member names of the interface. */
  function RequestFrom(text: string): Option<(seq<string>, Option<string>)> {
    match JsonReader.Read(text)
    case None => None
    case Some(json) =>
      match ItemReader.ElementsOf(json, "paths", PathFrom)
      case Some(paths) => Some((paths, ItemReader.TextOf(json, "subtenantId")))
      case None => None
  }

  /** The objects with a path, each behind the client id and a slash. */
  function Requested(client: string, paths: Paths): seq<string> {
    if paths == [] then []
    else
      Requested(client, paths[..|paths| - 1])
      + match paths[|paths| - 1] { case None => [] case Some(path) => [client + "/" + path] }
  }

  lemma {:induction false} ItemsSay(client: string, paths: Paths)
    ensures |Items(client, paths)| == |Requested(client, paths)|
    ensures forall i :: 0 <= i < |Requested(client, paths)| ==>
              PathFrom(Items(client, paths)[i]) == Some(Requested(client, paths)[i])
  {
    if paths != [] {
      ItemsSay(client, paths[..|paths| - 1]);
      if paths[|paths| - 1].Some? {
        ItemReader.InOne(Field("path", JString(client + "/" + paths[|paths| - 1].value)), "path");
      }
    }
  }

  lemma SubtenantSays(paths: Json, subtenant: Option<string>)
    ensures var fields := [Field("paths", paths)] + SubtenantFields(subtenant);
            && ItemReader.Member(fields, "paths") == Some(paths)
            && ItemReader.TextOf(JObject(fields), "subtenantId") == if subtenant == Some("") then None else subtenant
  {
    ItemReader.MemberConcat([Field("paths", paths)], SubtenantFields(subtenant), "paths");
    ItemReader.MemberConcat([Field("paths", paths)], SubtenantFields(subtenant), "subtenantId");
    ItemReader.InOne(Field("paths", paths), "paths");
    ItemReader.InOne(Field("paths", paths), "subtenantId");
    assert |"paths"| != |"subtenantId"|;
    if SubtenantFields(subtenant) != [] {
      ItemReader.InOne(Field("subtenantId", JString(subtenant.value)), "subtenantId");
    }
  }

  /** If nothing needs escaping, the server reads the request as it was meant. */
  lemma RequestIsRead(client: string, paths: Paths, subtenant: Option<string>)
    requires AllPlain(client, paths) && Plain(subtenant.GetOr(""))
    ensures RequestFrom(DataLakeBody.Body(client, paths, subtenant))
            == Some((Requested(client, paths), if subtenant == Some("") then None else subtenant))
  {
    var trees := Items(client, paths);
    BodyIsJson(client, paths, subtenant);
    JsonReader.PrintedIsRead(Tree(client, paths, subtenant));
    ItemsSay(client, paths);
    ItemReader.EachIs(trees, PathFrom, Requested(client, paths));
    SubtenantSays(JArray(trees), subtenant);
  }
}
