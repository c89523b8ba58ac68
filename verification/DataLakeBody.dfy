/** The request for signed upload URLs: the body is sized first, and then filled piece by piece. */
module DataLakeBody {
  import opened Core

  const PRE_PATH_LIST := "{\"paths\":["
  const PRE_PATH_OBJECT := "{\"path\":\""
  const POST_PATH_OBJECT := "\"}"
  const SUBTENANT_ID_KEY := ",\"subtenantId\":\""

  const PRE_PATH_LIST_LENGTH := 10
  const POST_PATH_LIST_LENGTH := 2
  const PRE_PATH_OBJECT_LENGTH := 9
  const POST_PATH_OBJECT_LENGTH := 2
  const SUBTENANT_KEY_LENGTH := 16
  const SUBTENANT_OVERHEAD := SUBTENANT_KEY_LENGTH + 1

  lemma ConstantLengths()
    ensures |PRE_PATH_LIST| == PRE_PATH_LIST_LENGTH && |PRE_PATH_OBJECT| == PRE_PATH_OBJECT_LENGTH
    ensures |POST_PATH_OBJECT| == POST_PATH_OBJECT_LENGTH && |SUBTENANT_ID_KEY| == SUBTENANT_KEY_LENGTH
  {
  }

  /** The objects to upload; one without a path takes no part. */
  type Paths = seq<Option<string>>

  // ----- the text -----

  function Element(client: string, path: string): string {
    PRE_PATH_OBJECT + client + "/" + path + POST_PATH_OBJECT
  }

  /** The elements of all objects with a path, separated by commas. */
  function Elements(client: string, paths: Paths): string {
    if paths == [] then ""
    else
      var before := Elements(client, paths[..|paths| - 1]);
      match paths[|paths| - 1]
      case None => before
      case Some(path) => before + (if before == "" then "" else ",") + Element(client, path)
  }

  function Subtenant(subtenant: Option<string>): string {
    if subtenant.GetOr("") == "" then "" else SUBTENANT_ID_KEY + subtenant.value + "\""
  }

  function Body(client: string, paths: Paths, subtenant: Option<string>): string {
    PRE_PATH_LIST + Elements(client, paths) + "]" + Subtenant(subtenant) + "}"
  }

  // ----- its size -----

  function Count(paths: Paths): nat {
    if paths == [] then 0 else Count(paths[..|paths| - 1]) + if paths[|paths| - 1].Some? then 1 else 0
  }

  function TotalLength(paths: Paths): nat {
    if paths == [] then 0 else TotalLength(paths[..|paths| - 1]) + |paths[|paths| - 1].GetOr("")|
  }

  function Overhead(client: string): nat {
    PRE_PATH_OBJECT_LENGTH + POST_PATH_OBJECT_LENGTH + |client| + 1
  }

  function Product(a: nat, b: nat): nat {
    a * b
  }

  lemma NextProduct(a: nat, b: nat, next: nat)
    requires next == b + 1
    ensures Product(a, next) == Product(a, b) + a
  {
  }

  lemma ElementSize(client: string, path: string)
    ensures |Element(client, path)| == Overhead(client) + |path|
  {
    ConstantLengths();
  }

  lemma {:induction false} ElementsSize(client: string, paths: Paths)
    ensures |Elements(client, paths)|
            == Product(Overhead(client), Count(paths)) + TotalLength(paths)
               + (if Count(paths) == 0 then 0 else Count(paths) - 1)
    ensures Count(paths) == 0 <==> Elements(client, paths) == ""
    ensures Count(paths) == 0 ==> TotalLength(paths) == 0
  {
    if paths != [] {
      var init, last := paths[..|paths| - 1], paths[|paths| - 1];
      ElementsSize(client, init);
      if last.Some? {
        ElementSize(client, last.value);
        NextProduct(Overhead(client), Count(init), Count(paths));
      }
    }
  }

  /** What is written for the body of at least one path is as long as computed beforehand. */
  function BodySize(client: string, paths: Paths, subtenant: Option<string>): nat {
    if Count(paths) == 0 then 0
    else
      PRE_PATH_LIST_LENGTH + POST_PATH_LIST_LENGTH + Product(Overhead(client), Count(paths))
      + TotalLength(paths) + (Count(paths) - 1)
      + if subtenant.GetOr("") == "" then 0 else SUBTENANT_OVERHEAD + |subtenant.value|
  }

  lemma BodySizeIsExact(client: string, paths: Paths, subtenant: Option<string>)
    requires Count(paths) > 0
    ensures BodySize(client, paths, subtenant) == |Body(client, paths, subtenant)|
  {
    ConstantLengths();
    ElementsSize(client, paths);
  }

  lemma NextCount(paths: Paths, i: nat, next: nat)
    requires next == i + 1 <= |paths|
    ensures Count(paths[..next]) == Count(paths[..i]) + if paths[i].Some? then 1 else 0
    ensures TotalLength(paths[..next]) == TotalLength(paths[..i]) + |paths[i].GetOr("")|
  {
    assert paths[..next][..i] == paths[..i];
  }

  method CalculateTotalPathSize(paths: Paths) returns (total: nat, count: nat)
    ensures total == TotalLength(paths) && count == Count(paths)
  {
    var index := 0;
    total, count := 0, 0;
    while index < |paths|
      invariant 0 <= index <= |paths|
      invariant total == TotalLength(paths[..index]) && count == Count(paths[..index])
    {
      var next := index + 1;
      NextCount(paths, index, next);
      if paths[index].Some? {
        count := count + 1;
        total := total + |paths[index].value|;
      }
      index := next;
    }
    assert paths[..index] == paths;
  }

  method GetBodySize(paths: Paths, clientLength: nat, subtenantLength: nat, ghost client: string,
                     ghost subtenant: Option<string>) returns (size: nat)
    requires clientLength == |client| && subtenantLength == |subtenant.GetOr("")|
    ensures size == BodySize(client, paths, subtenant)
  {
    var total, count := CalculateTotalPathSize(paths);
    if count == 0 {
      return 0;
    }
    var overhead := clientLength + 1;
    size := PRE_PATH_LIST_LENGTH + POST_PATH_LIST_LENGTH;
    size := size + Product(PRE_PATH_OBJECT_LENGTH + POST_PATH_OBJECT_LENGTH + overhead, count);
    size := size + total + (count - 1);
    if subtenantLength != 0 {
      size := size + SUBTENANT_OVERHEAD;
      size := size + subtenantLength;
    }
  }

  // ----- filling -----

  /** The buffer holds a text up to the position. */
  ghost predicate Holds(buffer: array<char>, position: nat, text: string)
    reads buffer
  {
    position == |text| <= buffer.Length && buffer[..position] == text
  }

  /** Copies a piece behind what is written. */
  method Append(buffer: array<char>, position: nat, piece: string, ghost text: string) returns (next: nat)
    requires Holds(buffer, position, text) && |text| + |piece| <= buffer.Length
    modifies buffer
    ensures next == position + |piece| && Holds(buffer, next, text + piece)
  {
    forall i | 0 <= i < |piece| {
      buffer[position + i] := piece[i];
    }
    next := position + |piece|;
    assert buffer[..next] == buffer[..position] + piece;
  }

  /** The pieces of one element. */
  method AppendElement(buffer: array<char>, position: nat, client: string, path: string, ghost text: string)
    returns (next: nat)
    requires Holds(buffer, position, text) && |text| + |Element(client, path)| <= buffer.Length
    modifies buffer
    ensures Holds(buffer, next, text + Element(client, path))
  {
    ElementSize(client, path);
    ConstantLengths();
    next := Append(buffer, position, PRE_PATH_OBJECT, text);
    next := Append(buffer, next, client, text + PRE_PATH_OBJECT);
    next := Append(buffer, next, "/", text + PRE_PATH_OBJECT + client);
    next := Append(buffer, next, path, text + PRE_PATH_OBJECT + client + "/");
    next := Append(buffer, next, POST_PATH_OBJECT, text + PRE_PATH_OBJECT + client + "/" + path);
    assert text + PRE_PATH_OBJECT + client + "/" + path + POST_PATH_OBJECT == text + Element(client, path);
  }

  lemma NextElements(client: string, paths: Paths, i: nat, next: nat)
    requires next == i + 1 <= |paths|
    ensures var before := Elements(client, paths[..i]);
            Elements(client, paths[..next])
            == match paths[i]
               case None => before
               case Some(path) => before + (if before == "" then "" else ",") + Element(client, path)
  {
    assert paths[..next][..i] == paths[..i];
  }

  lemma {:induction false} ElementsGrow(client: string, paths: Paths, i: nat)
    requires i <= |paths|
    ensures |Elements(client, paths[..i])| <= |Elements(client, paths)|
    decreases |paths| - i
  {
    if i < |paths| {
      NextElements(client, paths, i, i + 1);
      ElementsGrow(client, paths, i + 1);
    } else {
      assert paths[..i] == paths;
    }
  }

  /** One element, with a comma in front unless it is the first. */
  method AppendNext(buffer: array<char>, start: nat, client: string, path: string, first: bool, ghost text: string,
                    ghost before: string) returns (position: nat)
    requires first <==> before == ""
    requires Holds(buffer, start, text + before)
    requires |text| + |before| + |(if before == "" then "" else ",")| + |Element(client, path)| <= buffer.Length
    modifies buffer
    ensures Holds(buffer, position, text + (before + (if before == "" then "" else ",") + Element(client, path)))
  {
    position := start;
    ghost var comma := if before == "" then "" else ",";
    if !first {
      position := Append(buffer, position, ",", text + before);
    } else {
      assert (text + before) + comma == text + before;
    }
    position := AppendElement(buffer, position, client, path, (text + before) + comma);
    JoinPieces(text, before, comma, Element(client, path));
  }

  lemma JoinPieces(a: string, b: string, c: string, d: string)
    ensures ((a + b) + c) + d == a + (b + c + d)
  {
  }

  /** All elements, separated by commas. */
  method AppendElements(buffer: array<char>, start: nat, client: string, paths: Paths, ghost text: string)
    returns (position: nat)
    requires Holds(buffer, start, text) && |text| + |Elements(client, paths)| <= buffer.Length
    modifies buffer
    ensures Holds(buffer, position, text + Elements(client, paths))
  {
    var first, index := true, 0;
    ghost var before := "";
    position := start;
    assert text + before == text && Elements(client, paths[..0]) == before;
    while index < |paths|
      invariant 0 <= index <= |paths| && before == Elements(client, paths[..index])
      invariant first <==> before == ""
      invariant Holds(buffer, position, text + before)
    {
      var next := index + 1;
      NextElements(client, paths, index, next);
      ElementsGrow(client, paths, next);
      if paths[index].Some? {
        position := AppendNext(buffer, position, client, paths[index].value, first, text, before);
        first := false;
      }
      before := Elements(client, paths[..next]);
      index := next;
    }
    assert paths[..index] == paths;
  }

  /** Everything behind the elements. */
  method AppendEnd(buffer: array<char>, start: nat, subtenant: Option<string>, subtenantLength: nat, ghost text: string)
    returns (position: nat)
    requires subtenantLength == |subtenant.GetOr("")|
    requires Holds(buffer, start, text) && |text + "]" + Subtenant(subtenant) + "}"| <= buffer.Length
    modifies buffer
    ensures Holds(buffer, position, text + "]" + Subtenant(subtenant) + "}")
  {
    ghost var written := text + "]";
    position := Append(buffer, start, "]", text);
    if subtenantLength != 0 {
      position := Append(buffer, position, SUBTENANT_ID_KEY, written);
      position := Append(buffer, position, subtenant.value, written + SUBTENANT_ID_KEY);
      position := Append(buffer, position, "\"", written + SUBTENANT_ID_KEY + subtenant.value);
      JoinPieces(written, SUBTENANT_ID_KEY, subtenant.value, "\"");
    } else {
      assert written + "" == written;
    }
    position := Append(buffer, position, "}", written + Subtenant(subtenant));
  }

  /** The request body for all objects with a path, with a terminator right behind it. */
  method BodyFromObjects(paths: Paths, client: string, subtenant: Option<string>, hasMemory: bool)
    returns (code: Code, json: array?<char>)
    ensures code == if Count(paths) == 0 then InvalidParameter else if !hasMemory then OutOfMemory else Ok
    ensures code == Ok ==> json != null && json[..] == Body(client, paths, subtenant) + [0 as char]
  {
    var subtenantLength := if subtenant.Some? then |subtenant.value| else 0;
    var size := GetBodySize(paths, |client|, subtenantLength, client, subtenant);
    if size == 0 {
      return InvalidParameter, null;
    }
    if !hasMemory {
      return OutOfMemory, null;
    }
    BodySizeIsExact(client, paths, subtenant);
    json := new char[size + 1];
    var position := Append(json, 0, PRE_PATH_LIST, "");
    position := AppendElements(json, position, client, paths, PRE_PATH_LIST);
    position := AppendEnd(json, position, subtenant, subtenantLength, PRE_PATH_LIST + Elements(client, paths));
    json[size] := 0 as char;
    code := Ok;
  }
}
