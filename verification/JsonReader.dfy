/** A reader of JSON texts (RFC 8259) without insignificant white space, independent of the printer. */
module JsonReader {
  import opened Core
  import opened Json

  // ----- texts -----

  function HexValue(c: char): Option<nat> {
    if '0' <= c <= '9' then Some(c as int - '0' as int)
    else if 'a' <= c <= 'f' then Some(c as int - 'a' as int + 10)
    else if 'A' <= c <= 'F' then Some(c as int - 'A' as int + 10)
    else None
  }

  /** The character of four hexadecimal digits.  Characters are the bytes of UTF-8, so only those of
      ASCII are read. */
  function HexCharacter(digits: string): Option<char>
    requires |digits| == 4
  {
    match (HexValue(digits[0]), HexValue(digits[1]), HexValue(digits[2]), HexValue(digits[3]))
    case (Some(a), Some(b), Some(c), Some(d)) =>
      var code := 4096 * a + 256 * b + 16 * c + d;
      if code < 128 then Some(code as char) else None
    case _ => None
  }

  /** The character behind a backslash, unless it is given by digits. */
  function Escaped(c: char): Option<char> {
    match c
    case '\"' => Some('\"')
    case '\\' => Some('\\')
    case '/' => Some('/')
    case 'b' => Some(8 as char)
    case 'f' => Some(12 as char)
    case 'n' => Some(10 as char)
    case 'r' => Some(13 as char)
    case 't' => Some(9 as char)
    case _ => None
  }

  /** The first character of a text that was not closed yet, and how much of the text it takes. */
  function ReadCharacter(s: string): Option<(char, nat)>
    requires s != ""
  {
    if s[0] < ' ' || s[0] == '\"' then None
    else if s[0] != '\\' then Some((s[0], 1))
    else if |s| >= 6 && s[1] == 'u' then
      (match HexCharacter(s[2..6])
       case Some(c) => Some((c, 6))
       case None => None)
    else if |s| >= 2 then
      (match Escaped(s[1])
       case Some(c) => Some((c, 2))
       case None => None)
    else None
  }

  /** A text up to its closing quotation mark, and what follows. */
  function ReadText(s: string): (r: Option<(string, string)>)
    ensures r.Some? ==> |r.value.1| < |s|
  {
    if s == "" then None
    else if s[0] == '\"' then Some(("", s[1..]))
    else
      match ReadCharacter(s)
      case None => None
      case Some((c, n)) =>
        if n > |s| || n == 0 then None
        else
          match ReadText(s[n..])
          case None => None
          case Some((text, rest)) => Some(([c] + text, rest))
  }

  // ----- values -----

  predicate InNumber(c: char) {
    '0' <= c <= '9' || c == '-' || c == '+' || c == '.' || c == 'e' || c == 'E'
  }

  function NumberLength(s: string): (n: nat)
    ensures n <= |s|
  {
    if s == "" || !InNumber(s[0]) then 0 else 1 + NumberLength(s[1..])
  }

  function ReadNumber(s: string): (r: Option<(Json, string)>)
    ensures r.Some? ==> |r.value.1| < |s|
  {
    var n := NumberLength(s);
    if n > 0 && IsNumber(s[..n]) then Some((JNumber(s[..n]), s[n..])) else None
  }

  function ReadValue(s: string): (r: Option<(Json, string)>)
    ensures r.Some? ==> |r.value.1| < |s|
    decreases |s|, 0
  {
    if s == "" then None
    else if s[0] == '{' then ReadObject(s[1..])
    else if s[0] == '[' then ReadArray(s[1..])
    else if s[0] == '\"' then
      (match ReadText(s[1..])
       case Some((text, rest)) => Some((JString(text), rest))
       case None => None)
    else if "null" <= s then Some((JNull, s[4..]))
    else if "true" <= s then Some((JBool(true), s[4..]))
    else if "false" <= s then Some((JBool(false), s[5..]))
    else ReadNumber(s)
  }

  function ReadArray(s: string): (r: Option<(Json, string)>)
    ensures r.Some? ==> |r.value.1| < |s|
    decreases |s|, 3
  {
    if s != "" && s[0] == ']' then Some((JArray([]), s[1..]))
    else
      match ReadItems(s)
      case Some((items, rest)) => Some((JArray(items), rest))
      case None => None
  }

  function ReadItems(s: string): (r: Option<(seq<Json>, string)>)
    ensures r.Some? ==> |r.value.1| < |s|
    decreases |s|, 2
  {
    match ReadValue(s)
    case None => None
    case Some((first, rest)) =>
      if rest != "" && rest[0] == ']' then Some(([first], rest[1..]))
      else if rest != "" && rest[0] == ',' then
        (match ReadItems(rest[1..])
         case Some((others, behind)) => Some(([first] + others, behind))
         case None => None)
      else None
  }

  function ReadObject(s: string): (r: Option<(Json, string)>)
    ensures r.Some? ==> |r.value.1| < |s|
    decreases |s|, 3
  {
    if s != "" && s[0] == '}' then Some((JObject([]), s[1..]))
    else
      match ReadFields(s)
      case Some((fields, rest)) => Some((JObject(fields), rest))
      case None => None
  }

  function ReadField(s: string): (r: Option<(Field, string)>)
    ensures r.Some? ==> |r.value.1| < |s|
    decreases |s|, 1
  {
    if s == "" || s[0] != '\"' then None
    else
      match ReadText(s[1..])
      case None => None
      case Some((name, rest)) =>
        if rest == "" || rest[0] != ':' then None
        else
          match ReadValue(rest[1..])
          case Some((value, behind)) => Some((Field(name, value), behind))
          case None => None
  }

  function ReadFields(s: string): (r: Option<(seq<Field>, string)>)
    ensures r.Some? ==> |r.value.1| < |s|
    decreases |s|, 2
  {
    match ReadField(s)
    case None => None
    case Some((first, rest)) =>
      if rest != "" && rest[0] == '}' then Some(([first], rest[1..]))
      else if rest != "" && rest[0] == ',' then
        (match ReadFields(rest[1..])
         case Some((others, behind)) => Some(([first] + others, behind))
         case None => None)
      else None
  }

  /** The tree of a JSON text. */
  function Read(text: string): Option<Json> {
    match ReadValue(text)
    case Some((json, rest)) => if rest == "" then Some(json) else None
    case None => None
  }

  // ----- what is printed can be read -----

  lemma CharacterBack(c: char, behind: string)
    ensures ReadCharacter(EscapeChar(c) + behind) == Some((c, |EscapeChar(c)|))
  {
    var s := EscapeChar(c) + behind;
    if c < ' ' && c as int !in {8, 9, 10, 12, 13} {
      assert s[2..6] == ['0', '0', HexDigit(c as int / 16), HexDigit(c as int % 16)];
    }
  }

  lemma OneMoreCharacter(c: char, first: string, behind: string, text: string, rest: string)
    requires first != "" && ReadCharacter(first + behind) == Some((c, |first|)) && first[0] != '\"'
    requires ReadText(behind) == Some((text, rest))
    ensures ReadText(first + behind) == Some(([c] + text, rest))
  {
    assert (first + behind)[|first|..] == behind;
  }

  lemma {:induction false} TextBack(s: string, rest: string)
    ensures ReadText(EscapeAll(s) + ("\"" + rest)) == Some((s, rest))
  {
    if s == "" {
      assert "" + ("\"" + rest) == "\"" + rest;
    } else {
      var first, behind := EscapeChar(s[0]), EscapeAll(s[1..]) + ("\"" + rest);
      TextBack(s[1..], rest);
      CharacterBack(s[0], behind);
      Associate(first, EscapeAll(s[1..]), "\"" + rest);
      OneMoreCharacter(s[0], first, behind, s[1..], rest);
      assert s == [s[0]] + s[1..];
    }
  }

  lemma {:induction false} NumberIsMade(s: string, state: NumberState)
    requires EndsNumber(s, state)
    ensures forall i :: 0 <= i < |s| ==> InNumber(s[i])
  {
    if s != "" {
      if NextState(state, s[0]).Wrong? {
        WrongStays(s[1..]);
      }
      NumberIsMade(s[1..], NextState(state, s[0]));
      assert forall i :: 1 <= i < |s| ==> s[i] == s[1..][i - 1];
    }
  }

  lemma {:induction false} WrongStays(s: string)
    ensures !EndsNumber(s, Wrong)
  {
    if s != "" {
      WrongStays(s[1..]);
    }
  }

  /** Where a number can end. */
  predicate NoNumber(rest: string) {
    rest == "" || !InNumber(rest[0])
  }

  lemma {:induction false} NumberEnds(s: string, rest: string)
    requires (forall i :: 0 <= i < |s| ==> InNumber(s[i])) && NoNumber(rest)
    ensures NumberLength(s + rest) == |s|
  {
    if s == "" {
      assert s + rest == rest;
    } else {
      NumberEnds(s[1..], rest);
      assert (s + rest)[1..] == s[1..] + rest;
    }
  }

  lemma NumberBegins(s: string)
    requires IsNumber(s)
    ensures s != "" && ('0' <= s[0] <= '9' || s[0] == '-')
  {
    if s != "" && NextState(Start, s[0]).Wrong? {
      WrongStays(s[1..]);
    }
  }

  lemma NumberBack(lexeme: Number, rest: string)
    requires NoNumber(rest)
    ensures ReadValue(lexeme + rest) == Some((JNumber(lexeme), rest))
  {
    var s := lexeme + rest;
    NumberBegins(lexeme);
    NumberIsMade(lexeme, Start);
    NumberEnds(lexeme, rest);
    assert s[0] == lexeme[0] && s[..|lexeme|] == lexeme && s[|lexeme|..] == rest;
    assert "null"[0] != s[0] && "true"[0] != s[0] && "false"[0] != s[0];
  }

  lemma WholeText(s: string, text: string, rest: string)
    requires ReadText(s) == Some((text, rest))
    ensures ReadValue("\"" + s) == Some((JString(text), rest))
  {
    assert ("\"" + s)[1..] == s;
  }

  lemma QuotedText(s: string, rest: string)
    ensures "\"" + s + "\"" + rest == "\"" + (s + ("\"" + rest))
  {
  }

  lemma QuotedBack(s: string, rest: string)
    ensures ReadValue("\"" + Escape(s) + "\"" + rest) == Some((JString(s), rest))
  {
    TextBack(s, rest);
    WholeText(EscapeAll(s) + ("\"" + rest), s, rest);
    QuotedText(EscapeAll(s), rest);
  }

  /** No printed value begins with a bracket that ends an array. */
  lemma ValueBegins(j: Json)
    ensures Print(j) != "" && Print(j)[0] != ']'
  {
    if j.JNumber? {
      NumberBegins(j.lexeme);
    }
  }

  // ----- one step of reading each -----

  lemma LastItem(s: string, first: Json, rest: string)
    requires ReadValue(s) == Some((first, "]" + rest))
    ensures ReadItems(s) == Some(([first], rest))
  {
    assert ("]" + rest)[1..] == rest;
  }

  lemma MoreItems(s: string, first: Json, behind: string, others: seq<Json>, rest: string)
    requires ReadValue(s) == Some((first, "," + behind)) && ReadItems(behind) == Some((others, rest))
    ensures ReadItems(s) == Some(([first] + others, rest))
  {
    assert ("," + behind)[1..] == behind;
  }

  lemma WholeArray(s: string, items: seq<Json>, rest: string)
    requires ReadItems(s) == Some((items, rest)) && s != "" && s[0] != ']'
    ensures ReadValue("[" + s) == Some((JArray(items), rest))
  {
    assert ("[" + s)[1..] == s;
  }

  lemma OneField(name: string, value: Json, text: string, rest: string)
    requires ReadValue(text) == Some((value, rest))
    ensures ReadField("\"" + (EscapeAll(name) + ("\"" + (":" + text)))) == Some((Field(name, value), rest))
  {
    var s := EscapeAll(name) + ("\"" + (":" + text));
    TextBack(name, ":" + text);
    assert ("\"" + s)[1..] == s && (":" + text)[1..] == text;
  }

  lemma LastField(s: string, first: Field, rest: string)
    requires ReadField(s) == Some((first, "}" + rest))
    ensures ReadFields(s) == Some(([first], rest))
  {
    assert ("}" + rest)[1..] == rest;
  }

  lemma MoreFields(s: string, first: Field, behind: string, others: seq<Field>, rest: string)
    requires ReadField(s) == Some((first, "," + behind)) && ReadFields(behind) == Some((others, rest))
    ensures ReadFields(s) == Some(([first] + others, rest))
  {
    assert ("," + behind)[1..] == behind;
  }

  lemma WholeObject(s: string, fields: seq<Field>, rest: string)
    requires ReadFields(s) == Some((fields, rest)) && s != "" && s[0] != '}'
    ensures ReadValue("{" + s) == Some((JObject(fields), rest))
  {
    assert ("{" + s)[1..] == s;
  }

  lemma EmptyOnes(rest: string)
    ensures ReadValue("[" + ("]" + rest)) == Some((JArray([]), rest))
    ensures ReadValue("{" + ("}" + rest)) == Some((JObject([]), rest))
  {
    assert ("[" + ("]" + rest))[1..] == "]" + rest && ("]" + rest)[1..] == rest;
    assert ("{" + ("}" + rest))[1..] == "}" + rest && ("}" + rest)[1..] == rest;
  }

  // ----- how texts are put together -----

  lemma Comma(first: string, others: string, end: string)
    ensures first + "," + others + end == first + ("," + (others + end))
  {
  }

  lemma ItemsText(items: seq<Json>, end: string, s: string, behind: string)
    requires |items| > 1 && s == PrintItems(items) + end && behind == PrintItems(items[1..]) + end
    ensures s == Print(items[0]) + ("," + behind)
  {
    Comma(Print(items[0]), PrintItems(items[1..]), end);
  }

  lemma Quotes(name: string, value: string, end: string)
    ensures "\"" + name + "\":" + value + end == "\"" + (name + ("\"" + (":" + (value + end))))
  {
    assert "\":" == "\"" + ":";
  }

  lemma FieldText(f: Field, end: string, s: string, text: string)
    requires s == PrintField(f) + end && text == Print(f.value) + end
    ensures s == "\"" + (EscapeAll(f.name) + ("\"" + (":" + text)))
  {
    Quotes(EscapeAll(f.name), Print(f.value), end);
  }

  lemma FieldsText(fields: seq<Field>, end: string, s: string, behind: string)
    requires |fields| > 1 && s == PrintFields(fields) + end && behind == PrintFields(fields[1..]) + end
    ensures s == PrintField(fields[0]) + ("," + behind)
  {
    Comma(PrintField(fields[0]), PrintFields(fields[1..]), end);
  }

  lemma ArrayText(items: seq<Json>, end: string)
    ensures Print(JArray(items)) + end == "[" + (PrintItems(items) + ("]" + end))
    ensures items == [] ==> PrintItems(items) + ("]" + end) == "]" + end
    ensures items != [] ==> PrintItems(items) != "" && PrintItems(items)[0] != ']'
  {
    if items != [] {
      ValueBegins(items[0]);
    }
  }

  lemma ObjectText(fields: seq<Field>, end: string)
    ensures Print(JObject(fields)) + end == "{" + (PrintFields(fields) + ("}" + end))
    ensures fields == [] ==> PrintFields(fields) + ("}" + end) == "}" + end
    ensures fields != [] ==> PrintFields(fields) != "" && PrintFields(fields)[0] == '\"'
  {
  }

  lemma SimpleBack(j: Json, rest: string)
    requires NoNumber(rest) && !j.JArray? && !j.JObject?
    ensures ReadValue(Print(j) + rest) == Some((j, rest))
  {
    var s := Print(j) + rest;
    match j
    case JNull => assert s[4..] == rest;
    case JBool(b) => assert s[|Print(j)|..] == rest && (if b then "true" <= s else "false" <= s);
    case JNumber(lexeme) => NumberBack(lexeme, rest);
    case JString(text) => QuotedBack(text, rest);
  }

  // ----- whole trees -----

  lemma {:induction false} ValueBack(j: Json, rest: string)
    requires NoNumber(rest)
    ensures ReadValue(Print(j) + rest) == Some((j, rest))
    decreases j, 1
  {
    match j
    case JArray(items) =>
      ArrayText(items, rest);
      EmptyOnes(rest);
      if items != [] {
        var s := PrintItems(items) + ("]" + rest);
        ItemsBack(items, rest, s);
        WholeArray(s, items, rest);
      }
    case JObject(fields) =>
      ObjectText(fields, rest);
      EmptyOnes(rest);
      if fields != [] {
        var s := PrintFields(fields) + ("}" + rest);
        FieldsBack(fields, rest, s);
        WholeObject(s, fields, rest);
      }
    case _ => SimpleBack(j, rest);
  }

  lemma {:induction false} ItemsBack(items: seq<Json>, rest: string, s: string)
    requires items != [] && s == PrintItems(items) + ("]" + rest)
    ensures ReadItems(s) == Some((items, rest))
    decreases items, 0
  {
    var first, others := items[0], items[1..];
    HeadAndTail(items);
    if |items| == 1 {
      ValueBack(first, "]" + rest);
      LastItem(s, first, rest);
    } else {
      var behind := PrintItems(others) + ("]" + rest);
      ItemsText(items, "]" + rest, s, behind);
      ItemsBack(others, rest, behind);
      ValueBack(first, "," + behind);
      MoreItems(s, first, behind, others, rest);
    }
  }

  lemma FieldBack(f: Field, rest: string, s: string)
    requires NoNumber(rest) && s == PrintField(f) + rest
    ensures ReadField(s) == Some((f, rest))
    decreases f, 2
  {
    var text := Print(f.value) + rest;
    ValueBack(f.value, rest);
    FieldText(f, rest, s, text);
    OneField(f.name, f.value, text, rest);
  }

  lemma {:induction false} FieldsBack(fields: seq<Field>, rest: string, s: string)
    requires fields != [] && s == PrintFields(fields) + ("}" + rest)
    ensures ReadFields(s) == Some((fields, rest))
    decreases fields, 0
  {
    var first, others := fields[0], fields[1..];
    HeadAndTail(fields);
    if |fields| == 1 {
      FieldBack(first, "}" + rest, s);
      LastField(s, first, rest);
    } else {
      var behind := PrintFields(others) + ("}" + rest);
      FieldsText(fields, "}" + rest, s, behind);
      FieldsBack(others, rest, behind);
      FieldBack(first, "," + behind, s);
      MoreFields(s, first, behind, others, rest);
    }
  }

  /** Every tree can be read back from its printed form. */
  lemma PrintedIsRead(j: Json)
    ensures Read(Print(j)) == Some(j)
  {
    ValueBack(j, "");
    assert Print(j) + "" == Print(j);
  }
}
