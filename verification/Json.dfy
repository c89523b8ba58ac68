/** JSON trees and their compact printed form. */
module Json {
  import opened Core

  /** How far a number has been read (RFC 8259, section 6). */
  datatype NumberState = Start | Sign | Zero | Integer | Point | Fraction | Exponent | ExponentSign | Power | Wrong

  function NextState(state: NumberState, c: char): NumberState {
    if '0' <= c <= '9' then
      match state
      case Start | Sign => if c == '0' then Zero else Integer
      case Integer => Integer
      case Point | Fraction => Fraction
      case Exponent | ExponentSign | Power => Power
      case _ => Wrong
    else if c == '-' && state.Start? then Sign
    else if c == '.' && (state.Zero? || state.Integer?) then Point
    else if (c == 'e' || c == 'E') && (state.Zero? || state.Integer? || state.Fraction?) then Exponent
    else if (c == '+' || c == '-') && state.Exponent? then ExponentSign
    else Wrong
  }

  predicate EndsNumber(s: string, state: NumberState) {
    if s == "" then state.Zero? || state.Integer? || state.Fraction? || state.Power?
    else EndsNumber(s[1..], NextState(state, s[0]))
  }

  predicate IsNumber(s: string) {
    EndsNumber(s, Start)
  }

  lemma ZeroIsNumber()
    ensures IsNumber("0")
  {
    assert "0"[1..] == "";
  }

  type Number = s: string | IsNumber(s) ghost witness (ZeroIsNumber(); "0")

  /** Numbers carry their printed form, so that opaque user supplied trees are covered as well. */
  datatype Json =
    | JNull
    | JBool(value: bool)
    | JNumber(lexeme: Number)
    | JString(text: string)
    | JArray(items: seq<Json>)
    | JObject(fields: seq<Field>)

  datatype Field = Field(name: string, value: Json)

  // ----- printing -----

  function HexDigit(n: nat): char
    requires n < 16
  {
    if n < 10 then ('0' as int + n) as char else ('a' as int + n - 10) as char
  }

  /** JSON string escaping of one character (RFC 8259, section 7). */
  function EscapeChar(c: char): string {
    if c == '\"' then "\\\""
    else if c == '\\' then "\\\\"
    else if c == 8 as char then "\\b"
    else if c == 9 as char then "\\t"
    else if c == 10 as char then "\\n"
    else if c == 12 as char then "\\f"
    else if c == 13 as char then "\\r"
    else if c < ' ' then "\\u00" + [HexDigit(c as int / 16), HexDigit(c as int % 16)]
    else [c]
  }

  predicate Plain(s: string) {
    forall i :: 0 <= i < |s| ==> s[i] >= ' ' && s[i] != '\"' && s[i] != '\\'
  }

  function EscapeAll(s: string): string {
    if s == "" then "" else EscapeChar(s[0]) + EscapeAll(s[1..])
  }

  /** Plain strings are copied, all others are escaped character by character. */
  function Escape(s: string): (r: string)
    ensures r == EscapeAll(s)
  {
    if Plain(s) then
      PlainIsUnchanged(s);
      s
    else EscapeAll(s)
  }

  function EscapedSize(c: char): nat {
    if c == '\"' || c == '\\' then 2
    else if c >= ' ' then 1
    else if c as int in {8, 9, 10, 12, 13} then 2
    else 6
  }

  /** The characters a string gains when it is printed. */
  function Growth(s: string): nat {
    if Plain(s) then 0 else EscapedSize(s[0]) - 1 + Growth(s[1..])
  }

  lemma {:induction false} GrowthIsExact(s: string)
    ensures |EscapeAll(s)| == |s| + Growth(s)
  {
    if Plain(s) {
      PlainIsUnchanged(s);
    } else {
      assert |EscapeChar(s[0])| == EscapedSize(s[0]);
      GrowthIsExact(s[1..]);
    }
  }

  lemma {:induction false} PlainIsUnchanged(s: string)
    requires Plain(s)
    ensures EscapeAll(s) == s
  {
    if s != "" {
      assert s == [s[0]] + s[1..];
      PlainIsUnchanged(s[1..]);
    }
  }

  /** A string keeps its length in print exactly if none of its characters needs escaping. */
  lemma {:induction false} PlainIffNoGrowth(s: string)
    ensures Plain(s) <==> Growth(s) == 0
  {
    if s != "" {
      PlainIffNoGrowth(s[1..]);
      assert Plain(s) <==> Plain([s[0]]) && Plain(s[1..]) by {
        assert s == [s[0]] + s[1..];
      }
    }
  }

  function Print(j: Json): string
    decreases j
  {
    match j
    case JNull => "null"
    case JBool(b) => if b then "true" else "false"
    case JNumber(lexeme) => lexeme
    case JString(s) => "\"" + Escape(s) + "\""
    case JArray(items) => "[" + PrintItems(items) + "]"
    case JObject(fields) => "{" + PrintFields(fields) + "}"
  }

  function PrintItems(items: seq<Json>): string
    decreases items
  {
    if items == [] then ""
    else if |items| == 1 then Print(items[0])
    else Print(items[0]) + "," + PrintItems(items[1..])
  }

  function PrintField(f: Field): string
    decreases f
  {
    "\"" + Escape(f.name) + "\":" + Print(f.value)
  }

  function PrintFields(fields: seq<Field>): string
    decreases fields
  {
    if fields == [] then ""
    else if |fields| == 1 then PrintField(fields[0])
    else PrintField(fields[0]) + "," + PrintFields(fields[1..])
  }

  // ----- printed sizes -----

  function TextSize(s: string): nat {
    2 + |s| + Growth(s)
  }

  /** The length of the printed form, without printing. */
  function Size(j: Json): nat
    decreases j
  {
    match j
    case JNull => 4
    case JBool(b) => if b then 4 else 5
    case JNumber(lexeme) => |lexeme|
    case JString(s) => TextSize(s)
    case JArray(items) => if items == [] then 2 else ItemsSize(items) + 1
    case JObject(fields) => if fields == [] then 2 else FieldsSize(fields) + 1
  }

  /** Total size of the array elements, each counted with one delimiter. */
  function ItemsSize(items: seq<Json>): nat
    decreases items
  {
    if items == [] then 0 else Size(items[0]) + 1 + ItemsSize(items[1..])
  }

  function FieldSize(f: Field): nat
    decreases f
  {
    TextSize(f.name) + 1 + Size(f.value)
  }

  function FieldsSize(fields: seq<Field>): nat
    decreases fields
  {
    if fields == [] then 0 else FieldSize(fields[0]) + 1 + FieldsSize(fields[1..])
  }

  lemma {:induction false} PrintSize(j: Json)
    ensures |Print(j)| == Size(j)
    decreases j
  {
    match j
    case JArray(items) => PrintItemsSize(items);
    case JObject(fields) => PrintFieldsSize(fields);
    case JString(s) => GrowthIsExact(s);
    case _ =>
  }

  lemma {:induction false} PrintItemsSize(items: seq<Json>)
    ensures |PrintItems(items)| == if items == [] then 0 else ItemsSize(items) - 1
    decreases items
  {
    if items != [] {
      PrintSize(items[0]);
      PrintItemsSize(items[1..]);
    }
  }

  lemma {:induction false} PrintFieldsSize(fields: seq<Field>)
    ensures |PrintFields(fields)| == if fields == [] then 0 else FieldsSize(fields) - 1
    decreases fields
  {
    if fields != [] {
      GrowthIsExact(fields[0].name);
      PrintSize(fields[0].value);
      PrintFieldsSize(fields[1..]);
    }
  }

  lemma {:induction false} FieldsSizeConcat(a: seq<Field>, b: seq<Field>)
    ensures FieldsSize(a + b) == FieldsSize(a) + FieldsSize(b)
  {
    if a == [] {
      assert a + b == b;
    } else {
      assert (a + b)[1..] == a[1..] + b;
      FieldsSizeConcat(a[1..], b);
    }
  }

  lemma {:induction false} ItemsSizeSnoc(items: seq<Json>, last: Json)
    ensures ItemsSize(items + [last]) == ItemsSize(items) + Size(last) + 1
  {
    if items == [] {
      assert items + [last] == [last];
      assert [last][1..] == [];
    } else {
      assert (items + [last])[1..] == items[1..] + [last];
      ItemsSizeSnoc(items[1..], last);
    }
  }

  // ----- member access -----

  function LowerCase(c: char): char {
    if 'A' <= c <= 'Z' then (c as int + 32) as char else c
  }

  /** Member names are compared without regard to case. */
  predicate SameName(a: string, b: string) {
    && |a| == |b|
    && (a != "" ==> LowerCase(a[0]) == LowerCase(b[0]))
    && forall i :: 1 <= i < |a| ==> LowerCase(a[i]) == LowerCase(b[i])
  }

  /** In plain terms, for names of letters. */
  lemma NamesIgnoreCase()
    ensures SameName("dataPoints", "DATAPOINTS") && SameName("type", "Type") && !SameName("type", "types")
    ensures !SameName("type", "unit")
  {
    assert "DATAPOINTS"[0] == 'D' && "dataPoints"[0] == 'd';
  }

  /** First member whose name matches; anything but an object has no named members. */
  function Find(fields: seq<Field>, name: string): Option<Json> {
    if fields == [] then None
    else if SameName(fields[0].name, name) then Some(fields[0].value)
    else Find(fields[1..], name)
  }

  function GetObjectItem(j: Json, name: string): Result<Json> {
    match j
    case JObject(fields) =>
      (match Find(fields, name)
       case Some(v) => Success(v)
       case None => Failure(JsonNonExistingChild))
    case _ => Failure(JsonNonExistingChild)
  }

  /** A null member reads as an unset string. */
  function GetString(j: Json): Result<Option<string>> {
    match j
    case JString(s) => Success(Some(s))
    case JNull => Success(None)
    case _ => Failure(JsonTypeMismatch)
  }

  lemma {:induction false} FindConcat(a: seq<Field>, b: seq<Field>, name: string)
    ensures Find(a + b, name) == if Find(a, name).Some? then Find(a, name) else Find(b, name)
  {
    if a == [] {
      assert a + b == b;
    } else {
      assert (a + b)[1..] == a[1..] + b;
      FindConcat(a[1..], b, name);
    }
  }
}
