/** A receiver that takes multipart bodies apart again (RFC 2046, section 5.1), independent of the
    code that writes them. */
module Receiver {
  import opened Core
  import opened Multipart

  // ----- the format -----

  const DASHES := "--"
  const LINE := "\r\n"
  const EMPTY_LINE := "\r\n\r\n"
  const HEADER_NAME := "Content-Type: "
  const RELATED_KIND := "multipart/related"
  const BOUNDARY_PARAMETER := ";boundary="
  const RELATED := RELATED_KIND + BOUNDARY_PARAMETER
  const META_KIND := "application/vnd.siemens.mindsphere.meta+json"

  // ----- searching -----

  /** Where a text first occurs in another one. */
  function Search(s: string, wanted: string): (r: Option<nat>)
    ensures r.Some? ==> r.value + |wanted| <= |s|
  {
    if wanted <= s then Some(0)
    else if s == "" then None
    else
      match Search(s[1..], wanted)
      case Some(i) => Some(i + 1)
      case None => None
  }

  predicate OccursAt(s: string, wanted: string, i: int) {
    0 <= i <= |s| - |wanted| && s[i..i + |wanted|] == wanted
  }

  ghost predicate Absent(s: string, wanted: string) {
    forall i :: !OccursAt(s, wanted, i)
  }

  /** Before its end, a text followed by the wanted one does not contain it. */
  ghost predicate EndsAtFirst(s: string, wanted: string) {
    forall i :: 0 <= i < |s| ==> !OccursAt(s + wanted, wanted, i)
  }

  lemma EndsAtFirstBehind(s: string, wanted: string)
    requires s != "" && EndsAtFirst(s, wanted)
    ensures EndsAtFirst(s[1..], wanted)
  {
    var text, rest := s + wanted, s[1..];
    assert text[1..] == rest + wanted;
    forall i: nat | i < |rest| && OccursAt(rest + wanted, wanted, i) ensures OccursAt(text, wanted, i + 1) {
      assert (rest + wanted)[i..i + |wanted|] == text[i + 1..i + 1 + |wanted|];
    }
  }

  lemma {:induction false} SearchFinds(s: string, wanted: string, rest: string)
    requires EndsAtFirst(s, wanted)
    ensures Search(s + wanted + rest, wanted) == Some(|s|)
    decreases |s|
  {
    var text := s + wanted + rest;
    if s == "" {
      assert text == wanted + rest;
    } else {
      assert !OccursAt(s + wanted, wanted, 0);
      assert (s + wanted)[..|wanted|] == text[..|wanted|];
      assert !(wanted <= text);
      assert text[1..] == s[1..] + wanted + rest;
      EndsAtFirstBehind(s, wanted);
      SearchFinds(s[1..], wanted, rest);
    }
  }

  // ----- splitting -----

  /** What is in front of a line break that ends at i. */
  function LineBefore(s: string, i: nat, line: string): Option<string>
    requires i <= |s|
  {
    if i < |line| || s[i - |line|..i] != line then None else Some(s[..i - |line|])
  }

  function After(s: string, i: nat, skipped: string): (r: string)
    requires i + |skipped| <= |s|
    ensures |r| == |s| - i - |skipped|
  {
    s[i + |skipped|..]
  }

  /** The parts of a body, read from behind a delimiter: the sign ends the body, otherwise a part
      reaches up to the line break before the next delimiter. */
  function SplitLines(text: string, delimiter: string, sign: string, line: string): Option<seq<string>>
    requires delimiter != ""
    decreases |text|
  {
    if sign <= text then Some([])
    else if !(line <= text) then None
    else
      var content := After(text, 0, line);
      match Search(content, delimiter)
      case None => None
      case Some(i) =>
        var part, others := LineBefore(content, i, line), SplitLines(After(content, i, delimiter), delimiter, sign, line);
        if part.None? || others.None? then None else Some([part.value] + others.value)
  }

  function SplitBehind(text: string, delimiter: string): Option<seq<string>>
    requires delimiter != ""
  {
    SplitLines(text, delimiter, DASHES, LINE)
  }

  function SplitMultipart(body: string, boundary: string): Option<seq<string>> {
    var delimiter := DASHES + boundary;
    if delimiter <= body then SplitBehind(body[|delimiter|..], delimiter) else None
  }

  /** The value of the content type line, and what follows the empty line behind it. */
  function ReadHeader(text: string): Option<(string, string)> {
    if !(HEADER_NAME <= text) then None
    else
      var line := text[|HEADER_NAME|..];
      match Search(line, LINE)
      case None => None
      case Some(i) =>
        if LINE <= line[i + |LINE|..] then Some((line[..i], line[i + 2 * |LINE|..])) else None
  }

  predicate IsBoundary(s: string) {
    |s| == 20 && forall c :: c in s ==> '0' <= c <= '9' || 'a' <= c <= 'z' || 'A' <= c <= 'Z'
  }

  /** One item: a related pair of meta data and payload, with its own boundary. */
  function ReadPart(text: string): Option<Part> {
    match ReadHeader(text)
    case None => None
    case Some((kind, content)) =>
      if !(RELATED <= kind) || !IsBoundary(kind[|RELATED|..]) then None
      else
        var sub: Boundary := kind[|RELATED|..];
        match SplitMultipart(content, sub)
        case None => None
        case Some(pair) =>
          if |pair| != 2 then None
          else
            match (ReadHeader(pair[0]), ReadHeader(pair[1]))
            case (Some((metaKind, meta)), Some((contentType, payload))) =>
              if metaKind == META_KIND then Some(Part(sub, meta, contentType, payload)) else None
            case _ => None
  }

  function ReadEach(texts: seq<string>): (r: seq<Option<Part>>)
    ensures |r| == |texts|
    ensures forall k :: 0 <= k < |texts| ==> r[k] == ReadPart(texts[k])
  {
    if texts == [] then [] else [ReadPart(texts[0])] + ReadEach(texts[1..])
  }

  function Collect<X>(options: seq<Option<X>>): Option<seq<X>> {
    if options == [] then Some([])
    else if options[0].None? || Collect(options[1..]).None? then None
    else Some([options[0].value] + Collect(options[1..]).value)
  }

  function ReadParts(texts: seq<string>): Option<seq<Part>> {
    Collect(ReadEach(texts))
  }

  /** All items of a body. */
  function Receive(body: string, boundary: Boundary): Option<seq<Part>> {
    match SplitMultipart(body, boundary)
    case None => None
    case Some(texts) => ReadParts(texts)
  }

  // ----- bodies put together from their parts -----

  function Assembled(delimiter: string, texts: seq<string>): string {
    if texts == [] then delimiter + DASHES
    else delimiter + (LINE + (texts[0] + LINE + Assembled(delimiter, texts[1..])))
  }

  lemma SearchInContent(delimiter: string, line: string, text: string, rest: string, content: string, i: nat)
    requires EndsAtFirst(text + line, delimiter)
    requires content == text + line + (delimiter + rest) && i == |text| + |line|
    ensures Search(content, delimiter) == Some(i)
    ensures LineBefore(content, i, line) == Some(text) && After(content, i, delimiter) == rest
  {
    assert content == (text + line) + delimiter + rest;
    SearchFinds(text + line, delimiter, rest);
    assert content[i - |line|..i] == line && content[..i - |line|] == text;
  }

  lemma LineInFront(sign: string, line: string, content: string)
    requires sign != "" && line != "" && sign[0] != line[0]
    ensures !(sign <= line + content) && line <= line + content && After(line + content, 0, line) == content
  {
    assert (line + content)[0] == line[0];
  }

  lemma SplitStep(delimiter: string, sign: string, line: string, text: string, rest: string, others: seq<string>)
    requires delimiter != "" && sign != "" && line != "" && sign[0] != line[0]
    requires EndsAtFirst(text + line, delimiter)
    requires SplitLines(rest, delimiter, sign, line) == Some(others)
    ensures SplitLines(line + (text + line + (delimiter + rest)), delimiter, sign, line) == Some([text] + others)
  {
    var content, i := text + line + (delimiter + rest), |text| + |line|;
    LineInFront(sign, line, content);
    SearchInContent(delimiter, line, text, rest, content, i);
  }

  lemma SplitOne(delimiter: string, text: string, rest: string, others: seq<string>)
    requires delimiter != "" && EndsAtFirst(text + LINE, delimiter)
    requires SplitBehind(rest, delimiter) == Some(others)
    ensures SplitBehind(LINE + (text + LINE + (delimiter + rest)), delimiter) == Some([text] + others)
  {
    SplitStep(delimiter, DASHES, LINE, text, rest, others);
  }

  lemma Behind(front: string, back: string)
    ensures front <= front + back && (front + back)[|front|..] == back
  {
  }

  ghost predicate AllEndAtFirst(texts: seq<string>, delimiter: string) {
    texts == [] || (EndsAtFirst(texts[0] + LINE, delimiter) && AllEndAtFirst(texts[1..], delimiter))
  }

  lemma AssembledFirst(delimiter: string, texts: seq<string>, others: seq<string>, rest: string, behind: string)
    requires texts != [] && others == texts[1..] && Assembled(delimiter, others) == delimiter + rest
    requires behind == LINE + (texts[0] + LINE + (delimiter + rest))
    ensures Assembled(delimiter, texts) == delimiter + behind
  {
  }

  /** One more text in front. */
  lemma SplitMore(delimiter: string, texts: seq<string>, others: seq<string>, rest: string, behind: string)
    requires delimiter != "" && texts != [] && EndsAtFirst(texts[0] + LINE, delimiter) && others == texts[1..]
    requires behind == LINE + (texts[0] + LINE + (delimiter + rest)) && SplitBehind(rest, delimiter) == Some(others)
    ensures SplitBehind(behind, delimiter) == Some(texts)
  {
    SplitOne(delimiter, texts[0], rest, others);
    assert texts == [texts[0]] + others;
  }

  lemma SplitWhole(delimiter: string, body: string, behind: string, texts: seq<string>)
    requires delimiter != "" && body == delimiter + behind && SplitBehind(behind, delimiter) == Some(texts)
    ensures delimiter <= body && SplitBehind(body[|delimiter|..], delimiter) == Some(texts)
  {
    Behind(delimiter, behind);
  }

  /** Splitting undoes assembling if no text contains the delimiter. */
  lemma {:induction false} SplitAssembled(delimiter: string, texts: seq<string>)
    requires delimiter != "" && AllEndAtFirst(texts, delimiter)
    ensures delimiter <= Assembled(delimiter, texts)
    ensures SplitBehind(Assembled(delimiter, texts)[|delimiter|..], delimiter) == Some(texts)
    decreases |texts|
  {
    var body := Assembled(delimiter, texts);
    if texts == [] {
      assert body[|delimiter|..] == DASHES;
    } else {
      var others := texts[1..];
      SplitAssembled(delimiter, others);
      var rest := Assembled(delimiter, others)[|delimiter|..];
      assert Assembled(delimiter, others) == delimiter + rest;
      var behind := LINE + (texts[0] + LINE + (delimiter + rest));
      AssembledFirst(delimiter, texts, others, rest, behind);
      SplitMore(delimiter, texts, others, rest, behind);
      SplitWhole(delimiter, body, behind, texts);
    }
  }

  // ----- where delimiters cannot occur -----

  /** The characters a delimiter is made of. */
  predicate IsDelimiterCharacter(c: char) {
    c == '-' || IsBoundaryCharacter(c)
  }

  function Delimiter(boundary: Boundary): string {
    DASHES + boundary
  }

  lemma DelimiterCharacters(boundary: Boundary)
    ensures |Delimiter(boundary)| == 22
    ensures forall i :: 0 <= i < 22 ==> IsDelimiterCharacter(Delimiter(boundary)[i])
    ensures Delimiter(boundary)[0] == '-' && Delimiter(boundary)[1] == '-' && Delimiter(boundary)[2] != '-'
  {
    assert Delimiter(boundary)[2] == boundary[0];
    assert boundary[0] in boundary;
    forall i | 0 <= i < 22
      ensures IsDelimiterCharacter(Delimiter(boundary)[i])
    {
      if i >= 2 {
        assert Delimiter(boundary)[i] == boundary[i - 2] && boundary[i - 2] in boundary;
      }
    }
  }

  lemma ShortIsAbsent(s: string, boundary: Boundary)
    requires |s| < 22
    ensures Absent(s, Delimiter(boundary))
  {
    DelimiterCharacters(boundary);
  }

  /** What occurs in two texts with a separator between them is in one of them, or contains the separator. */
  lemma OccursInOne(a: string, separator: char, b: string, wanted: string, i: nat)
    requires OccursAt(a + [separator] + b, wanted, i)
    ensures OccursAt(a, wanted, i) || OccursAt(b, wanted, i - |a| - 1) || separator in wanted
  {
    var s := a + [separator] + b;
    if i + |wanted| <= |a| {
      assert s[i..i + |wanted|] == a[i..i + |wanted|];
    } else if i > |a| {
      var j := i - |a| - 1;
      assert s[i..i + |wanted|] == b[j..j + |wanted|];
    } else {
      assert wanted[|a| - i] == s[|a|] == separator;
    }
  }

  /** No delimiter reaches across a character that it does not contain. */
  lemma AbsentAcross(a: string, separator: char, b: string, boundary: Boundary)
    requires !IsDelimiterCharacter(separator)
    requires Absent(a, Delimiter(boundary)) && Absent(b, Delimiter(boundary))
    ensures Absent(a + [separator] + b, Delimiter(boundary))
  {
    var d := Delimiter(boundary);
    DelimiterCharacters(boundary);
    assert separator !in d;
    forall i
      ensures !OccursAt(a + [separator] + b, d, i)
    {
      if OccursAt(a + [separator] + b, d, i) {
        OccursInOne(a, separator, b, d, i);
      }
    }
  }

  /** A text without the delimiter that ends with a line break ends at the first delimiter. */
  lemma AbsentEndsAtFirst(s: string, boundary: Boundary)
    requires Absent(s, Delimiter(boundary))
    requires s != "" && !IsDelimiterCharacter(s[|s| - 1])
    ensures EndsAtFirst(s, Delimiter(boundary))
  {
    var d := Delimiter(boundary);
    DelimiterCharacters(boundary);
    forall i | 0 <= i < |s|
      ensures !OccursAt(s + d, d, i)
    {
      if i + |d| <= |s| {
        assert (s + d)[i..i + |d|] == s[i..i + |d|];
        assert !OccursAt(s, d, i);
      } else {
        var j := |s| - 1 - i;
        assert (s + d)[i..i + |d|][j] == s[|s| - 1];
      }
    }
  }

  /** Delimiters of different boundaries do not occur in each other's lines. */
  lemma OtherDelimiterIsAbsent(boundary: Boundary, sub: Boundary)
    requires boundary != sub
    ensures Absent(Delimiter(sub), Delimiter(boundary))
    ensures Absent(Delimiter(sub) + DASHES, Delimiter(boundary))
  {
    var d, s := Delimiter(boundary), Delimiter(sub);
    DelimiterCharacters(boundary);
    DelimiterCharacters(sub);
    assert s != d by {
      assert s[2..] == sub && d[2..] == boundary;
    }
    forall i
      ensures !OccursAt(s, d, i) && !OccursAt(s + DASHES, d, i)
    {
      var t := s + DASHES;
      assert s[0..22] == s && t[0..22] == s;
      assert t[1..23][1] == t[2] && t[2..24][0] == t[2];
    }
  }

  // ----- the layout of a tuple -----

  function Headered(kind: string, content: string): string {
    HEADER_NAME + (kind + (EMPTY_LINE + content))
  }

  function InnerTexts(part: Part): seq<string> {
    [Headered(META_KIND, part.meta), Headered(part.contentType, part.payload)]
  }

  function OuterText(part: Part): string {
    Headered(RELATED + part.sub, Assembled(Delimiter(part.sub), InnerTexts(part)))
  }

  /** Six pieces, nested to the right. */
  function Six(boundary: Boundary, part: Part, k: nat): string {
    Piece(boundary, part, k) + (Piece(boundary, part, k + 1) + (Piece(boundary, part, k + 2)
    + (Piece(boundary, part, k + 3) + (Piece(boundary, part, k + 4) + Piece(boundary, part, k + 5)))))
  }

  lemma Nest6(w: string, a: string, b: string, c: string, d: string, e: string, f: string)
    ensures w + a + b + c + d + e + f == w + (a + (b + (c + (d + (e + f)))))
  {
  }

  lemma WrittenNext(boundary: Boundary, part: Part, k: nat, next: nat)
    requires next == k + 1 <= STATE_END
    ensures Written(boundary, part, next) == Written(boundary, part, k) + Piece(boundary, part, k)
  {
  }

  lemma SixStates(boundary: Boundary, part: Part, k: nat)
    requires k + 6 <= STATE_END
    ensures Written(boundary, part, k + 6) == Written(boundary, part, k) + Six(boundary, part, k)
  {
    WrittenNext(boundary, part, k, k + 1);
    WrittenNext(boundary, part, k + 1, k + 2);
    WrittenNext(boundary, part, k + 2, k + 3);
    WrittenNext(boundary, part, k + 3, k + 4);
    WrittenNext(boundary, part, k + 4, k + 5);
    WrittenNext(boundary, part, k + 5, k + 6);
    Nest6(Written(boundary, part, k), Piece(boundary, part, k), Piece(boundary, part, k + 1),
          Piece(boundary, part, k + 2), Piece(boundary, part, k + 3), Piece(boundary, part, k + 4),
          Piece(boundary, part, k + 5));
  }

  lemma ThreeBlocks(a: string, b: string, c: string, d: string)
    ensures ("" + a) + b + c + d == a + (b + (c + d))
  {
  }

  lemma TupleBlocks(boundary: Boundary, part: Part)
    ensures Tuple(boundary, part)
            == Six(boundary, part, 0) + (Six(boundary, part, 6) + (Six(boundary, part, 12) + CloseLine(part.sub)))
  {
    SixStates(boundary, part, 0);
    SixStates(boundary, part, 6);
    SixStates(boundary, part, 12);
    ThreeBlocks(Six(boundary, part, 0), Six(boundary, part, 6), Six(boundary, part, 12), CloseLine(part.sub));
  }

  /** A first block and what follows it: sign, boundary, line break, then the header of the item. */
  lemma NestOuter(sign: string, b: string, line: string, key: string, related: string, name: string, sub: string,
                  gap: string, rest: string)
    ensures (sign + b + line + (key + (related + (name + (sub + gap))))) + rest
            == (sign + b) + (line + (key + (((related + name) + sub) + (gap + rest))))
  {
  }

  lemma NestInner(sign: string, sub: string, line: string, key: string, kind: string, gap: string, content: string, rest: string)
    ensures (sign + sub + line + (key + (kind + (gap + (content + line))))) + rest
            == (sign + sub) + (line + ((key + (kind + (gap + content))) + line + rest))
  {
  }

  lemma NestEnd(d: string, line: string, h1: string, h2: string, sign: string)
    ensures d + (line + (h1 + line + (d + (line + (h2 + line + (d + sign + line))))))
            == d + (line + (h1 + line + (d + (line + (h2 + line + (d + sign)))))) + line
  {
  }

  lemma NestHeader(key: string, kind: string, gap: string, content: string, line: string)
    ensures key + (kind + (gap + (content + line))) == (key + (kind + (gap + content))) + line
  {
  }

  lemma SixOuter(boundary: Boundary, part: Part)
    ensures Six(boundary, part, 0)
            == DASHES + boundary + LINE
               + (HEADER_NAME + (RELATED_KIND + (BOUNDARY_PARAMETER + (part.sub + EMPTY_LINE))))
  {
    assert Piece(boundary, part, 0) == OpenLine(boundary) && Piece(boundary, part, 1) == HEADER_NAME;
    assert Piece(boundary, part, 2) == RELATED_KIND && Piece(boundary, part, 3) == BOUNDARY_PARAMETER;
    assert Piece(boundary, part, 4) == part.sub && Piece(boundary, part, 5) == EMPTY_LINE;
  }

  lemma BlockOuter(boundary: Boundary, part: Part, rest: string)
    ensures Six(boundary, part, 0) + rest
            == Delimiter(boundary) + (LINE + (HEADER_NAME + ((RELATED + part.sub) + (EMPTY_LINE + rest))))
  {
    SixOuter(boundary, part);
    NestOuter(DASHES, boundary, LINE, HEADER_NAME, RELATED_KIND, BOUNDARY_PARAMETER, part.sub,
              EMPTY_LINE, rest);
  }

  lemma SixMeta(boundary: Boundary, part: Part)
    ensures Six(boundary, part, 6)
            == DASHES + part.sub + LINE
               + (HEADER_NAME + (META_KIND + (EMPTY_LINE + (part.meta + LINE))))
  {
    assert Piece(boundary, part, 6) == OpenLine(part.sub) && Piece(boundary, part, 7) == HEADER_NAME;
    assert Piece(boundary, part, 8) == META_KIND && Piece(boundary, part, 9) == EMPTY_LINE;
    assert Piece(boundary, part, 10) == part.meta && Piece(boundary, part, 11) == LINE;
  }

  lemma SixPayload(boundary: Boundary, part: Part)
    ensures Six(boundary, part, 12)
            == DASHES + part.sub + LINE
               + (HEADER_NAME + (part.contentType + (EMPTY_LINE + (part.payload + LINE))))
  {
    assert Piece(boundary, part, 12) == OpenLine(part.sub) && Piece(boundary, part, 13) == HEADER_NAME;
    assert Piece(boundary, part, 14) == part.contentType && Piece(boundary, part, 15) == EMPTY_LINE;
    assert Piece(boundary, part, 16) == part.payload && Piece(boundary, part, 17) == LINE;
  }

  lemma BlockMeta(boundary: Boundary, part: Part, rest: string)
    ensures Six(boundary, part, 6) + rest
            == Delimiter(part.sub) + (LINE + (Headered(META_KIND, part.meta) + LINE + rest))
  {
    SixMeta(boundary, part);
    NestInner(DASHES, part.sub, LINE, HEADER_NAME, META_KIND, EMPTY_LINE, part.meta, rest);
  }

  lemma BlockPayload(boundary: Boundary, part: Part, rest: string)
    ensures Six(boundary, part, 12) + rest
            == Delimiter(part.sub) + (LINE + (Headered(part.contentType, part.payload) + LINE + rest))
  {
    SixPayload(boundary, part);
    NestInner(DASHES, part.sub, LINE, HEADER_NAME, part.contentType, EMPTY_LINE, part.payload, rest);
  }

  lemma InnerAssembled(part: Part)
    ensures Assembled(Delimiter(part.sub), InnerTexts(part))
            == var d := Delimiter(part.sub);
               d + (LINE + (Headered(META_KIND, part.meta) + LINE
               + (d + (LINE + (Headered(part.contentType, part.payload) + LINE + (d + DASHES))))))
  {
    var d, texts := Delimiter(part.sub), InnerTexts(part);
    assert [texts[1]][1..] == [];
    assert Assembled(d, []) == d + DASHES;
    assert Assembled(d, [texts[1]]) == d + (LINE + (texts[1] + LINE + Assembled(d, [])));
    assert texts[1..] == [texts[1]];
  }

  /** What the 19 states write is one assembled part: a header that names the item's own boundary and,
      under that boundary, the meta data and the payload. */
  lemma TupleLayout(boundary: Boundary, part: Part)
    ensures Tuple(boundary, part) == Delimiter(boundary) + (LINE + (OuterText(part) + LINE))
  {
    var d, h1, h2 := Delimiter(part.sub), Headered(META_KIND, part.meta), Headered(part.contentType, part.payload);
    TupleBlocks(boundary, part);
    BlockPayload(boundary, part, CloseLine(part.sub));
    var second := Six(boundary, part, 12) + CloseLine(part.sub);
    BlockMeta(boundary, part, second);
    var first := Six(boundary, part, 6) + second;
    BlockOuter(boundary, part, first);
    InnerAssembled(part);
    NestEnd(d, LINE, h1, h2, DASHES);
    var content := Assembled(d, InnerTexts(part));
    assert first == content + LINE;
    NestHeader(HEADER_NAME, RELATED + part.sub, EMPTY_LINE, content, LINE);
  }

  // ----- delimiters in laid out texts -----

  lemma AbsentAcrossLine(a: string, b: string, boundary: Boundary)
    requires Absent(a, Delimiter(boundary)) && Absent(b, Delimiter(boundary))
    ensures Absent(a + (LINE + b), Delimiter(boundary))
  {
    ShortIsAbsent("", boundary);
    AbsentAcross("", '\n', b, boundary);
    AbsentAcross(a, '\r', "" + ['\n'] + b, boundary);
    assert a + ['\r'] + ("" + ['\n'] + b) == a + (LINE + b);
  }

  lemma AbsentBeforeLine(a: string, boundary: Boundary)
    requires Absent(a, Delimiter(boundary))
    ensures Absent(a + LINE, Delimiter(boundary))
    ensures EndsAtFirst(a + LINE, Delimiter(boundary))
  {
    ShortIsAbsent("", boundary);
    AbsentAcrossLine(a, "", boundary);
    assert LINE + "" == LINE;
    AbsentEndsAtFirst(a + LINE, boundary);
  }

  lemma HeaderedAbsent(kind: string, content: string, boundary: Boundary)
    requires Absent(kind, Delimiter(boundary)) && Absent(content, Delimiter(boundary))
    ensures Absent(Headered(kind, content), Delimiter(boundary))
  {
    ShortIsAbsent("", boundary);
    AbsentAcrossLine("", content, boundary);
    AbsentAcrossLine(kind, "" + (LINE + content), boundary);
    var rest := kind + (LINE + ("" + (LINE + content)));
    assert rest == kind + (EMPTY_LINE + content);
    ShortIsAbsent("Content-Type:", boundary);
    AbsentAcross("Content-Type:", ' ', rest, boundary);
    assert "Content-Type:" + [' '] == HEADER_NAME;
  }

  /** A text in which two foreign characters leave no room for a delimiter. */
  lemma TwoSeparators(s: string, p: nat, q: nat, boundary: Boundary)
    requires p < q < |s| && p < 22 && q - p <= 22 && |s| - q <= 22
    requires !IsDelimiterCharacter(s[p]) && !IsDelimiterCharacter(s[q])
    ensures Absent(s, Delimiter(boundary))
  {
    var d := Delimiter(boundary);
    DelimiterCharacters(boundary);
    forall i
      ensures !OccursAt(s, d, i)
    {
      if 0 <= i <= |s| - 22 {
        var k := if i <= p then p else q;
        assert s[i..i + 22][k - i] == s[k];
      }
    }
  }

  lemma MetaKindAbsent(boundary: Boundary)
    ensures Absent(META_KIND, Delimiter(boundary))
  {
    TwoSeparators(META_KIND, 11, 23, boundary);
  }

  lemma RelatedKindAbsent(sub: Boundary, boundary: Boundary)
    ensures Absent(RELATED + sub, Delimiter(boundary))
  {
    var s := RELATED + sub;
    assert RELATED[17] == BOUNDARY_PARAMETER[0] && RELATED[26] == BOUNDARY_PARAMETER[9];
    assert s[17] == RELATED[17] && s[26] == RELATED[26];
    TwoSeparators(s, 17, 26, boundary);
  }

  lemma {:induction false} AssembledAbsent(sub: Boundary, texts: seq<string>, boundary: Boundary)
    requires sub != boundary
    requires forall k :: 0 <= k < |texts| ==> Absent(texts[k], Delimiter(boundary))
    ensures Absent(Assembled(Delimiter(sub), texts), Delimiter(boundary))
    decreases |texts|
  {
    OtherDelimiterIsAbsent(boundary, sub);
    if texts != [] {
      var others := Assembled(Delimiter(sub), texts[1..]);
      AssembledAbsent(sub, texts[1..], boundary);
      assert Absent(texts[0], Delimiter(boundary));
      AbsentAcrossLine(texts[0], others, boundary);
      assert texts[0] + LINE + others == texts[0] + (LINE + others);
      AbsentAcrossLine(Delimiter(sub), texts[0] + LINE + others, boundary);
    }
  }

  // ----- round trip -----

  /** The random boundaries do not collide with each other or with what is sent. */
  ghost predicate Separated(boundary: Boundary, part: Part) {
    && part.sub != boundary
    && forall b: Boundary | b == boundary || b == part.sub ::
         && Absent(part.meta, Delimiter(b))
         && Absent(part.contentType, Delimiter(b))
         && Absent(part.payload, Delimiter(b))
  }

  /** The content type is a single header line. */
  ghost predicate OneLine(part: Part) {
    Absent(part.contentType, LINE)
  }

  lemma KindEndsAtFirst(kind: string)
    requires Absent(kind, LINE)
    ensures EndsAtFirst(kind, LINE)
  {
    var s := kind + LINE;
    forall i | 0 <= i < |kind|
      ensures !OccursAt(s, LINE, i)
    {
      if i + 2 <= |kind| {
        assert s[i..i + 2] == kind[i..i + 2];
        assert !OccursAt(kind, LINE, i);
      } else {
        assert s[i..i + 2][1] == '\r';
      }
    }
  }

  /** A header is read back if, and only if, its value is a single line. */
  lemma HeaderRoundTrip(kind: string, content: string)
    ensures ReadHeader(Headered(kind, content)) == Some((kind, content)) <==> Absent(kind, LINE)
  {
    var line := kind + (EMPTY_LINE + content);
    Behind(HEADER_NAME, line);
    assert line == kind + LINE + (LINE + content);
    if Absent(kind, LINE) {
      KindEndsAtFirst(kind);
      SearchFinds(kind, LINE, LINE + content);
      assert line[|kind| + 2..] == LINE + content;
      assert line[..|kind|] == kind && line[|kind| + 4..] == content;
    } else {
      var i :| OccursAt(kind, LINE, i);
      assert line[i..i + 2] == kind[i..i + 2];
      SearchStopsBy(line, LINE, i);
    }
  }

  lemma {:induction false} SearchStopsBy(s: string, wanted: string, i: nat)
    requires OccursAt(s, wanted, i)
    ensures Search(s, wanted).Some? && Search(s, wanted).value <= i
    decreases i
  {
    if i > 0 && !(wanted <= s) {
      assert s[1..][i - 1..i - 1 + |wanted|] == s[i..i + |wanted|];
      SearchStopsBy(s[1..], wanted, i - 1);
    }
  }

  lemma RelatedHeader(sub: Boundary, content: string)
    ensures ReadHeader(Headered(RELATED + sub, content)) == Some((RELATED + sub, content))
  {
    var kind := RELATED + sub;
    forall i
      ensures !OccursAt(kind, LINE, i)
    {
      if 0 <= i <= |kind| - 2 {
        assert kind[i..i + 2][0] == kind[i];
        NoReturnInKind(sub, i);
      }
    }
    HeaderRoundTrip(kind, content);
  }

  lemma NoReturnInKind(sub: Boundary, i: nat)
    requires i < |RELATED + sub|
    ensures (RELATED + sub)[i] != '\r'
  {
    if i >= |RELATED| {
      assert (RELATED + sub)[i] == sub[i - |RELATED|] && sub[i - |RELATED|] in sub;
    }
  }

  lemma NoReturnInMeta(i: nat)
    requires i < |META_KIND|
    ensures META_KIND[i] != '\r'
  {
  }

  lemma MetaHeader(content: string)
    ensures ReadHeader(Headered(META_KIND, content)) == Some((META_KIND, content))
  {
    var kind := META_KIND;
    forall i
      ensures !OccursAt(kind, LINE, i)
    {
      if 0 <= i <= |kind| - 2 {
        assert kind[i..i + 2][0] == kind[i];
        NoReturnInMeta(i);
      }
    }
    HeaderRoundTrip(kind, content);
  }

  lemma InnerSplit(part: Part)
    requires Absent(part.meta, Delimiter(part.sub))
    requires Absent(part.contentType, Delimiter(part.sub)) && Absent(part.payload, Delimiter(part.sub))
    ensures SplitMultipart(Assembled(Delimiter(part.sub), InnerTexts(part)), part.sub) == Some(InnerTexts(part))
  {
    MetaKindAbsent(part.sub);
    HeaderedAbsent(META_KIND, part.meta, part.sub);
    HeaderedAbsent(part.contentType, part.payload, part.sub);
    AbsentBeforeLine(Headered(META_KIND, part.meta), part.sub);
    AbsentBeforeLine(Headered(part.contentType, part.payload), part.sub);
    DelimiterCharacters(part.sub);
    SplitAssembled(Delimiter(part.sub), InnerTexts(part));
  }

  /** Reading one laid out item gives the item back exactly if its content type is one line. */
  lemma PartRoundTrip(boundary: Boundary, part: Part)
    requires Separated(boundary, part)
    ensures ReadPart(OuterText(part)) == Some(part) <==> OneLine(part)
  {
    var content := Assembled(Delimiter(part.sub), InnerTexts(part));
    RelatedHeader(part.sub, content);
    Behind(RELATED, part.sub);
    InnerSplit(part);
    MetaHeader(part.meta);
    HeaderRoundTrip(part.contentType, part.payload);
  }

  lemma OuterTextEndsAtFirst(boundary: Boundary, part: Part)
    requires Separated(boundary, part)
    ensures EndsAtFirst(OuterText(part) + LINE, Delimiter(boundary))
  {
    MetaKindAbsent(boundary);
    HeaderedAbsent(META_KIND, part.meta, boundary);
    HeaderedAbsent(part.contentType, part.payload, boundary);
    AssembledAbsent(part.sub, InnerTexts(part), boundary);
    RelatedKindAbsent(part.sub, boundary);
    HeaderedAbsent(RELATED + part.sub, Assembled(Delimiter(part.sub), InnerTexts(part)), boundary);
    AbsentBeforeLine(OuterText(part), boundary);
  }

  function OuterTexts(parts: seq<Part>): (r: seq<string>)
    ensures |r| == |parts|
    ensures forall k :: 0 <= k < |parts| ==> r[k] == OuterText(parts[k])
  {
    if parts == [] then [] else [OuterText(parts[0])] + OuterTexts(parts[1..])
  }

  /** The tuples of several items, in order. */
  function Tuples(boundary: Boundary, parts: seq<Part>): string {
    if parts == [] then "" else Tuple(boundary, parts[0]) + Tuples(boundary, parts[1..])
  }

  /** A finished body. */
  function Body(boundary: Boundary, parts: seq<Part>): string {
    Tuples(boundary, parts) + Closing(boundary)
  }

  function TuplesLength(parts: seq<Part>): nat {
    if parts == [] then 0 else TupleLength(parts[0]) + TuplesLength(parts[1..])
  }

  lemma {:induction false} TuplesSize(boundary: Boundary, parts: seq<Part>)
    ensures |Tuples(boundary, parts)| == TuplesLength(parts)
  {
    if parts != [] {
      TupleSize(boundary, parts[0]);
      TuplesSize(boundary, parts[1..]);
    }
  }

  lemma NestBody(d: string, line: string, text: string, more: string, end: string)
    ensures ((d + (line + (text + line))) + more) + end == d + (line + (text + line + (more + end)))
  {
  }

  lemma {:induction false} BodyIsAssembled(boundary: Boundary, parts: seq<Part>)
    ensures Body(boundary, parts) == Assembled(Delimiter(boundary), OuterTexts(parts))
  {
    if parts == [] {
      assert Body(boundary, parts) == Closing(boundary);
    } else {
      BodyIsAssembled(boundary, parts[1..]);
      TupleLayout(boundary, parts[0]);
      NestBody(Delimiter(boundary), LINE, OuterText(parts[0]), Tuples(boundary, parts[1..]), Closing(boundary));
      assert OuterTexts(parts)[1..] == OuterTexts(parts[1..]);
    }
  }

  lemma {:induction false} CollectExactly<X>(options: seq<Option<X>>, values: seq<X>)
    requires |options| == |values|
    ensures Collect(options) == Some(values) <==> forall k :: 0 <= k < |values| ==> options[k] == Some(values[k])
  {
    if values != [] {
      CollectExactly(options[1..], values[1..]);
      assert values == [values[0]] + values[1..];
      assert forall k :: 1 <= k < |values| ==> options[k] == options[1..][k - 1] && values[k] == values[1..][k - 1];
    }
  }

  lemma ReceivesWhatIsSplit(body: string, boundary: Boundary, texts: seq<string>)
    requires var d := Delimiter(boundary); d <= body && SplitBehind(body[|d|..], d) == Some(texts)
    ensures Receive(body, boundary) == Collect(ReadEach(texts))
  {
  }

  lemma {:induction false} TextsEndAtFirst(boundary: Boundary, parts: seq<Part>)
    requires forall k :: 0 <= k < |parts| ==> Separated(boundary, parts[k])
    ensures AllEndAtFirst(OuterTexts(parts), Delimiter(boundary))
  {
    if parts != [] {
      OuterTextEndsAtFirst(boundary, parts[0]);
      TextsEndAtFirst(boundary, parts[1..]);
      assert OuterTexts(parts)[1..] == OuterTexts(parts[1..]);
    }
  }

  lemma TextsReadIff(boundary: Boundary, parts: seq<Part>, texts: seq<string>)
    requires texts == OuterTexts(parts)
    requires forall k :: 0 <= k < |parts| ==> Separated(boundary, parts[k])
    ensures Collect(ReadEach(texts)) == Some(parts) <==> forall k :: 0 <= k < |parts| ==> OneLine(parts[k])
  {
    var options := ReadEach(texts);
    forall k | 0 <= k < |parts| ensures options[k] == Some(parts[k]) <==> OneLine(parts[k]) {
      PartRoundTrip(boundary, parts[k]);
      assert options[k] == ReadPart(texts[k]);
    }
    CollectExactly(options, parts);
  }

  /** The round trip: whatever the receiver takes out of a finished body is exactly the sequence of
      items that were put in, with their own boundaries, meta data, content types and payloads, in
      order - if, and only if, every content type is a single line.  Nothing else is required but
      that the random boundaries do not collide. */
  lemma BodyRoundTrip(boundary: Boundary, parts: seq<Part>)
    requires forall k :: 0 <= k < |parts| ==> Separated(boundary, parts[k])
    ensures Receive(Body(boundary, parts), boundary) == Some(parts)
            <==> forall k :: 0 <= k < |parts| ==> OneLine(parts[k])
  {
    var d, texts := Delimiter(boundary), OuterTexts(parts);
    BodyIsAssembled(boundary, parts);
    DelimiterCharacters(boundary);
    TextsEndAtFirst(boundary, parts);
    SplitAssembled(d, texts);
    ReceivesWhatIsSplit(Body(boundary, parts), boundary, texts);
    TextsReadIff(boundary, parts, texts);
  }
}
