/** The multipart form in which items travel, and the writer that produces it piece by piece in a
    caller supplied buffer. */
module Multipart {
  import opened Core

  const BOUNDARY_LENGTH := 20

  predicate IsBoundaryCharacter(c: char) {
    '0' <= c <= '9' || 'a' <= c <= 'z' || 'A' <= c <= 'Z'
  }

  type Boundary = s: string | |s| == BOUNDARY_LENGTH && forall c :: c in s ==> IsBoundaryCharacter(c)
    witness seq(20, _ => '0')

  const BOUNDARY_SIGN := "--"
  const CONTENT_TYPE_KEY := "Content-Type: "
  const MULTIPART_RELATED := "multipart/related"
  const BOUNDARY_KEY := ";boundary="
  const ENDLINE := "\r\n"
  const DOUBLE_ENDLINE := "\r\n\r\n"
  const META_JSON := "application/vnd.siemens.mindsphere.meta+json"

  const BOUNDARY_SIGN_LENGTH := 2
  const CONTENT_TYPE_LENGTH := 14
  const BOUNDARY_KEY_LENGTH := 10
  const DOUBLE_ENDLINE_LENGTH := 4
  const ENDLINE_LENGTH := DOUBLE_ENDLINE_LENGTH / 2
  const MULTIPART_RELATED_LENGTH := 17
  const META_JSON_LENGTH := 44

  lemma ConstantLengths()
    ensures |BOUNDARY_SIGN| == BOUNDARY_SIGN_LENGTH && |CONTENT_TYPE_KEY| == CONTENT_TYPE_LENGTH
    ensures |BOUNDARY_KEY| == BOUNDARY_KEY_LENGTH && |DOUBLE_ENDLINE| == DOUBLE_ENDLINE_LENGTH
    ensures |ENDLINE| == ENDLINE_LENGTH && |MULTIPART_RELATED| == MULTIPART_RELATED_LENGTH
    ensures |META_JSON| == META_JSON_LENGTH
  {
  }

  const MULTIPART_BASE_SIZE: nat :=
    5 * BOUNDARY_SIGN_LENGTH + 5 * BOUNDARY_LENGTH + 3 * CONTENT_TYPE_LENGTH + MULTIPART_RELATED_LENGTH
    + BOUNDARY_KEY_LENGTH + META_JSON_LENGTH + 12 * ENDLINE_LENGTH

  /** What the table demands before the meta data, and before the payload. */
  const SPACE_BEFORE_META: nat :=
    2 * BOUNDARY_SIGN_LENGTH + 3 * BOUNDARY_LENGTH + 2 * CONTENT_TYPE_LENGTH + MULTIPART_RELATED_LENGTH
    + BOUNDARY_KEY_LENGTH + META_JSON_LENGTH + 6 * ENDLINE_LENGTH

  const SPACE_BEFORE_PAYLOAD: nat :=
    SPACE_BEFORE_META + BOUNDARY_SIGN_LENGTH + BOUNDARY_LENGTH + CONTENT_TYPE_LENGTH + 4 * ENDLINE_LENGTH

  const MULTIPART_CLOSE_LENGTH: nat := BOUNDARY_LENGTH + 2 * BOUNDARY_SIGN_LENGTH

  // ----- the text of one item -----

  /** One item as it travels: its own boundary, its meta data, and its typed payload. */
  datatype Part = Part(sub: Boundary, meta: string, contentType: string, payload: string)

  function OpenLine(boundary: Boundary): string {
    BOUNDARY_SIGN + boundary + ENDLINE
  }

  function CloseLine(boundary: Boundary): string {
    BOUNDARY_SIGN + boundary + BOUNDARY_SIGN + ENDLINE
  }

  const STATE_ITEM_META_JSON := 10
  const STATE_CONTENT_TYPE_VALUE_PAYLOAD := 14
  const STATE_ITEM_PAYLOAD := 16
  const STATE_END := 19

  /** The space the writer demands before it enters a state; nothing for the variable pieces. */
  function SpaceNeeded(state: nat): nat
    requires state < STATE_END
  {
    match state
    case 0 => BOUNDARY_SIGN_LENGTH + BOUNDARY_LENGTH + ENDLINE_LENGTH
    case 1 => CONTENT_TYPE_LENGTH
    case 2 => MULTIPART_RELATED_LENGTH
    case 3 => BOUNDARY_KEY_LENGTH
    case 4 => BOUNDARY_LENGTH
    case 5 => DOUBLE_ENDLINE_LENGTH
    case 6 => BOUNDARY_SIGN_LENGTH + BOUNDARY_LENGTH + ENDLINE_LENGTH
    case 7 => CONTENT_TYPE_LENGTH
    case 8 => META_JSON_LENGTH
    case 9 => DOUBLE_ENDLINE_LENGTH
    case 10 => 0
    case 11 => ENDLINE_LENGTH
    case 12 => BOUNDARY_SIGN_LENGTH + BOUNDARY_LENGTH + ENDLINE_LENGTH
    case 13 => CONTENT_TYPE_LENGTH
    case 14 => 0
    case 15 => DOUBLE_ENDLINE_LENGTH
    case 16 => 0
    case 17 => ENDLINE_LENGTH
    case 18 => (2 * BOUNDARY_SIGN_LENGTH) + BOUNDARY_LENGTH + ENDLINE_LENGTH
  }

  /** The piece of a state that does not depend on the item. */
  function FixedPiece(boundary: Boundary, sub: Boundary, state: nat): string {
    match state
    case 0 => OpenLine(boundary)
    case 1 => CONTENT_TYPE_KEY
    case 2 => MULTIPART_RELATED
    case 3 => BOUNDARY_KEY
    case 4 => sub
    case 5 => DOUBLE_ENDLINE
    case 6 => OpenLine(sub)
    case 7 => CONTENT_TYPE_KEY
    case 8 => META_JSON
    case 9 => DOUBLE_ENDLINE
    case 11 => ENDLINE
    case 12 => OpenLine(sub)
    case 13 => CONTENT_TYPE_KEY
    case 15 => DOUBLE_ENDLINE
    case 17 => ENDLINE
    case 18 => CloseLine(sub)
    case _ => ""
  }

  function Piece(boundary: Boundary, part: Part, state: nat): string {
    if state == STATE_ITEM_META_JSON then part.meta
    else if state == STATE_CONTENT_TYPE_VALUE_PAYLOAD then part.contentType
    else if state == STATE_ITEM_PAYLOAD then part.payload
    else FixedPiece(boundary, part.sub, state)
  }

  /** The first pieces, joined. */
  function Written(boundary: Boundary, part: Part, states: nat): string
    requires states <= STATE_END
  {
    if states == 0 then "" else Written(boundary, part, states - 1) + Piece(boundary, part, states - 1)
  }

  function Tuple(boundary: Boundary, part: Part): string {
    Written(boundary, part, STATE_END)
  }

  function Closing(boundary: Boundary): string {
    BOUNDARY_SIGN + boundary + BOUNDARY_SIGN
  }

  lemma {:induction false} WrittenIsPrefix(boundary: Boundary, part: Part, low: nat, high: nat)
    requires low <= high <= STATE_END
    ensures |Written(boundary, part, low)| <= |Written(boundary, part, high)|
    decreases high
  {
    if low < high {
      WrittenIsPrefix(boundary, part, low, high - 1);
    }
  }

  /** What the table demands for the first states. */
  function FixedSize(states: nat): nat
    requires states <= STATE_END
  {
    if states == 0 then 0 else FixedSize(states - 1) + SpaceNeeded(states - 1)
  }

  function VariableSize(part: Part, state: nat): nat {
    if state == STATE_ITEM_META_JSON then |part.meta|
    else if state == STATE_CONTENT_TYPE_VALUE_PAYLOAD then |part.contentType|
    else if state == STATE_ITEM_PAYLOAD then |part.payload|
    else 0
  }

  /** The variable pieces among the first states. */
  function VariableSizes(part: Part, states: nat): nat {
    if states == 0 then 0 else VariableSizes(part, states - 1) + VariableSize(part, states - 1)
  }

  /** The space table is right: a piece has the demanded length if it is fixed, and its own if it is
      variable. */
  lemma PieceSize(boundary: Boundary, part: Part, state: nat)
    requires state < STATE_END
    ensures |Piece(boundary, part, state)| == SpaceNeeded(state) + VariableSize(part, state)
  {
    ConstantLengths();
  }

  lemma NextWritten(boundary: Boundary, part: Part, k: nat, next: nat)
    requires next == k + 1 <= STATE_END
    ensures |Written(boundary, part, next)| == |Written(boundary, part, k)| + |Piece(boundary, part, k)|
    ensures FixedSize(next) == FixedSize(k) + SpaceNeeded(k)
    ensures VariableSizes(part, next) == VariableSizes(part, k) + VariableSize(part, k)
  {
  }

  lemma {:induction false} WrittenSize(boundary: Boundary, part: Part, states: nat)
    requires states <= STATE_END
    ensures |Written(boundary, part, states)| == FixedSize(states) + VariableSizes(part, states)
  {
    if states > 0 {
      var k: nat := states - 1;
      WrittenSize(boundary, part, k);
      PieceSize(boundary, part, k);
      NextWritten(boundary, part, k, states);
    }
  }

  /** The constant used for the estimate is the sum of the table. */
  lemma BaseSizeIsTableSum()
    ensures FixedSize(STATE_END) == MULTIPART_BASE_SIZE
    ensures FixedSize(STATE_ITEM_META_JSON) == SPACE_BEFORE_META
    ensures FixedSize(STATE_ITEM_PAYLOAD) == SPACE_BEFORE_PAYLOAD
  {
    assert FixedSize(1) == 24 && FixedSize(2) == 38 && FixedSize(3) == 55 && FixedSize(4) == 65 && FixedSize(5) == 85;
    assert FixedSize(6) == 89 && FixedSize(7) == 113 && FixedSize(8) == 127 && FixedSize(9) == 171;
    assert FixedSize(10) == 175 && FixedSize(11) == 175 && FixedSize(12) == 177 && FixedSize(13) == 201;
    assert FixedSize(14) == 215 && FixedSize(15) == 215 && FixedSize(16) == 219 && FixedSize(17) == 219;
  }

  lemma ThreeVariablePieces(part: Part)
    ensures VariableSizes(part, STATE_ITEM_META_JSON) == 0
    ensures VariableSizes(part, STATE_ITEM_META_JSON + 1) == |part.meta|
    ensures VariableSizes(part, STATE_ITEM_PAYLOAD) == |part.meta| + |part.contentType|
    ensures VariableSizes(part, STATE_ITEM_PAYLOAD + 1) == |part.meta| + |part.contentType| + |part.payload|
    ensures VariableSizes(part, STATE_END) == |part.meta| + |part.contentType| + |part.payload|
  {
    assert VariableSizes(part, 1) == 0 && VariableSizes(part, 2) == 0 && VariableSizes(part, 4) == 0;
    assert VariableSizes(part, 6) == 0 && VariableSizes(part, 8) == 0;
    assert VariableSizes(part, 10) == 0 && VariableSizes(part, 12) == |part.meta|;
    assert VariableSizes(part, 14) == |part.meta|;
    assert VariableSizes(part, 16) == |part.meta| + |part.contentType|;
    assert VariableSizes(part, 18) == |part.meta| + |part.contentType| + |part.payload|;
  }

  function TupleLength(part: Part): nat {
    MULTIPART_BASE_SIZE + |part.meta| + |part.contentType| + |part.payload|
  }

  lemma TupleSize(boundary: Boundary, part: Part)
    ensures |Tuple(boundary, part)| == TupleLength(part)
  {
    WrittenSize(boundary, part, STATE_END);
    BaseSizeIsTableSum();
    ThreeVariablePieces(part);
  }

  // ----- where a tuple comes from -----

  /** What one read delivers when available characters are left. */
  function ChunkSize(available: nat, chunks: seq<nat>, k: nat): nat {
    if k < |chunks| then Min(available, chunks[k]) else available
  }

  /** What a sequence of reads delivers: reading stops at the end or at the first empty read. */
  function Delivered(content: string, chunks: seq<nat>, k: nat): string
    decreases |content|
  {
    var n := ChunkSize(|content|, chunks, k);
    if n == 0 then "" else content[..n] + Delivered(content[n..], chunks, k + 1)
  }

  /** A payload is JSON text, if its serializer succeeded, or comes from a callback.  A read without
      an entry in chunks delivers all that is asked for. */
  datatype Payload = FromJson(json: Obtained<string>) | FromCallback(content: string, chunks: seq<nat>) {
    function Text(): Option<string> {
      match this
      case FromJson(json) => json.ToOption()
      case FromCallback(content, chunks) => Some(Delivered(content, chunks, 0))
    }
  }

  /** What the writer is given for one item: a boundary that may not be generated, and JSON that may
      not be built. */
  datatype Source = Source(sub: Obtained<Boundary>, meta: Obtained<string>, contentType: string, payload: Payload) {
    /** The part the item becomes, if it can be written at all. */
    function ToPart(): Option<Part> {
      if sub.Failure? || meta.Failure? || payload.Text().None? then None
      else Some(Part(sub.value, meta.value, contentType, payload.Text().value))
    }
  }

  // ----- payload callbacks -----

  /** A text written over part of another one. */
  function Overwrite(s: string, at: nat, text: string): (r: string)
    requires at + |text| <= |s|
    ensures |r| == |s|
  {
    s[..at] + text + s[at + |text|..]
  }

  /** The state behind a payload callback: how far it has read, and what each call can deliver. */
  class PayloadReader {
    const content: string
    const chunks: seq<nat>
    var offset: nat
    var calls: nat

    constructor (content: string, chunks: seq<nat>)
      ensures this.content == content && this.chunks == chunks
      ensures offset == 0 && calls == 0
    {
      this.content, this.chunks := content, chunks;
      offset, calls := 0, 0;
    }

    method Read(buffer: array<char>, position: nat, count: nat) returns (n: nat)
      requires offset <= |content| && position + count <= buffer.Length
      modifies this, buffer
      ensures n == Min(count, ChunkSize(|content| - old(offset), chunks, old(calls)))
      ensures offset == old(offset) + n <= |content| && calls == old(calls) + 1
      ensures buffer[..] == Overwrite(old(buffer[..]), position, content[old(offset)..offset])
    {
      n := Min(count, ChunkSize(|content| - offset, chunks, calls));
      CopyTo(buffer, position, content[offset..offset + n]);
      offset, calls := offset + n, calls + 1;
    }
  }

  method CopyTo(buffer: array<char>, position: nat, text: string)
    requires position + |text| <= buffer.Length
    modifies buffer
    ensures buffer[..] == Overwrite(old(buffer[..]), position, text)
  {
    forall i | 0 <= i < |text| {
      buffer[position + i] := text[i];
    }
  }

  /** What the reads from now on deliver is the rest of the text. */
  ghost predicate Delivers(reader: PayloadReader, text: string, done: nat)
    reads reader
  {
    && reader.offset <= |reader.content| && done <= |text|
    && Delivered(reader.content[reader.offset..], reader.chunks, reader.calls) == text[done..]
  }

  /** One call of the callback. */
  method ReadOn(buffer: array<char>, at: nat, space: nat, reader: PayloadReader, ghost before: string, ghost start: nat,
                ghost limit: nat, ghost text: string, ghost done: nat)
    returns (end: nat, last: nat, ghost next: nat)
    requires 0 < space && limit == at + space && Delivers(reader, text, done)
    requires IsWritten(before, buffer[..], start, at, limit, text[..done])
    modifies buffer, reader
    ensures end == at + last && next == done + last <= |text| && (last == 0 ==> done == |text|)
    ensures IsWritten(before, buffer[..], start, end, limit, text[..next])
    ensures last != 0 && end < limit ==> Delivers(reader, text, next)
  {
    ghost var was, from, calls := buffer[..], reader.offset, reader.calls;
    last := reader.Read(buffer, at, space);
    end, next := at + last, done + last;
    DeliveredStep(reader.content, from, reader.offset, reader.chunks, calls, reader.calls, space, text, done, next);
    Overwritten(was, buffer[..], at, at, reader.content[from..reader.offset], end, limit);
    WroteMore(before, was, buffer[..], start, at, end, limit, text[..done], reader.content[from..reader.offset]);
  }

  /** Copies what the callback delivers.  It fails when the space is used up before an empty read
      tells that the payload is complete. */
  method AddCallbackPayload(buffer: array<char>, position: nat, remaining: nat, reader: PayloadReader)
    returns (code: Code, n: nat)
    requires 0 < remaining && position + remaining <= buffer.Length
    requires reader.offset == 0 && reader.calls == 0
    modifies buffer, reader
    ensures code == Ok || code == Fail
    ensures code == Ok <==> |Delivered(reader.content, reader.chunks, 0)| < remaining
    ensures code == Ok ==> n == |Delivered(reader.content, reader.chunks, 0)|
    ensures code == Ok ==> buffer[..][position..position + n] == Delivered(reader.content, reader.chunks, 0)
    ensures buffer[..][..position] == old(buffer[..])[..position]
    ensures buffer[..][position + remaining..] == old(buffer[..])[position + remaining..]
  {
    ghost var text, before, limit := Delivered(reader.content, reader.chunks, 0), buffer[..], position + remaining;
    ghost var done: nat := 0;
    assert reader.content[0..] == reader.content && text[0..] == text;
    var at, last := position, 1;
    while last != 0 && at != position + remaining
      invariant at == position + done && at <= limit && done <= |text|
      invariant IsWritten(before, buffer[..], position, at, limit, text[..done])
      invariant last != 0 && at < limit ==> Delivers(reader, text, done)
      invariant last == 0 ==> at < limit && done == |text|
      decreases limit - at, last != 0
    {
      at, last, done := ReadOn(buffer, at, position + remaining - at, reader, before, position, limit, text, done);
    }
    n := at - position;
    assert text[..|text|] == text;
    code := if n == remaining && last != 0 then Fail else Ok;
  }

  /** One read that is offered some space, seen from the text that all reads together deliver. */
  lemma DeliveredStep(content: string, from: nat, to: nat, chunks: seq<nat>, k: nat, after: nat, space: nat,
                      text: string, done: nat, next: nat)
    requires after == k + 1 && from <= to <= |content| && done <= |text| && 0 < space
    requires to - from == next - done == Min(space, ChunkSize(|content| - from, chunks, k))
    requires Delivered(content[from..], chunks, k) == text[done..]
    ensures from == to ==> done == |text|
    ensures next <= |text|
    ensures text[..next] == text[..done] + content[from..to]
    ensures from < to && to - from < space ==> Delivered(content[to..], chunks, after) == text[next..]
  {
    var m := ChunkSize(|content| - from, chunks, k);
    if m > 0 {
      assert content[from..][..m] == content[from..from + m];
      assert content[from..][m..] == content[from + m..];
      assert text[done..][..to - from] == content[from..from + m][..to - from] == content[from..to];
      if to - from == m {
        assert text[next..] == text[done..][m..] == Delivered(content[to..], chunks, after);
      }
    }
  }

  /** Writing a text between at and end leaves everything before start and after limit alone, and
      appends the text to whatever stands between start and at. */
  lemma Overwritten(before: string, after: string, start: nat, at: nat, text: string, end: nat, limit: nat)
    requires start <= at && end == at + |text| && end <= limit <= |before|
    requires after == Overwrite(before, at, text)
    ensures after[..start] == before[..start]
    ensures after[limit..] == before[limit..]
    ensures after[start..end] == before[start..at] + text
  {
  }

  // ----- the writer -----

  /** Copies a text if it fits. */
  method AddText(buffer: array<char>, position: nat, remaining: nat, text: string) returns (code: Code, n: nat)
    requires position + remaining <= buffer.Length
    modifies buffer
    ensures code == Ok || code == Fail
    ensures code == Ok <==> |text| <= remaining
    ensures code == Ok ==> n == |text| && buffer[..] == Overwrite(old(buffer[..]), position, text)
    ensures code != Ok ==> n == 0 && buffer[..] == old(buffer[..])
  {
    if |text| <= remaining {
      CopyTo(buffer, position, text);
      code, n := Ok, |text|;
    } else {
      code, n := Fail, 0;
    }
  }

  method AddItemMetaJson(buffer: array<char>, position: nat, remaining: nat, meta: Obtained<string>)
    returns (code: Code, n: nat)
    requires position + remaining <= buffer.Length
    modifies buffer
    ensures code == if meta.Failure? then meta.code else if |meta.value| <= remaining then Ok else Fail
    ensures code == Ok ==> n == |meta.value| && buffer[..] == Overwrite(old(buffer[..]), position, meta.value)
    ensures code != Ok ==> n == 0 && buffer[..] == old(buffer[..])
  {
    if meta.Failure? {
      return meta.code, 0;
    }
    code, n := AddText(buffer, position, remaining, meta.value);
  }

  /** A payload from a callback has to leave space, because only an empty read ends it. */
  function PayloadCode(payload: Payload, remaining: nat): Code {
    match payload
    case FromJson(Failure(code)) => code
    case FromJson(Success(text)) => if |text| <= remaining then Ok else Fail
    case FromCallback(content, chunks) => if |Delivered(content, chunks, 0)| < remaining then Ok else Fail
  }

  method AddItemPayload(buffer: array<char>, position: nat, remaining: nat, payload: Payload)
    returns (code: Code, n: nat)
    requires position + remaining <= buffer.Length && 0 < remaining
    modifies buffer
    ensures code == PayloadCode(payload, remaining)
    ensures code == Ok ==>
              n == |payload.Text().value| && buffer[..][position..position + n] == payload.Text().value
    ensures buffer[..][..position] == old(buffer[..])[..position]
    ensures buffer[..][position + remaining..] == old(buffer[..])[position + remaining..]
  {
    if payload.FromCallback? {
      var reader := new PayloadReader(payload.content, payload.chunks);
      code, n := AddCallbackPayload(buffer, position, remaining, reader);
    } else if payload.json.Failure? {
      code, n := payload.json.code, 0;
    } else {
      ghost var before := buffer[..];
      code, n := AddText(buffer, position, remaining, payload.json.value);
      if code == Ok {
        Overwritten(before, buffer[..], position, position, payload.json.value, position + n, position + remaining);
      }
    }
  }

  predicate IsVariable(state: nat) {
    state == STATE_ITEM_META_JSON || state == STATE_CONTENT_TYPE_VALUE_PAYLOAD || state == STATE_ITEM_PAYLOAD
  }

  /** Copies without looking at the space: the table must have demanded enough. */
  method WriteFixedPiece(buffer: array<char>, position: nat, remaining: nat, boundary: Boundary, sub: Boundary, state: nat)
    requires position + remaining <= buffer.Length
    requires state < STATE_END && !IsVariable(state) && SpaceNeeded(state) <= remaining
    modifies buffer
    ensures |FixedPiece(boundary, sub, state)| == SpaceNeeded(state)
    ensures buffer[..] == Overwrite(old(buffer[..]), position, FixedPiece(boundary, sub, state))
  {
    PieceSize(boundary, Part(sub, "", "", ""), state);
    CopyTo(buffer, position, FixedPiece(boundary, sub, state));
  }

  /** The piece of a state, if the source can provide it. */
  function PieceOf(source: Source, boundary: Boundary, sub: Boundary, state: nat): Option<string> {
    if state == STATE_ITEM_META_JSON then source.meta.ToOption()
    else if state == STATE_CONTENT_TYPE_VALUE_PAYLOAD then Some(source.contentType)
    else if state == STATE_ITEM_PAYLOAD then source.payload.Text()
    else Some(FixedPiece(boundary, sub, state))
  }

  /** How a state ends in the given space. */
  function StateCode(source: Source, boundary: Boundary, sub: Boundary, state: nat, remaining: nat): Code {
    var piece := PieceOf(source, boundary, sub, state);
    if state == STATE_ITEM_PAYLOAD then PayloadCode(source.payload, remaining)
    else if state == STATE_ITEM_META_JSON && source.meta.Failure? then source.meta.code
    else if |piece.value| <= remaining then Ok
    else Fail
  }

  /** Copies the piece of a state other than the payload. */
  method PutPiece(buffer: array<char>, position: nat, remaining: nat, source: Source, boundary: Boundary,
                  sub: Boundary, state: nat)
    returns (code: Code, n: nat)
    requires position + remaining <= buffer.Length
    requires state < STATE_END && state != STATE_ITEM_PAYLOAD && SpaceNeeded(state) <= remaining
    modifies buffer
    ensures code == StateCode(source, boundary, sub, state, remaining)
    ensures code == Ok ==>
              var piece := PieceOf(source, boundary, sub, state).value;
              n == |piece| && buffer[..] == Overwrite(old(buffer[..]), position, piece)
    ensures code != Ok ==> buffer[..] == old(buffer[..])
  {
    if state == STATE_ITEM_META_JSON {
      code, n := AddItemMetaJson(buffer, position, remaining, source.meta);
    } else if state == STATE_CONTENT_TYPE_VALUE_PAYLOAD {
      code, n := AddText(buffer, position, remaining, source.contentType);
    } else {
      WriteFixedPiece(buffer, position, remaining, boundary, sub, state);
      code, n := Ok, SpaceNeeded(state);
    }
  }

  /** Writes the piece of one state; the caller has checked the space table. */
  method WriteState(buffer: array<char>, position: nat, remaining: nat, source: Source, boundary: Boundary,
                    sub: Boundary, state: nat)
    returns (code: Code, n: nat)
    requires position + remaining <= buffer.Length
    requires state < STATE_END && 0 < remaining && SpaceNeeded(state) <= remaining
    modifies buffer
    ensures code == StateCode(source, boundary, sub, state, remaining)
    ensures code == Ok ==>
              var piece := PieceOf(source, boundary, sub, state).value;
              n == |piece| && buffer[..][position..position + n] == piece
    ensures buffer[..][..position] == old(buffer[..])[..position]
    ensures buffer[..][position + remaining..] == old(buffer[..])[position + remaining..]
  {
    if state == STATE_ITEM_PAYLOAD {
      code, n := AddItemPayload(buffer, position, remaining, source.payload);
    } else {
      ghost var before := buffer[..];
      code, n := PutPiece(buffer, position, remaining, source, boundary, sub, state);
      if code == Ok {
        Overwritten(before, buffer[..], position, position, PieceOf(source, boundary, sub, state).value,
                    position + n, position + remaining);
      }
    }
  }

  lemma Appended(before: string, after: string, start: nat, at: nat, end: nat, limit: nat)
    requires start <= at <= end <= limit <= |before| == |after|
    requires after[..at] == before[..at] && after[limit..] == before[limit..]
    ensures after[start..end] == before[start..at] + after[at..end]
    ensures after[..start] == before[..start]
  {
    assert before[start..at] == before[..at][start..];
    assert after[start..at] == after[..at][start..];
    assert before[..start] == before[..at][..start];
    assert after[..start] == after[..at][..start];
  }

  /** A tuple does not fit if its pieces up to some state already need more than the space, or use it
      up with states still to come. */
  lemma DoesNotFit(boundary: Boundary, part: Part, state: nat, size: nat)
    requires state < STATE_END
    requires |Written(boundary, part, state)| >= size || |Written(boundary, part, state + 1)| > size
    ensures |Tuple(boundary, part)| > size
  {
    if |Written(boundary, part, state + 1)| > size {
      WrittenIsPrefix(boundary, part, state + 1, STATE_END);
    } else {
      WrittenIsPrefix(boundary, part, state, STATE_END - 1);
      PieceSize(boundary, part, STATE_END - 1);
    }
  }

  /** Between two states: the space starts with what is written, and nothing outside has changed. */
  ghost predicate IsWritten(before: string, now: string, start: nat, at: nat, limit: nat, written: string) {
    && start <= at <= limit <= |before| == |now|
    && now[start..at] == written && now[..start] == before[..start] && now[limit..] == before[limit..]
  }

  lemma WroteMore(before: string, was: string, now: string, start: nat, at: nat, end: nat, limit: nat,
                  written: string, piece: string)
    requires IsWritten(before, was, start, at, limit, written) && |now| == |was| && at <= end <= limit
    requires now[..at] == was[..at] && now[limit..] == was[limit..] && now[at..end] == piece
    ensures IsWritten(before, now, start, end, limit, written + piece)
  {
    Appended(was, now, start, at, end, limit);
  }

  /** What the source must have provided before a state is reached. */
  predicate Provided(source: Source, state: nat) {
    && (state > 0 ==> source.sub.Success?)
    && (state > STATE_ITEM_META_JSON ==> source.meta.Success?)
    && (state > STATE_ITEM_PAYLOAD ==> source.payload.Text().Some?)
  }

  /** The part as far as the source provides it. */
  function PartGiven(source: Source, sub: Boundary): Part {
    Part(sub, source.meta.ToOption().GetOr(""), source.contentType, source.payload.Text().GetOr(""))
  }

  /** The error of the first piece that cannot be had. */
  function FirstError(source: Source): Code {
    if source.sub.Failure? then source.sub.code
    else if source.meta.Failure? then source.meta.code
    else if source.payload.FromJson? then source.payload.json.ErrorCode()
    else Ok
  }

  lemma IncompleteHasError(source: Source)
    ensures source.ToPart().Some? <==> FirstError(source) == Ok
    ensures IsAnswer(FirstError(source))
  {
  }

  /** The least space in which that is how writing ends. */
  function SpaceFor(source: Source): nat {
    if source.sub.Failure? then SpaceNeeded(0)
    else if source.meta.Failure? then SPACE_BEFORE_META + 1
    else if source.payload.Text().None? then
      SPACE_BEFORE_PAYLOAD + |source.meta.value| + |source.contentType| + 1
    else TupleLength(source.ToPart().value)
  }

  /** How writing ends in a space of the given size: with the error of the first piece that cannot be
      had, unless the space is used up before that. */
  function WriteCode(source: Source, size: nat): Code {
    if SpaceFor(source) <= size then FirstError(source) else Fail
  }

  /** The same in plain terms. */
  lemma WriteCodeIs(source: Source, size: nat)
    ensures WriteCode(source, size)
            == if source.sub.Failure? then (if 24 <= size then source.sub.code else Fail)
               else if source.meta.Failure? then (if 175 < size then source.meta.code else Fail)
               else
                 match source.payload
                 case FromJson(Failure(code)) =>
                   if 219 + |source.meta.value| + |source.contentType| < size then code else Fail
                 case FromJson(Success(text)) =>
                   if 247 + |source.meta.value| + |source.contentType| + |text| <= size then Ok else Fail
                 case FromCallback(content, chunks) =>
                   if 247 + |source.meta.value| + |source.contentType| + |Delivered(content, chunks, 0)| <= size
                   then Ok else Fail
  {
  }

  /** What is written before and with the pieces that may be missing. */
  lemma WrittenAt(boundary: Boundary, part: Part)
    ensures |Written(boundary, part, 1)| == SpaceNeeded(0)
    ensures |Written(boundary, part, STATE_ITEM_META_JSON)| == SPACE_BEFORE_META
    ensures |Written(boundary, part, STATE_ITEM_META_JSON + 1)| == SPACE_BEFORE_META + |part.meta|
    ensures |Written(boundary, part, STATE_ITEM_PAYLOAD)|
            == SPACE_BEFORE_PAYLOAD + |part.meta| + |part.contentType|
    ensures |Written(boundary, part, STATE_ITEM_PAYLOAD + 1)|
            == |Written(boundary, part, STATE_ITEM_PAYLOAD)| + |part.payload|
  {
    WrittenSize(boundary, part, 1);
    WrittenSize(boundary, part, STATE_ITEM_META_JSON);
    WrittenSize(boundary, part, STATE_ITEM_PAYLOAD);
    BaseSizeIsTableSum();
    ThreeVariablePieces(part);
  }

  /** The state whose piece is the first one missing. */
  function FirstMissing(source: Source): nat {
    if source.sub.Failure? then 0 else if source.meta.Failure? then STATE_ITEM_META_JSON else STATE_ITEM_PAYLOAD
  }

  lemma SpaceForMissing(source: Source, boundary: Boundary, part: Part)
    requires part == PartGiven(source, part.sub) && source.ToPart().None?
    ensures SpaceFor(source) == if source.sub.Failure? then |Written(boundary, part, 1)|
                                else |Written(boundary, part, FirstMissing(source))| + 1
    ensures source.sub.Success? ==>
              |Written(boundary, part, FirstMissing(source) + 1)| == |Written(boundary, part, FirstMissing(source))|
  {
    WrittenAt(boundary, part);
  }

  lemma PrefixTooLong(boundary: Boundary, part: Part, state: nat, next: nat, missing: nat, behind: nat, size: nat)
    requires next == state + 1 && behind == missing + 1 && state <= missing < STATE_END
    requires |Written(boundary, part, state)| >= size || |Written(boundary, part, next)| > size
    ensures |Written(boundary, part, missing)| >= size || |Written(boundary, part, behind)| > size
  {
    WrittenIsPrefix(boundary, part, state, missing);
    WrittenIsPrefix(boundary, part, next, behind);
  }

  lemma NoRoomForMissing(source: Source, boundary: Boundary, part: Part, state: nat, size: nat)
    requires state <= FirstMissing(source) && part == PartGiven(source, part.sub) && source.ToPart().None?
    requires |Written(boundary, part, state)| >= size || |Written(boundary, part, state + 1)| > size
    ensures size < SpaceFor(source)
  {
    PrefixTooLong(boundary, part, state, state + 1, FirstMissing(source), FirstMissing(source) + 1, size);
    SpaceForMissing(source, boundary, part);
  }

  /** A state that lacks space: so does the whole tuple. */
  lemma NoRoom(source: Source, boundary: Boundary, part: Part, state: nat, size: nat)
    requires state < STATE_END && Provided(source, state) && part == PartGiven(source, part.sub)
    requires source.sub.Success? ==> source.sub.value == part.sub
    requires |Written(boundary, part, state)| >= size || |Written(boundary, part, state + 1)| > size
    ensures WriteCode(source, size) == Fail
  {
    if source.ToPart().None? {
      NoRoomForMissing(source, boundary, part, state, size);
    } else {
      DoesNotFit(boundary, part, state, size);
      TupleSize(boundary, part);
    }
  }

  /** A state that is reached although its piece is missing. */
  lemma MissingIsReached(source: Source, boundary: Boundary, part: Part, state: nat, size: nat)
    requires state < STATE_END && Provided(source, state) && source.sub.Success?
    requires part == PartGiven(source, part.sub) && |Written(boundary, part, state)| < size
    requires PieceOf(source, boundary, part.sub, state).None?
    ensures WriteCode(source, size)
            == if state == STATE_ITEM_META_JSON then source.meta.ErrorCode() else source.payload.json.ErrorCode()
  {
    SpaceForMissing(source, boundary, part);
  }

  /** A state with too little space, by the table. */
  lemma NoSpace(source: Source, boundary: Boundary, part: Part, state: nat, size: nat, left: nat)
    requires state < STATE_END && Provided(source, state) && part == PartGiven(source, part.sub)
    requires source.sub.Success? ==> source.sub.value == part.sub
    requires |Written(boundary, part, state)| + left == size && (left == 0 || SpaceNeeded(state) > left)
    ensures WriteCode(source, size) == Fail
  {
    PieceSize(boundary, part, state);
    NoRoom(source, boundary, part, state, size);
  }

  lemma PieceFailed(source: Source, boundary: Boundary, part: Part, state: nat, size: nat, left: nat)
    requires state < STATE_END && Provided(source, state) && part == PartGiven(source, part.sub)
    requires source.sub.Success? && source.sub.value == part.sub
    requires |Written(boundary, part, state)| + left == size && 0 < left
    requires StateCode(source, boundary, part.sub, state, left) != Ok
    ensures WriteCode(source, size) == StateCode(source, boundary, part.sub, state, left)
  {
    var piece := PieceOf(source, boundary, part.sub, state);
    if piece.None? {
      MissingIsReached(source, boundary, part, state, size);
    } else {
      assert piece.value == Piece(boundary, part, state);
      if |piece.value| > left {
        NoRoom(source, boundary, part, state, size);
      } else {
        assert state == STATE_ITEM_PAYLOAD && |piece.value| == left;
        NoRoom(source, boundary, part, state + 1, size);
      }
    }
  }

  /** How a state ends that is entered: the boundary is drawn before, but its error is looked at after. */
  function EnteredCode(source: Source, boundary: Boundary, sub: Boundary, state: nat, left: nat): Code {
    if source.sub.Failure? then source.sub.code else StateCode(source, boundary, sub, state, left)
  }

  /** A state that ends with an error ends the writer with that error. */
  lemma StateFailed(source: Source, boundary: Boundary, part: Part, state: nat, size: nat, left: nat)
    requires state < STATE_END && Provided(source, state) && part == PartGiven(source, part.sub)
    requires source.sub.Success? ==> source.sub.value == part.sub
    requires |Written(boundary, part, state)| + left == size && 0 < left && SpaceNeeded(state) <= left
    requires EnteredCode(source, boundary, part.sub, state, left) != Ok
    ensures WriteCode(source, size) == EnteredCode(source, boundary, part.sub, state, left)
  {
    if source.sub.Success? {
      PieceFailed(source, boundary, part, state, size, left);
    }
  }

  lemma OneMorePiece(source: Source, boundary: Boundary, part: Part, state: nat, next: nat)
    requires next == state + 1 <= STATE_END && Provided(source, state) && part == PartGiven(source, part.sub)
    requires source.sub.Success? && PieceOf(source, boundary, part.sub, state).Some?
    ensures Provided(source, next)
    ensures Written(boundary, part, next)
            == Written(boundary, part, state) + PieceOf(source, boundary, part.sub, state).value
  {
  }

  /** A state that ends well has appended its piece. */
  lemma StateDone(source: Source, boundary: Boundary, part: Part, state: nat, next: nat, before: string, was: string,
                  now: string, start: nat, at: nat, end: nat, limit: nat)
    requires next == state + 1 <= STATE_END && Provided(source, state) && part == PartGiven(source, part.sub)
    requires source.sub.Success? && PieceOf(source, boundary, part.sub, state).Some?
    requires IsWritten(before, was, start, at, limit, Written(boundary, part, state)) && |now| == |was|
    requires at <= end <= limit && now[at..end] == PieceOf(source, boundary, part.sub, state).value
    requires now[..at] == was[..at] && now[limit..] == was[limit..]
    ensures Provided(source, next)
    ensures IsWritten(before, now, start, end, limit, Written(boundary, part, next))
  {
    OneMorePiece(source, boundary, part, state, next);
    WroteMore(before, was, now, start, at, end, limit, Written(boundary, part, state), now[at..end]);
  }

  lemma OutsideIsKept(before: string, was: string, now: string, start: nat, at: nat, limit: nat, written: string)
    requires IsWritten(before, was, start, at, limit, written) && |now| == |was|
    requires now[..at] == was[..at] && now[limit..] == was[limit..]
    ensures now[..start] == before[..start] && now[limit..] == before[limit..]
  {
    Appended(was, now, start, at, at, limit);
  }

  /** Between two states, what is written is as long as the space that is used. */
  lemma UsedBy(before: string, now: string, start: nat, at: nat, limit: nat, size: nat, left: nat, written: string)
    requires IsWritten(before, now, start, at, limit, written) && limit == start + size && left == limit - at
    ensures |written| + left == size
  {
  }

  method EnterState(buffer: array<char>, at: nat, left: nat, source: Source, boundary: Boundary, sub: Boundary,
                    state: nat, ghost limit: nat)
    returns (code: Code, end: nat)
    requires limit == at + left <= buffer.Length
    requires state < STATE_END && 0 < left && SpaceNeeded(state) <= left
    modifies buffer
    ensures code == EnteredCode(source, boundary, sub, state, left) && at <= end <= limit
    ensures code == Ok ==>
              source.sub.Success? && PieceOf(source, boundary, sub, state) == Some(buffer[..][at..end])
    ensures buffer[..][..at] == old(buffer[..])[..at] && buffer[..][limit..] == old(buffer[..])[limit..]
  {
    var n;
    code, n := WriteState(buffer, at, left, source, boundary, sub, state);
    if source.sub.Failure? {
      code := source.sub.code;
    }
    end := if code == Ok then at + n else at;
  }

  /** One state of the writer: the space is checked, and the piece is written. */
  method WriteNext(buffer: array<char>, position: nat, at: nat, size: nat, source: Source, boundary: Boundary,
                   sub: Boundary, state: nat, ghost next: nat, ghost limit: nat, ghost before: string)
    returns (code: Code, end: nat)
    requires limit == position + size && state < STATE_END && next == state + 1
    requires IsWritten(before, buffer[..], position, at, limit, Written(boundary, PartGiven(source, sub), state))
    requires Provided(source, state) && (source.sub.Success? ==> source.sub.value == sub)
    modifies buffer
    ensures code == Ok ==>
              && Provided(source, next) && source.sub.Success?
              && IsWritten(before, buffer[..], position, end, limit, Written(boundary, PartGiven(source, sub), next))
    ensures code != Ok ==>
              && buffer[..][..position] == before[..position] && buffer[..][limit..] == before[limit..]
              && code == WriteCode(source, size)
  {
    ghost var part, was := PartGiven(source, sub), buffer[..];
    var left: nat := position + size - at;
    end := at;
    UsedBy(before, was, position, at, limit, size, left, Written(boundary, part, state));
    if left == 0 || SpaceNeeded(state) > left {
      NoSpace(source, boundary, part, state, size, left);
      return Fail, end;
    }
    code, end := EnterState(buffer, at, left, source, boundary, sub, state, limit);
    if code == Ok {
      StateDone(source, boundary, part, state, next, before, was, buffer[..], position, at, end, limit);
    } else {
      StateFailed(source, boundary, part, state, size, left);
      OutsideIsKept(before, was, buffer[..], position, at, limit, Written(boundary, part, state));
    }
  }

  /** Writes one tuple into the space of the given size at position, state by state.  It succeeds
      exactly if the source is complete and the tuple fits; then the space starts with exactly the
      tuple and the remaining size drops by its length.  Otherwise the remaining size is unchanged,
      so that the next tuple overwrites what was written.  Nothing outside the space changes. */
  method AddTuple(buffer: array<char>, position: nat, size: nat, source: Source, boundary: Boundary)
    returns (code: Code, remaining: nat)
    requires position + size <= buffer.Length
    modifies buffer
    ensures code == Ok <==> source.ToPart().Some? && |Tuple(boundary, source.ToPart().value)| <= size
    ensures code == Ok ==>
              var tuple := Tuple(boundary, source.ToPart().value);
              && remaining == size - |tuple|
              && buffer[..][position..position + |tuple|] == tuple
    ensures code != Ok ==> remaining == size
    ensures code == WriteCode(source, size)
    ensures buffer[..][..position] == old(buffer[..])[..position]
    ensures buffer[..][position + size..] == old(buffer[..])[position + size..]
  {
    var sub: Boundary := source.sub.ToOption().GetOr(seq(BOUNDARY_LENGTH, _ => '0'));
    ghost var before, limit, part := buffer[..], position + size, PartGiven(source, sub);
    var at, state := position, 0;
    code := Ok;
    while state != STATE_END
      invariant state <= STATE_END && code == Ok && Provided(source, state)
      invariant IsWritten(before, buffer[..], position, at, limit, Written(boundary, part, state))
      decreases STATE_END - state
    {
      var next := state + 1;
      code, at := WriteNext(buffer, position, at, size, source, boundary, sub, state, next, limit, before);
      if code != Ok {
        break;
      }
      state := next;
    }
    if source.ToPart().Some? {
      TupleSize(boundary, part);
    }
    remaining := if code == Ok then position + size - at else size;
  }

  /** One text written right behind another one. */
  lemma OverwriteOn(s: string, at: nat, first: string, next: nat, second: string)
    requires next == at + |first| && next + |second| <= |s|
    ensures Overwrite(Overwrite(s, at, first), next, second) == Overwrite(s, at, first + second)
  {
  }

  /** Ends a body.  The space taken is the overhead that was set aside for it. */
  method CloseBody(buffer: array<char>, position: nat, size: nat, boundary: Boundary)
    returns (code: Code, remaining: nat)
    requires position + size <= buffer.Length
    modifies buffer
    ensures |Closing(boundary)| == MULTIPART_CLOSE_LENGTH
    ensures code == Ok <==> MULTIPART_CLOSE_LENGTH <= size
    ensures code == Ok ==>
              remaining == size - MULTIPART_CLOSE_LENGTH
              && buffer[..] == Overwrite(old(buffer[..]), position, Closing(boundary))
    ensures code != Ok ==> remaining == size && buffer[..] == old(buffer[..])
  {
    ConstantLengths();
    if size >= MULTIPART_CLOSE_LENGTH {
      ghost var before, text := buffer[..], BOUNDARY_SIGN + boundary;
      CopyTo(buffer, position, BOUNDARY_SIGN);
      CopyTo(buffer, position + BOUNDARY_SIGN_LENGTH, boundary);
      OverwriteOn(before, position, BOUNDARY_SIGN, position + BOUNDARY_SIGN_LENGTH, boundary);
      CopyTo(buffer, position + BOUNDARY_SIGN_LENGTH + BOUNDARY_LENGTH, BOUNDARY_SIGN);
      OverwriteOn(before, position, text, position + BOUNDARY_SIGN_LENGTH + BOUNDARY_LENGTH, BOUNDARY_SIGN);
      code, remaining := Ok, size - MULTIPART_CLOSE_LENGTH;
    } else {
      code, remaining := Fail, size;
    }
  }
}