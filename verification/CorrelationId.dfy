/** The correlation id: random bytes are placed in the upper half of the buffer they are expanded in. */
module CorrelationId {
  import opened Core

  type Bytes = seq<bv8>

  const CORRELATION_ID_BYTE_LENGTH := 16

  function HexDigit(v: bv8): bv8 {
    if v < 10 then 0x30 + v else 0x61 + (v - 10)
  }

  function Pair(b: bv8): Bytes {
    [HexDigit(b >> 4), HexDigit(b & 0x0F)]
  }

  /** Two lower-case digits for each byte. */
  function Hex(bytes: Bytes): (r: Bytes)
    ensures |r| == 2 * |bytes|
  {
    if bytes == [] then []
    else Hex(bytes[..|bytes| - 1]) + Pair(bytes[|bytes| - 1])
  }

  const HEX_DIGITS := "0123456789abcdef"

  lemma HexDigitIs(v: bv8)
    requires v < 16
    ensures HexDigit(v) as int == HEX_DIGITS[v as int] as int
  {
    assert v in {0, 1, 2, 3, 4, 5, 6, 7, 8, 9, 10, 11, 12, 13, 14, 15};
  }

  /** The digits of a byte stand at its place: its upper half, then its lower half. */
  lemma {:induction false} HexAt(bytes: Bytes, i: nat) returns (high: bv8, low: bv8)
    requires i < |bytes|
    ensures high < 16 && low < 16 && bytes[i] == high * 16 + low
    ensures Hex(bytes)[2 * i] as int == HEX_DIGITS[high as int] as int
    ensures Hex(bytes)[2 * i + 1] as int == HEX_DIGITS[low as int] as int
    decreases |bytes|
  {
    var init, b := bytes[..|bytes| - 1], bytes[|bytes| - 1];
    if i == |init| {
      high, low := b >> 4, b & 0x0F;
      HexDigitIs(high);
      HexDigitIs(low);
    } else {
      high, low := HexAt(init, i);
      assert init[i] == bytes[i];
    }
  }

  function DigitValue(c: bv8): bv8 {
    if c <= 0x39 then c - 0x30 else c - 0x61 + 10
  }

  function Unhex(text: Bytes): Bytes
    requires |text| % 2 == 0
  {
    if text == [] then []
    else Unhex(text[..|text| - 2]) + [(DigitValue(text[|text| - 2]) << 4) | DigitValue(text[|text| - 1])]
  }

  lemma DigitRoundTrip(b: bv8)
    ensures (DigitValue(HexDigit(b >> 4)) << 4) | DigitValue(HexDigit(b & 0x0F)) == b
  {
    assert DigitValue(HexDigit(b >> 4)) == b >> 4;
    assert DigitValue(HexDigit(b & 0x0F)) == b & 0x0F;
  }

  lemma UnhexPair(text: Bytes, high: bv8, low: bv8)
    requires |text| % 2 == 0
    ensures Unhex(text + [high, low]) == Unhex(text) + [(DigitValue(high) << 4) | DigitValue(low)]
  {
    var longer := text + [high, low];
    assert longer[..|longer| - 2] == text;
  }

  lemma HexSnoc(bytes: Bytes, init: Bytes, b: bv8)
    requires bytes == init + [b]
    ensures Hex(bytes) == Hex(init) + Pair(b)
  {
    assert bytes[..|bytes| - 1] == init;
  }

  lemma PairRoundTrip(text: Bytes, longer: Bytes, b: bv8)
    requires |text| % 2 == 0 && longer == text + Pair(b)
    ensures Unhex(longer) == Unhex(text) + [b]
  {
    UnhexPair(text, HexDigit(b >> 4), HexDigit(b & 0x0F));
    DigitRoundTrip(b);
  }

  lemma ByteRoundTrip(bytes: Bytes, init: Bytes, b: bv8, text: Bytes, longer: Bytes)
    requires bytes == init + [b] && text == Hex(init) && longer == Hex(bytes)
    ensures Unhex(longer) == Unhex(text) + [b]
  {
    HexSnoc(bytes, init, b);
    PairRoundTrip(text, longer, b);
  }

  /** The digits determine the bytes, so different random bytes give different ids. */
  lemma {:induction false} HexRoundTrip(bytes: Bytes)
    ensures Unhex(Hex(bytes)) == bytes
    decreases |bytes|
  {
    if bytes != [] {
      var init, b := bytes[..|bytes| - 1], bytes[|bytes| - 1];
      InitAndLast(bytes);
      HexRoundTrip(init);
      ByteRoundTrip(bytes, init, b, Hex(init), Hex(bytes));
    }
  }

  lemma NextHex(bytes: Bytes, i: nat, next: nat)
    requires next == i + 1 <= |bytes|
    ensures Hex(bytes[..next]) == Hex(bytes[..i]) + Pair(bytes[i])
  {
    assert bytes[..next][..i] == bytes[..i];
  }

  /** Prints one byte with its terminator. */
  method PrintByte(b: bv8, destination: array<bv8>, at: nat, ghost end: nat)
    requires end == at + 2 < destination.Length
    modifies destination
    ensures destination[..end] == old(destination[..at]) + Pair(b)
    ensures destination[end] == 0
    ensures forall k :: end < k < destination.Length ==> destination[k] == old(destination[k])
  {
    destination[at] := HexDigit(b >> 4);
    destination[at + 1] := HexDigit(b & 0x0F);
    destination[at + 2] := 0;
  }

  /** Expands n bytes in place.  No digit or terminator is written over a byte that is still to be read. */
  method ExpandInPlace(id: array<bv8>, n: nat)
    requires 0 < n && id.Length == 2 * n + 1
    modifies id
    ensures id[..] == Hex(old(id[n..2 * n])) + [0]
  {
    ghost var was, bytes := id[..], id[n..2 * n];
    ghost var at := 0;
    var index := 0;
    while index < n
      invariant 0 <= index <= n && at == 2 * index
      invariant id[..at] == Hex(bytes[..index])
      invariant forall k :: n + index <= k < 2 * n ==> id[k] == was[k]
      invariant index > 0 ==> id[at] == 0
    {
      var next := index + 1;
      ghost var end := at + 2;
      var b := id[n + index];
      assert b == bytes[index];
      NextHex(bytes, index, next);
      PrintByte(b, id, 2 * index, end);
      index, at := next, end;
    }
    assert bytes[..index] == bytes;
    assert id[..] == id[..at] + [id[at]];
  }

  /** `randomBytes` is what the generator delivers, or its error. */
  method GenerateCorrelationId(randomBytes: Result<Bytes>) returns (code: Code, id: array<bv8>)
    requires match randomBytes
             case Success(bytes) => |bytes| == CORRELATION_ID_BYTE_LENGTH
             case Failure(code) => code != Ok
    ensures match randomBytes
            case Success(bytes) => code == Ok && id.Length == 33 && id[..] == Hex(bytes) + [0]
            case Failure(error) => code == error
  {
    id := new bv8[2 * CORRELATION_ID_BYTE_LENGTH + 1];
    if randomBytes.Failure? {
      return randomBytes.code, id;
    }
    forall i | 0 <= i < CORRELATION_ID_BYTE_LENGTH {
      id[CORRELATION_ID_BYTE_LENGTH + i] := randomBytes.value[i];
    }
    assert id[CORRELATION_ID_BYTE_LENGTH..2 * CORRELATION_ID_BYTE_LENGTH] == randomBytes.value;
    ExpandInPlace(id, CORRELATION_ID_BYTE_LENGTH);
    code := Ok;
  }
}
