/** Base64 and base64url (RFC 4648, sections 4 and 5): the shift-and-mask loops of the library against
    a definition by bit groups, the inverse relation of the two, and what exactly is accepted. */
module Base64 {
  import opened Core

  type Bytes = seq<bv8>

  datatype Alphabet = Standard | UrlSafe

  const PAD: bv8 := 0x3D
  const INVALID: bv8 := 0xFF

  // ----- the two tables -----

  function EncodeChar(a: Alphabet, v: bv8): bv8 {
    if v < 26 then 0x41 + v
    else if v < 52 then 0x61 + (v - 26)
    else if v < 62 then 0x30 + (v - 52)
    else if v == 62 then (if a == Standard then 0x2B else 0x2D)
    else (if a == Standard then 0x2F else 0x5F)
  }

  function DecodeChar(a: Alphabet, c: bv8): bv8 {
    if 0x41 <= c <= 0x5A then c - 0x41
    else if 0x61 <= c <= 0x7A then c - 0x61 + 26
    else if 0x30 <= c <= 0x39 then c - 0x30 + 52
    else if c == (if a == Standard then 0x2B else 0x2D) then 62
    else if c == (if a == Standard then 0x2F else 0x5F) then 63
    else INVALID
  }

  lemma DecodeInvertsEncode(a: Alphabet, v: bv8)
    requires v < 64
    ensures DecodeChar(a, EncodeChar(a, v)) == v && EncodeChar(a, v) != PAD
  {
  }

  lemma EncodeInvertsDecode(a: Alphabet, c: bv8)
    requires DecodeChar(a, c) != INVALID
    ensures DecodeChar(a, c) < 64 && EncodeChar(a, DecodeChar(a, c)) == c && c != PAD
  {
  }

  const UPPER := "ABCDEFGHIJKLMNOPQRSTUVWXYZ"
  const LOWER := "abcdefghijklmnopqrstuvwxyz"
  const DIGITS := "0123456789"

  /** The alphabets as RFC 4648 prints them. */
  function Letters(a: Alphabet): string {
    UPPER + LOWER + DIGITS + if a == Standard then "+/" else "-_"
  }

  lemma LetterAt(v: bv8)
    requires v < 26
    ensures (0x41 + v) as int == UPPER[v as int] as int && (0x61 + v) as int == LOWER[v as int] as int
  {
    assert v as int < 26;
    assert UPPER[v as int] as int == 65 + v as int && LOWER[v as int] as int == 97 + v as int;
  }

  lemma DigitAt(v: bv8)
    requires v < 10
    ensures (0x30 + v) as int == DIGITS[v as int] as int
  {
    assert v as int < 10;
    assert DIGITS[v as int] as int == 48 + v as int;
  }

  /** Each digit is written as the letter at its place in the alphabet. */
  lemma EncodeCharIs(a: Alphabet, v: bv8)
    requires v < 64
    ensures |Letters(a)| == 64 && v as int < 64 && EncodeChar(a, v) as int == Letters(a)[v as int] as int
  {
    assert |UPPER| == 26 && |LOWER| == 26 && |DIGITS| == 10;
    if v < 26 {
      LetterAt(v);
      assert Letters(a)[v as int] == UPPER[v as int];
    } else if v < 52 {
      LetterAt(v - 26);
      assert (v - 26) as int == v as int - 26;
      assert Letters(a)[v as int] == LOWER[v as int - 26];
    } else if v < 62 {
      DigitAt(v - 52);
      assert (v - 52) as int == v as int - 52;
      assert Letters(a)[v as int] == DIGITS[v as int - 52];
    }
  }

  // ----- bit groups -----

  function Sextet0(b0: bv8): bv8 { b0 >> 2 }
  function Sextet1(b0: bv8, b1: bv8): bv8 { ((b0 & 0x03) << 4) | (b1 >> 4) }
  function Sextet2(b1: bv8, b2: bv8): bv8 { ((b1 & 0x0F) << 2) | (b2 >> 6) }
  function Sextet3(b2: bv8): bv8 { b2 & 0x3F }

  function Octet0(v0: bv8, v1: bv8): bv8 { (v0 << 2) | (v1 >> 4) }
  function Octet1(v1: bv8, v2: bv8): bv8 { (v1 << 4) | (v2 >> 2) }
  function Octet2(v2: bv8, v3: bv8): bv8 { (v2 << 6) | v3 }

  lemma SextetsAreSmall(b0: bv8, b1: bv8, b2: bv8)
    ensures Sextet0(b0) < 64 && Sextet1(b0, b1) < 64 && Sextet2(b1, b2) < 64 && Sextet3(b2) < 64
  {
  }

  lemma OctetsOfSextets(b0: bv8, b1: bv8, b2: bv8)
    ensures Octet0(Sextet0(b0), Sextet1(b0, b1)) == b0
    ensures Octet1(Sextet1(b0, b1), Sextet2(b1, b2)) == b1
    ensures Octet2(Sextet2(b1, b2), Sextet3(b2)) == b2
  {
  }

  lemma SextetsOfOctets(v0: bv8, v1: bv8, v2: bv8, v3: bv8)
    requires v0 < 64 && v1 < 64 && v2 < 64 && v3 < 64
    ensures Sextet0(Octet0(v0, v1)) == v0
    ensures Sextet1(Octet0(v0, v1), Octet1(v1, v2)) == v1
    ensures Sextet2(Octet1(v1, v2), Octet2(v2, v3)) == v2
    ensures Sextet3(Octet2(v2, v3)) == v3
  {
  }

  /** The bits of a last group that no byte uses. */
  lemma UnusedBits(v0: bv8, v1: bv8, v2: bv8)
    requires v0 < 64 && v1 < 64 && v2 < 64
    ensures Sextet1(Octet0(v0, v1), 0) == v1 <==> v1 & 0x0F == 0
    ensures Sextet2(Octet1(v1, v2), 0) == v2 <==> v2 & 0x03 == 0
    ensures Sextet0(Octet0(v0, v1)) == v0 && Sextet1(Octet0(v0, v1), Octet1(v1, v2)) == v1
  {
  }

  // ----- encoding -----

  /** The four characters of up to three bytes. */
  function EncodeGroup(a: Alphabet, g: Bytes): (r: Bytes)
    requires 1 <= |g| <= 3
    ensures |r| == 4
  {
    var b1, b2 := if |g| > 1 then g[1] else 0, if |g| > 2 then g[2] else 0;
    [EncodeChar(a, Sextet0(g[0])), EncodeChar(a, Sextet1(g[0], b1)),
     if |g| > 1 then EncodeChar(a, Sextet2(b1, b2)) else PAD,
     if |g| > 2 then EncodeChar(a, Sextet3(b2)) else PAD]
  }

  function Encode(a: Alphabet, data: Bytes): Bytes {
    if data == [] then []
    else if |data| <= 3 then EncodeGroup(a, data)
    else EncodeGroup(a, data[..3]) + Encode(a, data[3..])
  }

  /** The character stands for the digit. */
  predicate StandsFor(a: Alphabet, c: bv8, digit: bv8) {
    digit < 64 && |Letters(a)| == 64 && digit as int < 64 && c as int == Letters(a)[digit as int] as int
  }

  lemma LetterStands(a: Alphabet, digit: bv8, c: bv8)
    requires digit < 64 && c == EncodeChar(a, digit)
    ensures StandsFor(a, c, digit)
  {
    EncodeCharIs(a, digit);
  }

  /** Behind the letters for the digits of the bytes there are, '=' stands for missing bytes. */
  predicate Spells(a: Alphabet, q: Bytes, size: nat, d0: bv8, d1: bv8, d2: bv8, d3: bv8) {
    && |q| == 4 && StandsFor(a, q[0], d0) && StandsFor(a, q[1], d1)
    && (if size > 1 then StandsFor(a, q[2], d2) else q[2] as int == '=' as int)
    && (if size > 2 then StandsFor(a, q[3], d3) else q[3] as int == '=' as int)
  }

  lemma SextetsSpell(a: Alphabet, g: Bytes, b1: bv8, b2: bv8)
    requires 1 <= |g| <= 3 && b1 == (if |g| > 1 then g[1] else 0) && b2 == if |g| > 2 then g[2] else 0
    ensures Spells(a, EncodeGroup(a, g), |g|, Sextet0(g[0]), Sextet1(g[0], b1), Sextet2(b1, b2), Sextet3(b2))
  {
    var q := EncodeGroup(a, g);
    SextetsAreSmall(g[0], b1, b2);
    LetterStands(a, Sextet0(g[0]), q[0]);
    LetterStands(a, Sextet1(g[0], b1), q[1]);
    if |g| > 1 {
      LetterStands(a, Sextet2(b1, b2), q[2]);
    }
    if |g| > 2 {
      LetterStands(a, Sextet3(b2), q[3]);
    }
  }

  /** The number of three bytes, to the base of 256, and of four digits, to the base of 64. */
  function OfBytes(b0: bv8, b1: bv8, b2: bv8): bv32 {
    (b0 as bv32) * 0x10000 + (b1 as bv32) * 0x100 + (b2 as bv32)
  }

  function OfDigits(d0: bv8, d1: bv8, d2: bv8, d3: bv8): bv32 {
    (d0 as bv32) * 0x40000 + (d1 as bv32) * 0x1000 + (d2 as bv32) * 0x40 + (d3 as bv32)
  }

  lemma SextetsAreBigEndian(b0: bv8, b1: bv8, b2: bv8)
    ensures OfBytes(b0, b1, b2) == OfDigits(Sextet0(b0), Sextet1(b0, b1), Sextet2(b1, b2), Sextet3(b2))
  {
  }

  /** The characters of a group spell the digits of the number that its bytes make, with zeros for missing
      bytes. */
  lemma GroupIsBigEndian(a: Alphabet, g: Bytes) returns (d0: bv8, d1: bv8, d2: bv8, d3: bv8)
    requires 1 <= |g| <= 3
    ensures OfBytes(g[0], if |g| > 1 then g[1] else 0, if |g| > 2 then g[2] else 0) == OfDigits(d0, d1, d2, d3)
    ensures d0 < 64 && d1 < 64 && d2 < 64 && d3 < 64 && Spells(a, EncodeGroup(a, g), |g|, d0, d1, d2, d3)
  {
    var b1, b2 := if |g| > 1 then g[1] else 0, if |g| > 2 then g[2] else 0;
    d0, d1, d2, d3 := Sextet0(g[0]), Sextet1(g[0], b1), Sextet2(b1, b2), Sextet3(b2);
    SextetsAreSmall(g[0], b1, b2);
    SextetsAreBigEndian(g[0], b1, b2);
    SextetsSpell(a, g, b1, b2);
  }

  lemma SliceOfTail(s: Bytes, n: nat, i: nat, j: nat, from: nat, to: nat)
    requires from == n + i && to == n + j && i <= j && to <= |s|
    ensures s[n..][i..j] == s[from..to]
  {
  }

  lemma SliceBehind(q: Bytes, rest: Bytes, i: nat, j: nat, from: nat, to: nat)
    requires from == |q| + i && to == |q| + j && i <= j <= |rest|
    ensures (q + rest)[from..to] == rest[i..j]
  {
  }

  lemma EncodeFirst(a: Alphabet, data: Bytes, others: Bytes, text: Bytes, rest: Bytes) returns (q: Bytes)
    requires |data| > 3 && others == data[3..] && text == Encode(a, data) && rest == Encode(a, others)
    ensures text == q + rest && q == EncodeGroup(a, data[..3]) && |q| == 4
  {
    q := EncodeGroup(a, data[..3]);
  }

  lemma {:induction false} GroupFrom(a: Alphabet, data: Bytes, text: Bytes, k: nat, from: nat, to: nat, at: nat, end: nat,
                                     group: Bytes)
    requires text == Encode(a, data) && from == 3 * k < |data| && to == Min(from + 3, |data|)
    requires at == 4 * k && end == at + 4 && group == data[from..to]
    ensures end <= |text| && text[at..end] == EncodeGroup(a, group)
    decreases k
  {
    if |data| <= 3 {
      assert group == data;
    } else {
      var others := data[3..];
      var rest := Encode(a, others);
      var q := EncodeFirst(a, data, others, text, rest);
      if k == 0 {
        assert text[at..end] == q;
      } else {
        SliceOfTail(data, 3, from - 3, to - 3, from, to);
        GroupFrom(a, others, rest, k - 1, from - 3, to - 3, at - 4, end - 4, group);
        SliceBehind(q, rest, at - 4, end - 4, at, end);
      }
    }
  }

  /** The groups stand one behind the other. */
  lemma GroupAt(a: Alphabet, data: Bytes, k: nat)
    requires 3 * k < |data|
    ensures 4 * k + 4 <= |Encode(a, data)|
    ensures Encode(a, data)[4 * k..4 * k + 4] == EncodeGroup(a, data[3 * k..Min(3 * k + 3, |data|)])
  {
    var from, to := 3 * k, Min(3 * k + 3, |data|);
    GroupFrom(a, data, Encode(a, data), k, from, to, 4 * k, 4 * k + 4, data[from..to]);
  }

  // ----- decoding -----

  function Pads(s: Bytes): nat {
    if s == [] || s[|s| - 1] != PAD then 0 else 1 + Pads(s[..|s| - 1])
  }

  predicate InAlphabet(a: Alphabet, s: Bytes) {
    forall i :: 0 <= i < |s| ==> DecodeChar(a, s[i]) != INVALID
  }

  /** Whole groups of four characters of the alphabet, with at most two padding characters at the end. */
  predicate Encoded(a: Alphabet, s: Bytes) {
    s != [] && |s| % 4 == 0 && Pads(s) <= 2 && InAlphabet(a, s[..|s| - Pads(s)])
  }

  /** The character is one of the alphabet. */
  predicate IsLetter(a: Alphabet, c: bv8) {
    exists k :: 0 <= k < |Letters(a)| && Letters(a)[k] as int == c as int
  }

  lemma DigitOf(k: nat) returns (v: bv8)
    requires k < 64
    ensures v < 64 && v as int == k
  {
    v := k as bv8;
  }

  lemma SameCode(b: bv8, c: bv8)
    requires b as int == c as int
    ensures b == c
  {
  }

  lemma ReadableIsLetter(a: Alphabet, c: bv8)
    requires DecodeChar(a, c) != INVALID
    ensures IsLetter(a, c)
  {
    var v := DecodeChar(a, c);
    EncodeInvertsDecode(a, c);
    EncodeCharIs(a, v);
    var k: int := v as int;
    assert Letters(a)[k] as int == c as int;
  }

  lemma LetterAtIsReadable(a: Alphabet, c: bv8, k: nat)
    requires k < 64 && |Letters(a)| == 64 && Letters(a)[k] as int == c as int
    ensures DecodeChar(a, c) != INVALID
  {
    var v := DigitOf(k);
    EncodeCharIs(a, v);
    SameCode(EncodeChar(a, v), c);
    DecodeInvertsEncode(a, v);
  }

  lemma LetterIsReadable(a: Alphabet, c: bv8)
    ensures IsLetter(a, c) <==> DecodeChar(a, c) != INVALID
  {
    EncodeCharIs(a, 0);
    if DecodeChar(a, c) != INVALID {
      ReadableIsLetter(a, c);
    }
    if IsLetter(a, c) {
      var k :| 0 <= k < |Letters(a)| && Letters(a)[k] as int == c as int;
      LetterAtIsReadable(a, c, k);
    }
  }

  /** Letters, and behind them so many '='. */
  predicate IsPadded(a: Alphabet, s: Bytes, pads: nat) {
    && pads <= |s|
    && (forall i :: 0 <= i < |s| - pads ==> IsLetter(a, s[i]))
    && forall i :: |s| - pads <= i < |s| ==> s[i] as int == '=' as int
  }

  lemma {:induction false} PadsAre(s: Bytes)
    ensures Pads(s) <= |s|
    ensures forall i :: |s| - Pads(s) <= i < |s| ==> s[i] == PAD
    ensures Pads(s) < |s| ==> s[|s| - Pads(s) - 1] != PAD
  {
    if s != [] && s[|s| - 1] == PAD {
      PadsAre(s[..|s| - 1]);
    }
  }

  /** What is accepted, in plain terms. */
  lemma EncodedIs(a: Alphabet, s: Bytes)
    ensures Encoded(a, s)
            <==> s != [] && |s| % 4 == 0 && (IsPadded(a, s, 0) || IsPadded(a, s, 1) || IsPadded(a, s, 2))
  {
    var n := Pads(s);
    PadsAre(s);
    forall i | 0 <= i < |s| ensures IsLetter(a, s[i]) <==> DecodeChar(a, s[i]) != INVALID {
      LetterIsReadable(a, s[i]);
    }
    LetterIsReadable(a, PAD);
    assert PAD as int == '=' as int && DecodeChar(a, PAD) == INVALID;
    if Encoded(a, s) {
      assert forall i :: 0 <= i < |s| - n ==> s[..|s| - n][i] == s[i];
      assert IsPadded(a, s, n);
    }
    if s != [] && |s| % 4 == 0 && (IsPadded(a, s, 0) || IsPadded(a, s, 1) || IsPadded(a, s, 2)) {
      var p := if IsPadded(a, s, 0) then 0 else if IsPadded(a, s, 1) then 1 else 2;
      OnlyPads(a, s, p);
    }
  }

  lemma {:induction false} PadsIs(s: Bytes, p: nat)
    requires p < |s| && s[|s| - p - 1] != PAD
    requires forall i :: |s| - p <= i < |s| ==> s[i] == PAD
    ensures Pads(s) == p
  {
    if p > 0 {
      PadsIs(s[..|s| - 1], p - 1);
    }
  }

  lemma OnlyPads(a: Alphabet, s: Bytes, p: nat)
    requires s != [] && |s| % 4 == 0 && p <= 2 && IsPadded(a, s, p)
    ensures Encoded(a, s)
  {
    forall i | 0 <= i < |s| - p ensures DecodeChar(a, s[i]) != INVALID {
      LetterIsReadable(a, s[i]);
    }
    forall i | |s| - p <= i < |s| ensures s[i] == PAD {
      SameCode(s[i], PAD);
    }
    assert DecodeChar(a, PAD) == INVALID;
    PadsIs(s, p);
  }

  function Value(a: Alphabet, c: bv8): bv8 {
    if c == PAD then 0 else DecodeChar(a, c)
  }

  function DecodeGroup(a: Alphabet, q: Bytes): (r: Bytes)
    requires |q| == 4
    ensures |r| == 3
  {
    var v0, v1, v2, v3 := Value(a, q[0]), Value(a, q[1]), Value(a, q[2]), Value(a, q[3]);
    [Octet0(v0, v1), Octet1(v1, v2), Octet2(v2, v3)]
  }

  function Decode(a: Alphabet, s: Bytes): (r: Bytes)
    requires s != [] && |s| % 4 == 0 && Pads(s) <= 2
    ensures |r| == |s| / 4 * 3 - Pads(s)
  {
    if |s| == 4 then DecodeGroup(a, s)[..3 - Pads(s)]
    else
      PadsOfTail(s, 4);
      DecodeGroup(a, s[..4]) + Decode(a, s[4..])
  }

  lemma {:induction false} PadsOfTail(s: Bytes, k: nat)
    requires k < |s| && Pads(s) < |s| - k
    ensures Pads(s[k..]) == Pads(s)
  {
    if s[|s| - 1] == PAD {
      assert s[..|s| - 1][k..] == s[k..][..|s[k..]| - 1];
      PadsOfTail(s[..|s| - 1], k);
    }
  }

  // ----- round trips -----

  lemma GroupRoundTrip(a: Alphabet, g: Bytes)
    requires 1 <= |g| <= 3
    ensures var q := EncodeGroup(a, g);
            Pads(q) == 3 - |g| && InAlphabet(a, q[..4 - Pads(q)]) && DecodeGroup(a, q)[..|g|] == g
  {
    var b1, b2 := if |g| > 1 then g[1] else 0, if |g| > 2 then g[2] else 0;
    var q := EncodeGroup(a, g);
    SextetsAreSmall(g[0], b1, b2);
    OctetsOfSextets(g[0], b1, b2);
    DecodeInvertsEncode(a, Sextet0(g[0]));
    DecodeInvertsEncode(a, Sextet1(g[0], b1));
    DecodeInvertsEncode(a, Sextet2(b1, b2));
    DecodeInvertsEncode(a, Sextet3(b2));
    GroupPads(q, 3 - |g|);
    PaddedGroup(g[0], b1);
    assert DecodeGroup(a, q)[0] == g[0];
  }

  lemma GroupPads(q: Bytes, pads: nat)
    requires |q| == 4 && pads <= 2 && (forall i :: 0 <= i < 4 ==> (q[i] == PAD <==> i >= 4 - pads))
    ensures Pads(q) == pads
  {
    assert Pads(q[..4 - pads]) == 0;
    if pads > 0 {
      assert q[..3][..2] == q[..2];
      assert Pads(q[..3]) == pads - 1;
    }
  }

  /** Padding stands for zero bits, which decode to the bytes that are there. */
  lemma PaddedGroup(b0: bv8, b1: bv8)
    ensures Octet0(Sextet0(b0), Sextet1(b0, 0)) == b0
    ensures Octet1(Sextet1(b0, b1), Sextet2(b1, 0)) == b1
  {
  }

  lemma {:induction false} PadsOfConcat(s: Bytes, t: Bytes)
    requires Pads(t) < |t|
    ensures Pads(s + t) == Pads(t)
  {
    if t[|t| - 1] == PAD {
      assert (s + t)[..|s + t| - 1] == s + t[..|t| - 1];
      PadsOfConcat(s, t[..|t| - 1]);
    }
  }

  lemma LastGroupRoundTrip(a: Alphabet, g: Bytes)
    requires 1 <= |g| <= 3
    ensures Encoded(a, EncodeGroup(a, g)) && Decode(a, EncodeGroup(a, g)) == g
  {
    GroupRoundTrip(a, g);
  }

  lemma FullGroupRoundTrip(a: Alphabet, g: Bytes)
    requires |g| == 3
    ensures InAlphabet(a, EncodeGroup(a, g)) && DecodeGroup(a, EncodeGroup(a, g)) == g
  {
    GroupRoundTrip(a, g);
    var q := EncodeGroup(a, g);
    assert q[..4] == q && DecodeGroup(a, q)[..3] == DecodeGroup(a, q);
  }

  lemma GroupInFront(a: Alphabet, q: Bytes, rest: Bytes)
    requires |q| == 4 && InAlphabet(a, q) && Encoded(a, rest)
    ensures Pads(q + rest) == Pads(rest) && Encoded(a, q + rest)
    ensures Decode(a, q + rest) == DecodeGroup(a, q) + Decode(a, rest)
  {
    PadsOfConcat(q, rest);
    assert (q + rest)[..4] == q && (q + rest)[4..] == rest;
    assert (q + rest)[..|q + rest| - Pads(rest)] == q + rest[..|rest| - Pads(rest)];
  }

  /** Encoding rounds up to whole groups. */
  lemma {:induction false} EncodedSize(a: Alphabet, data: Bytes)
    ensures |Encode(a, data)| == (|data| + 2) / 3 * 4
  {
    if |data| > 3 {
      EncodedSize(a, data[3..]);
      assert (|data| + 2) / 3 == (|data| - 3 + 2) / 3 + 1;
    }
  }

  /** Decoding gives the bytes back. */
  lemma {:induction false} RoundTrip(a: Alphabet, data: Bytes)
    requires data != []
    ensures var s := Encode(a, data);
            Encoded(a, s) && Decode(a, s) == data
  {
    if |data| <= 3 {
      LastGroupRoundTrip(a, data);
    } else {
      var q, rest := EncodeGroup(a, data[..3]), Encode(a, data[3..]);
      FullGroupRoundTrip(a, data[..3]);
      RoundTrip(a, data[3..]);
      GroupInFront(a, q, rest);
      assert data == data[..3] + data[3..];
    }
  }

  /** What is left of the last group's bits is zero (RFC 4648, section 3.5). */
  predicate PadBitsZero(a: Alphabet, s: Bytes)
    requires Encoded(a, s)
  {
    && (Pads(s) == 1 ==> DecodeChar(a, s[|s| - 2]) & 0x03 == 0)
    && (Pads(s) == 2 ==> DecodeChar(a, s[|s| - 3]) & 0x0F == 0)
  }

  lemma PadsMeanPadding(s: Bytes)
    requires |s| >= 4 && Pads(s) <= 2
    ensures Pads(s) == 0 ==> s[|s| - 1] != PAD
    ensures Pads(s) == 1 ==> s[|s| - 1] == PAD && s[|s| - 2] != PAD
    ensures Pads(s) == 2 ==> s[|s| - 1] == PAD && s[|s| - 2] == PAD && s[|s| - 3] != PAD
  {
    if s[|s| - 1] == PAD {
      var t := s[..|s| - 1];
      assert Pads(t) == Pads(s) - 1;
      if t[|t| - 1] == PAD {
        assert Pads(t[..|t| - 1]) == 0;
      }
    }
  }

  lemma OnePadCanonical(a: Alphabet, q: Bytes)
    requires |q| == 4 && InAlphabet(a, q[..3]) && q[3] == PAD
    ensures EncodeGroup(a, DecodeGroup(a, q)[..2]) == q <==> DecodeChar(a, q[2]) & 0x03 == 0
  {
    assert q[..3][0] == q[0] && q[..3][1] == q[1] && q[..3][2] == q[2];
    var v0, v1, v2 := DecodeChar(a, q[0]), DecodeChar(a, q[1]), DecodeChar(a, q[2]);
    EncodeInvertsDecode(a, q[0]);
    EncodeInvertsDecode(a, q[1]);
    EncodeInvertsDecode(a, q[2]);
    UnusedBits(v0, v1, v2);
    SextetsAreSmall(Octet0(v0, v1), Octet1(v1, v2), 0);
    SameChar(a, Sextet2(Octet1(v1, v2), 0), v2);
  }

  lemma TwoPadsCanonical(a: Alphabet, q: Bytes)
    requires |q| == 4 && InAlphabet(a, q[..2]) && q[2] == PAD && q[3] == PAD
    ensures EncodeGroup(a, DecodeGroup(a, q)[..1]) == q <==> DecodeChar(a, q[1]) & 0x0F == 0
  {
    assert q[..2][0] == q[0] && q[..2][1] == q[1];
    var v0, v1 := DecodeChar(a, q[0]), DecodeChar(a, q[1]);
    EncodeInvertsDecode(a, q[0]);
    EncodeInvertsDecode(a, q[1]);
    UnusedBits(v0, v1, 0);
    SextetsAreSmall(Octet0(v0, v1), 0, 0);
    SameChar(a, Sextet1(Octet0(v0, v1), 0), v1);
  }

  lemma FullGroupCanonical(a: Alphabet, q: Bytes)
    requires |q| == 4 && Encoded(a, q) && Pads(q) == 0
    ensures EncodeGroup(a, DecodeGroup(a, q)[..3]) == q
  {
    assert q[..4] == q && DecodeGroup(a, q)[..3] == DecodeGroup(a, q);
    FullGroup(a, q);
  }

  lemma OnePadGroup(a: Alphabet, q: Bytes)
    requires |q| == 4 && Encoded(a, q) && Pads(q) == 1
    ensures EncodeGroup(a, DecodeGroup(a, q)[..2]) == q <==> PadBitsZero(a, q)
  {
    PadsMeanPadding(q);
    OnePadCanonical(a, q);
  }

  lemma TwoPadsGroup(a: Alphabet, q: Bytes)
    requires |q| == 4 && Encoded(a, q) && Pads(q) == 2
    ensures EncodeGroup(a, DecodeGroup(a, q)[..1]) == q <==> PadBitsZero(a, q)
  {
    PadsMeanPadding(q);
    TwoPadsCanonical(a, q);
  }

  lemma LastGroupCanonical(a: Alphabet, q: Bytes, kept: nat)
    requires |q| == 4 && Encoded(a, q) && kept == 3 - Pads(q)
    ensures EncodeGroup(a, DecodeGroup(a, q)[..kept]) == q <==> PadBitsZero(a, q)
  {
    if kept == 3 {
      FullGroupCanonical(a, q);
    } else if kept == 2 {
      OnePadGroup(a, q);
    } else {
      TwoPadsGroup(a, q);
    }
  }

  lemma SameChar(a: Alphabet, v: bv8, w: bv8)
    requires v < 64 && w < 64
    ensures EncodeChar(a, v) == EncodeChar(a, w) <==> v == w
  {
    DecodeInvertsEncode(a, v);
    DecodeInvertsEncode(a, w);
  }

  /** Encoding gives an accepted text back exactly if its unused bits are zero. */
  lemma {:induction false} Canonical(a: Alphabet, s: Bytes)
    requires Encoded(a, s)
    ensures Encode(a, Decode(a, s)) == s <==> PadBitsZero(a, s)
  {
    if |s| == 4 {
      LastGroupCanonical(a, s, 3 - Pads(s));
    } else {
      var q, rest := s[..4], s[4..];
      Halves(a, s);
      Canonical(a, rest);
      FullGroup(a, q);
      var bytes, others := DecodeGroup(a, q), Decode(a, rest);
      assert (bytes + others)[..3] == bytes && (bytes + others)[3..] == others;
      assert Encode(a, bytes + others) == q + Encode(a, others);
      assert s == q + rest && (q + Encode(a, others))[4..] == Encode(a, others);
    }
  }

  lemma Halves(a: Alphabet, s: Bytes)
    requires Encoded(a, s) && |s| > 4
    ensures InAlphabet(a, s[..4]) && Encoded(a, s[4..]) && Pads(s[4..]) == Pads(s)
    ensures PadBitsZero(a, s[4..]) <==> PadBitsZero(a, s)
    ensures Decode(a, s) == DecodeGroup(a, s[..4]) + Decode(a, s[4..])
  {
    var q, rest, pads := s[..4], s[4..], Pads(s);
    var n, m := |s|, |rest|;
    PadsOfTail(s, 4);
    assert s[..n - pads] == q + rest[..m - pads];
    InAlphabetConcat(a, q, rest[..m - pads]);
    assert rest[m - 2] == s[n - 2] && rest[m - 3] == s[n - 3];
  }

  lemma FullGroup(a: Alphabet, q: Bytes)
    requires |q| == 4 && InAlphabet(a, q)
    ensures EncodeGroup(a, DecodeGroup(a, q)) == q
  {
    EncodeInvertsDecode(a, q[0]);
    EncodeInvertsDecode(a, q[1]);
    EncodeInvertsDecode(a, q[2]);
    EncodeInvertsDecode(a, q[3]);
    SextetsOfOctets(DecodeChar(a, q[0]), DecodeChar(a, q[1]), DecodeChar(a, q[2]), DecodeChar(a, q[3]));
  }

  /** The one text that is encoded but not accepted. */
  lemma EmptyIsNotAccepted(a: Alphabet)
    ensures Encode(a, []) == [] && !Encoded(a, Encode(a, []))
  {
  }

  // ----- the encoder -----

  const QUANTUM_SIZE := 4
  const INPUT_GROUP_SIZE := 3

  /** The 24 bits of a group. */
  function Joined(b0: bv8, b1: bv8, b2: bv8): bv32 {
    ((b0 as bv32) << 16) | ((b1 as bv32) << 8) | (b2 as bv32)
  }

  function LastDigit(input: bv32): bv8 {
    (input & 0x3F) as bv8
  }

  function Rest(input: bv32): bv32 {
    input >> 6
  }

  lemma DigitsOfJoined(b0: bv8, b1: bv8, b2: bv8)
    ensures var input := Joined(b0, b1, b2);
            && LastDigit(Rest(Rest(Rest(input)))) == Sextet0(b0)
            && LastDigit(Rest(Rest(input))) == Sextet1(b0, b1)
            && LastDigit(Rest(input)) == Sextet2(b1, b2)
            && LastDigit(input) == Sextet3(b2)
  {
  }

  function Digit(table: bv8 -> bv8, input: bv32, last: nat, k: nat): bv8 {
    if k > last then PAD else table(LastDigit(input))
  }

  /** The first digits, the last of them taken from the low end of the input. */
  function Digits(table: bv8 -> bv8, input: bv32, last: nat, count: nat): (r: Bytes)
    ensures |r| == count
  {
    if count == 0 then []
    else Digits(table, Rest(input), last, count - 1) + [Digit(table, input, last, count - 1)]
  }

  lemma NextDigit(table: bv8 -> bv8, input: bv32, last: nat, k: nat, next: nat)
    requires k == next + 1
    ensures Digits(table, input, last, k) == Digits(table, Rest(input), last, next) + [Digit(table, input, last, next)]
  {
  }

  /** Writes the four digits of a group from the last to the first; those behind `last` are padding. */
  method PutDigits(table: bv8 -> bv8, group: bv32, last: nat, destination: array<bv8>, at: nat, ghost end: nat)
    requires end == at + QUANTUM_SIZE <= destination.Length
    modifies destination
    ensures destination[..end] == old(destination[..at]) + Digits(table, group, last, QUANTUM_SIZE)
  {
    var input, index := group, QUANTUM_SIZE;
    while index > 0
      invariant 0 <= index <= QUANTUM_SIZE
      invariant destination[..at] == old(destination[..at])
      invariant Digits(table, input, last, index) + destination[at + index..end]
                == Digits(table, group, last, QUANTUM_SIZE)
    {
      var next := index - 1;
      NextDigit(table, input, last, index, next);
      ghost var written := destination[at + index..end];
      destination[at + next] := if next > last then PAD else table(LastDigit(input));
      assert destination[at + next..end] == [Digit(table, input, last, next)] + written;
      input := Rest(input);
      index := next;
    }
    assert destination[..end] == destination[..at] + destination[at..end];
  }

  function EncodeTable(a: Alphabet): bv8 -> bv8 {
    v => EncodeChar(a, v)
  }

  function GroupBits(g: Bytes): bv32
    requires 1 <= |g| <= 3
  {
    Joined(g[0], if |g| > 1 then g[1] else 0, if |g| > 2 then g[2] else 0)
  }

  lemma FourDigits(table: bv8 -> bv8, group: bv32, last: nat)
    ensures Digits(table, group, last, QUANTUM_SIZE)
            == [Digit(table, Rest(Rest(Rest(group))), last, 0), Digit(table, Rest(Rest(group)), last, 1),
                Digit(table, Rest(group), last, 2), Digit(table, group, last, 3)]
  {
    var r1 := Rest(group);
    var r2 := Rest(r1);
    NextDigit(table, group, last, 4, 3);
    NextDigit(table, r1, last, 3, 2);
    NextDigit(table, r2, last, 2, 1);
    NextDigit(table, Rest(r2), last, 1, 0);
  }

  lemma DigitsOfGroup(a: Alphabet, g: Bytes)
    requires 1 <= |g| <= 3
    ensures Digits(EncodeTable(a), GroupBits(g), |g|, QUANTUM_SIZE) == EncodeGroup(a, g)
  {
    FourDigits(EncodeTable(a), GroupBits(g), |g|);
    DigitsOfJoined(g[0], if |g| > 1 then g[1] else 0, if |g| > 2 then g[2] else 0);
  }

  lemma EncodeRest(a: Alphabet, data: Bytes, from: nat)
    requires from <= |data| < from + INPUT_GROUP_SIZE
    ensures Encode(a, data[from..]) == if from == |data| then [] else EncodeGroup(a, data[from..])
  {
  }

  lemma EncodeStep(a: Alphabet, data: Bytes, from: nat, next: nat)
    requires next == from + INPUT_GROUP_SIZE <= |data|
    ensures Encode(a, data[from..]) == EncodeGroup(a, data[from..next]) + Encode(a, data[next..])
  {
    var rest := data[from..];
    assert rest[..3] == data[from..next] && rest[3..] == data[next..];
    if |rest| == 3 {
      assert rest[..3] == rest && EncodeGroup(a, rest) + [] == EncodeGroup(a, rest);
    }
  }

  lemma EncodedSoFar(a: Alphabet, data: Bytes, was: Bytes, now: Bytes, from: nat, next: nat)
    requires next == from + INPUT_GROUP_SIZE <= |data|
    requires was + Encode(a, data[from..]) == Encode(a, data) && now == was + EncodeGroup(a, data[from..next])
    ensures now + Encode(a, data[next..]) == Encode(a, data)
  {
    EncodeStep(a, data, from, next);
  }

  lemma GroupFits(iteration: nat, count: nat, size: nat)
    requires iteration < count == size / INPUT_GROUP_SIZE
    ensures (iteration + 1) * INPUT_GROUP_SIZE == iteration * INPUT_GROUP_SIZE + INPUT_GROUP_SIZE <= size
    ensures (iteration + 1) * QUANTUM_SIZE == iteration * QUANTUM_SIZE + QUANTUM_SIZE <= count * QUANTUM_SIZE
  {
  }

  /** Encodes the full groups. */
  method EncodeGroups(a: Alphabet, data: Bytes, count: nat, encoded: array<bv8>) returns (from: nat, at: nat)
    requires count == |data| / INPUT_GROUP_SIZE && count * QUANTUM_SIZE <= encoded.Length
    modifies encoded
    ensures from == count * INPUT_GROUP_SIZE <= |data| && at == count * QUANTUM_SIZE
    ensures encoded[..at] + Encode(a, data[from..]) == Encode(a, data)
  {
    var table, iteration := EncodeTable(a), 0;
    from, at := 0, 0;
    while iteration < count
      invariant 0 <= iteration <= count && from == iteration * INPUT_GROUP_SIZE && at == iteration * QUANTUM_SIZE
      invariant encoded[..at] + Encode(a, data[from..]) == Encode(a, data)
    {
      var next, after := from + INPUT_GROUP_SIZE, at + QUANTUM_SIZE;
      GroupFits(iteration, count, |data|);
      ghost var was := encoded[..at];
      var group := data[from..next];
      DigitsOfGroup(a, group);
      PutDigits(table, GroupBits(group), INPUT_GROUP_SIZE, encoded, at, after);
      EncodedSoFar(a, data, was, encoded[..after], from, next);
      iteration, from, at := iteration + 1, next, after;
    }
  }

  /** The encoder.  Its text is the one defined above, with a terminator. */
  method EncodeWithTable(a: Alphabet, data: Bytes, hasMemory: bool) returns (code: Code, encoded: array?<bv8>)
    ensures code == if hasMemory then Ok else OutOfMemory
    ensures code == Ok ==> encoded != null && encoded[..] == Encode(a, data) + [0]
  {
    var count, remainder := |data| / INPUT_GROUP_SIZE, |data| % INPUT_GROUP_SIZE;
    var size := count * QUANTUM_SIZE + 1;
    if remainder != 0 {
      size := size + QUANTUM_SIZE;
    }
    if !hasMemory {
      return OutOfMemory, null;
    }
    encoded := new bv8[size];
    var from, at := EncodeGroups(a, data, count, encoded);
    EncodeRest(a, data, from);
    if remainder != 0 {
      DigitsOfGroup(a, data[from..]);
      PutDigits(EncodeTable(a), GroupBits(data[from..]), remainder, encoded, at, size - 1);
    } else {
      assert encoded[..at] + [] == encoded[..at];
    }
    assert encoded[..size - 1] == Encode(a, data);
    encoded[size - 1] := 0;
    assert encoded[..] == encoded[..size - 1] + [0];
    code := Ok;
  }

  // ----- the decoder -----

  function DecodeTable(a: Alphabet): bv8 -> bv8 {
    c => DecodeChar(a, c)
  }

  function TableValue(table: bv8 -> bv8, c: bv8): bv8 {
    if c == PAD then 0 else table(c)
  }

  function Push(data: bv32, v: bv8): bv32 {
    (data << 6) + (v as bv32)
  }

  function LowByte(data: bv32): bv8 {
    (data & 0xFF) as bv8
  }

  function DropByte(data: bv32): bv32 {
    data >> 8
  }

  /** The bits of the first characters. */
  function Composed(table: bv8 -> bv8, q: Bytes): bv32 {
    if q == [] then 0 else Push(Composed(table, q[..|q| - 1]), TableValue(table, q[|q| - 1]))
  }

  function PadCount(q: Bytes): nat {
    if q == [] then 0 else PadCount(q[..|q| - 1]) + if q[|q| - 1] == PAD then 1 else 0
  }

  predicate Readable(table: bv8 -> bv8, q: Bytes) {
    forall i :: 0 <= i < |q| ==> q[i] == PAD || table(q[i]) != INVALID
  }

  /** The first octets, the last of them taken from the low end of the data. */
  function Octets(data: bv32, count: nat): (r: Bytes)
    ensures |r| == count
  {
    if count == 0 then [] else Octets(DropByte(data), count - 1) + [LowByte(data)]
  }

  lemma {:induction false} PadCountGrows(q: Bytes, i: nat)
    requires i <= |q|
    ensures PadCount(q[..i]) <= PadCount(q)
    decreases |q| - i
  {
    if i < |q| {
      PadCountGrows(q, i + 1);
      assert q[..i + 1][..i] == q[..i];
    } else {
      assert q[..i] == q;
    }
  }

  /** Composes the 24 bits of a group of four characters. */
  method Compose(table: bv8 -> bv8, q: Bytes) returns (code: Code, data: bv32, pads: nat)
    ensures code == if Readable(table, q) && PadCount(q) <= 2 then Ok else BadContentEncoding
    ensures code == Ok ==> data == Composed(table, q) && pads == PadCount(q)
  {
    var index := 0;
    code, data, pads := Ok, 0, 0;
    while index < |q| && code == Ok
      invariant 0 <= index <= |q|
      invariant code == if Readable(table, q[..index]) && PadCount(q[..index]) <= 2 then Ok else BadContentEncoding
      invariant code == Ok ==> data == Composed(table, q[..index]) && pads == PadCount(q[..index])
    {
      var next, c := index + 1, q[index];
      assert q[..next][..index] == q[..index] && q[..next] == q[..index] + [c];
      data := Push(data, TableValue(table, c));
      if c == PAD {
        pads := pads + 1;
        if pads > 2 {
          code := BadContentEncoding;
        }
      } else if table(c) == INVALID {
        code := BadContentEncoding;
      }
      index := next;
    }
    PadCountGrows(q, index);
    assert q[..|q|] == q;
  }

  lemma NextOctet(data: bv32, k: nat, next: nat)
    requires k == next + 1
    ensures Octets(data, k) == Octets(DropByte(data), next) + [LowByte(data)]
  {
  }

  /** The octets that are still to be written, in front of those that are. */
  ghost predicate OctetsLeft(data: bv32, index: nat, kept: nat, written: Bytes, all: Bytes) {
    Octets(data, index)[..Min(index, kept)] + written == all
  }

  lemma OctetStep(data: bv32, index: nat, next: nat, kept: nat, written: Bytes, all: Bytes)
    requires OctetsLeft(data, index, kept, written, all) && index == next + 1
    ensures OctetsLeft(DropByte(data), next, kept, if next < kept then [LowByte(data)] + written else written, all)
  {
    var rest := Octets(DropByte(data), next);
    assert Octets(data, index) == rest + [LowByte(data)];
    if next < kept {
      assert (rest + [LowByte(data)]) + written == rest + ([LowByte(data)] + written);
      assert rest[..next] == rest && Octets(data, index)[..index] == Octets(data, index);
    } else {
      assert (rest + [LowByte(data)])[..kept] == rest[..kept];
    }
  }

  /** Writes the bytes of a group from the last to the first, but for those that padding stands for. */
  method PutOctets(bits: bv32, kept: nat, destination: array<bv8>, at: nat, ghost end: nat)
    requires end == at + kept <= destination.Length && kept <= INPUT_GROUP_SIZE
    modifies destination
    ensures destination[..end] == old(destination[..at]) + Octets(bits, INPUT_GROUP_SIZE)[..kept]
  {
    var data, index := bits, INPUT_GROUP_SIZE;
    ghost var written: Bytes, all := [], Octets(bits, INPUT_GROUP_SIZE)[..kept];
    while index > 0
      invariant 0 <= index <= INPUT_GROUP_SIZE
      invariant destination[..at] == old(destination[..at])
      invariant written == destination[at + Min(index, kept)..end]
      invariant OctetsLeft(data, index, kept, written, all)
    {
      var next := index - 1;
      OctetStep(data, index, next, kept, written, all);
      if kept > next {
        destination[at + next] := LowByte(data);
        written := [LowByte(data)] + written;
      }
      data := DropByte(data);
      index := next;
    }
    assert destination[..end] == destination[..at] + written;
  }

  lemma OctetsOfPushed(v0: bv8, v1: bv8, v2: bv8, v3: bv8)
    requires v0 < 64 && v1 < 64 && v2 < 64 && v3 < 64
    ensures var data := Push(Push(Push(Push(0, v0), v1), v2), v3);
            && LowByte(DropByte(DropByte(data))) == Octet0(v0, v1)
            && LowByte(DropByte(data)) == Octet1(v1, v2)
            && LowByte(data) == Octet2(v2, v3)
  {
  }

  lemma ValueIsSmall(a: Alphabet, c: bv8)
    requires c == PAD || DecodeChar(a, c) != INVALID
    ensures Value(a, c) < 64 && TableValue(DecodeTable(a), c) == Value(a, c)
  {
  }

  lemma FourComposed(table: bv8 -> bv8, q: Bytes)
    requires |q| == 4
    ensures Composed(table, q)
            == Push(Push(Push(Push(0, TableValue(table, q[0])), TableValue(table, q[1])), TableValue(table, q[2])),
                    TableValue(table, q[3]))
  {
    assert q[..3][..2] == q[..2] && q[..2][..1] == q[..1] && q[..1][..0] == [];
    assert Composed(table, q[..1]) == Push(0, TableValue(table, q[0]));
    assert Composed(table, q[..2]) == Push(Composed(table, q[..1]), TableValue(table, q[1]));
    assert Composed(table, q[..3]) == Push(Composed(table, q[..2]), TableValue(table, q[2]));
  }

  lemma ThreeOctets(data: bv32)
    ensures Octets(data, INPUT_GROUP_SIZE) == [LowByte(DropByte(DropByte(data))), LowByte(DropByte(data)), LowByte(data)]
  {
    var d1 := DropByte(data);
    var d2 := DropByte(d1);
    NextOctet(data, 3, 2);
    NextOctet(d1, 2, 1);
    NextOctet(d2, 1, 0);
  }

  lemma OctetsOfGroup(a: Alphabet, q: Bytes)
    requires |q| == 4 && Readable(DecodeTable(a), q)
    ensures Octets(Composed(DecodeTable(a), q), INPUT_GROUP_SIZE) == DecodeGroup(a, q)
  {
    FourComposed(DecodeTable(a), q);
    ThreeOctets(Composed(DecodeTable(a), q));
    ValueIsSmall(a, q[0]);
    ValueIsSmall(a, q[1]);
    ValueIsSmall(a, q[2]);
    ValueIsSmall(a, q[3]);
    OctetsOfPushed(Value(a, q[0]), Value(a, q[1]), Value(a, q[2]), Value(a, q[3]));
  }

  method DecodeQuantum(table: bv8 -> bv8, q: Bytes, destination: array<bv8>, at: nat, ghost end: nat) returns (code: Code)
    requires PadCount(q) <= 2 ==> end == at + (INPUT_GROUP_SIZE - PadCount(q)) <= destination.Length
    modifies destination
    ensures code == if Readable(table, q) && PadCount(q) <= 2 then Ok else BadContentEncoding
    ensures code == Ok ==>
              destination[..end]
              == old(destination[..at]) + Octets(Composed(table, q), INPUT_GROUP_SIZE)[..INPUT_GROUP_SIZE - PadCount(q)]
  {
    var data, pads;
    code, data, pads := Compose(table, q);
    if code == Ok {
      PutOctets(data, INPUT_GROUP_SIZE - pads, destination, at, end);
    }
  }

  // ----- whole texts -----

  /** Whole groups, with at most two padding characters, and those at the end. */
  predicate WellShaped(s: Bytes) {
    s != [] && |s| % 4 == 0 && Pads(s) <= 2 && forall i :: 0 <= i < |s| - Pads(s) ==> s[i] != PAD
  }

  lemma EncodedIsWellShaped(a: Alphabet, s: Bytes)
    ensures Encoded(a, s) <==> WellShaped(s) && InAlphabet(a, s[..|s| - Pads(s)])
  {
    if Encoded(a, s) {
      forall i | 0 <= i < |s| - Pads(s) ensures s[i] != PAD {
        assert s[..|s| - Pads(s)][i] == s[i];
      }
    }
  }

  lemma {:induction false} PadsAreFewer(s: Bytes)
    ensures Pads(s) <= |s|
    ensures forall i :: |s| - Pads(s) <= i < |s| ==> s[i] == PAD
  {
    if s != [] && s[|s| - 1] == PAD {
      PadsAreFewer(s[..|s| - 1]);
    }
  }

  /** Counts the padding characters at the end, as long as they are not too many. */
  method CountPadding(s: Bytes) returns (code: Code, pads: nat)
    requires |s| >= QUANTUM_SIZE
    ensures code == if Pads(s) <= 2 then Ok else BadContentEncoding
    ensures code == Ok ==> pads == Pads(s)
  {
    var index := |s| - 1;
    code, pads := Ok, 0;
    assert s[..|s|] == s;
    while index > 0 && code == Ok
      invariant 0 <= index < |s| && index == |s| - 1 - pads
      invariant Pads(s) == pads + Pads(s[..index + 1])
      invariant code == if pads <= 2 then Ok else BadContentEncoding
    {
      if s[index] != PAD {
        break;
      }
      assert s[..index + 1][..index] == s[..index];
      pads := pads + 1;
      if pads > 2 {
        code := BadContentEncoding;
      }
      index := index - 1;
    }
  }

  lemma {:induction false} NoPads(q: Bytes)
    requires forall i :: 0 <= i < |q| ==> q[i] != PAD
    ensures PadCount(q) == 0
  {
    if q != [] {
      NoPads(q[..|q| - 1]);
    }
  }

  lemma {:induction false} PadsAtEnd(q: Bytes)
    requires forall i :: 0 <= i < |q| - Pads(q) ==> q[i] != PAD
    ensures PadCount(q) == Pads(q)
  {
    if q != [] && q[|q| - 1] == PAD {
      PadsAtEnd(q[..|q| - 1]);
    } else {
      NoPads(q);
    }
  }

  /** All groups can be read. */
  predicate AllReadable(a: Alphabet, s: Bytes) {
    |s| < QUANTUM_SIZE || (Readable(DecodeTable(a), s[..QUANTUM_SIZE]) && AllReadable(a, s[QUANTUM_SIZE..]))
  }

  lemma OnlyGroup(s: Bytes)
    requires WellShaped(s) && |s| == QUANTUM_SIZE
    ensures s[..QUANTUM_SIZE] == s && PadCount(s) == Pads(s)
  {
    PadsAtEnd(s);
  }

  lemma InnerGroup(s: Bytes, q: Bytes, rest: Bytes)
    requires WellShaped(s) && |s| > QUANTUM_SIZE && q == s[..QUANTUM_SIZE] && rest == s[QUANTUM_SIZE..]
    ensures PadCount(q) == 0 && (forall i :: 0 <= i < QUANTUM_SIZE ==> q[i] != PAD)
    ensures WellShaped(rest) && Pads(rest) == Pads(s)
  {
    PadsOfTail(s, QUANTUM_SIZE);
    assert forall i :: 0 <= i < |rest| ==> rest[i] == s[QUANTUM_SIZE + i];
    NoPads(q);
  }

  /** The groups of a well-shaped text are well shaped, and only the last one is padded. */
  lemma FirstGroup(s: Bytes)
    requires WellShaped(s)
    ensures forall i :: 0 <= i < QUANTUM_SIZE - PadCount(s[..QUANTUM_SIZE]) ==> s[i] != PAD
    ensures PadCount(s[..QUANTUM_SIZE]) == if |s| == QUANTUM_SIZE then Pads(s) else 0
    ensures |s| > QUANTUM_SIZE ==> WellShaped(s[QUANTUM_SIZE..]) && Pads(s[QUANTUM_SIZE..]) == Pads(s)
  {
    if |s| == QUANTUM_SIZE {
      OnlyGroup(s);
    } else {
      InnerGroup(s, s[..QUANTUM_SIZE], s[QUANTUM_SIZE..]);
      assert forall i :: 0 <= i < QUANTUM_SIZE ==> s[i] == s[..QUANTUM_SIZE][i];
    }
  }

  lemma ReadableGroup(a: Alphabet, q: Bytes, k: nat)
    requires |q| == QUANTUM_SIZE && k <= |q|
    requires (forall i :: 0 <= i < k ==> q[i] != PAD) && (forall i :: k <= i < |q| ==> q[i] == PAD)
    ensures Readable(DecodeTable(a), q) <==> InAlphabet(a, q[..k])
  {
    assert forall i :: 0 <= i < k ==> q[..k][i] == q[i];
  }

  lemma InAlphabetConcat(a: Alphabet, s: Bytes, t: Bytes)
    ensures InAlphabet(a, s + t) <==> InAlphabet(a, s) && InAlphabet(a, t)
  {
    assert forall i :: 0 <= i < |s| ==> (s + t)[i] == s[i];
    assert forall i :: 0 <= i < |t| ==> (s + t)[|s| + i] == t[i];
  }

  /** All groups can be read exactly if everything but the padding is in the alphabet. */
  lemma {:induction false} AllReadableIff(a: Alphabet, s: Bytes)
    requires WellShaped(s)
    ensures AllReadable(a, s) <==> InAlphabet(a, s[..|s| - Pads(s)])
  {
    var q, rest := s[..QUANTUM_SIZE], s[QUANTUM_SIZE..];
    FirstGroup(s);
    if |s| == QUANTUM_SIZE {
      assert q == s;
      PadsAreFewer(s);
      ReadableGroup(a, s, |s| - Pads(s));
    } else {
      ReadableGroup(a, q, QUANTUM_SIZE);
      AllReadableIff(a, rest);
      assert q[..QUANTUM_SIZE] == q && s[..|s| - Pads(s)] == q + rest[..|rest| - Pads(rest)];
      InAlphabetConcat(a, q, rest[..|rest| - Pads(rest)]);
    }
  }

  function DecodeRest(a: Alphabet, rest: Bytes): Bytes
    requires rest == [] || WellShaped(rest)
  {
    if rest == [] then [] else Decode(a, rest)
  }

  /** What is decoded so far, in front of what is still to be decoded. */
  ghost predicate DecodedSoFar(a: Alphabet, s: Bytes, decoded: Bytes, rest: Bytes)
    requires WellShaped(s)
  {
    && (rest == [] || WellShaped(rest))
    && (AllReadable(a, s) <==> AllReadable(a, rest))
    && decoded + DecodeRest(a, rest) == Decode(a, s)
  }

  lemma DecodeFirst(a: Alphabet, rest: Bytes)
    requires WellShaped(rest)
    ensures var q, others, kept := rest[..QUANTUM_SIZE], rest[QUANTUM_SIZE..],
                                   INPUT_GROUP_SIZE - PadCount(rest[..QUANTUM_SIZE]);
            && PadCount(q) <= 2 && (others == [] || WellShaped(others))
            && DecodeRest(a, rest) == DecodeGroup(a, q)[..kept] + DecodeRest(a, others)
  {
    FirstGroup(rest);
    if |rest| == QUANTUM_SIZE {
      assert rest[..QUANTUM_SIZE] == rest;
    }
  }

  lemma DecodeMore(a: Alphabet, s: Bytes, decoded: Bytes, rest: Bytes, bytes: Bytes, others: Bytes)
    requires WellShaped(s) && DecodedSoFar(a, s, decoded, rest) && (others == [] || WellShaped(others))
    requires DecodeRest(a, rest) == bytes + DecodeRest(a, others) && (AllReadable(a, rest) <==> AllReadable(a, others))
    ensures DecodedSoFar(a, s, decoded + bytes, others)
  {
    Associate(decoded, bytes, DecodeRest(a, others));
  }

  lemma DecodeStep(a: Alphabet, s: Bytes, decoded: Bytes, rest: Bytes, q: Bytes, others: Bytes)
    requires WellShaped(s) && DecodedSoFar(a, s, decoded, rest)
    requires rest != [] && q == rest[..QUANTUM_SIZE] && others == rest[QUANTUM_SIZE..]
    ensures PadCount(q) <= 2
    ensures if Readable(DecodeTable(a), q)
            then DecodedSoFar(a, s, decoded + Octets(Composed(DecodeTable(a), q), INPUT_GROUP_SIZE)[..INPUT_GROUP_SIZE - PadCount(q)],
                              others)
            else !AllReadable(a, s)
  {
    DecodeFirst(a, rest);
    if Readable(DecodeTable(a), q) {
      OctetsOfGroup(a, q);
      DecodeMore(a, s, decoded, rest, DecodeGroup(a, q)[..INPUT_GROUP_SIZE - PadCount(q)], others);
    }
  }

  /** The checks before anything is decoded. */
  method CheckShape(s: Bytes) returns (code: Code, pads: nat)
    ensures code == if WellShaped(s) then Ok else BadContentEncoding
    ensures code == Ok ==> pads == Pads(s)
  {
    pads := 0;
    if |s| == 0 || |s| % QUANTUM_SIZE != 0 {
      return BadContentEncoding, pads;
    }
    code, pads := CountPadding(s);
    if code == Ok {
      var index := 0;
      while index < |s| - (1 + pads)
        invariant 0 <= index <= |s| - pads
        invariant forall i :: 0 <= i < index ==> s[i] != PAD
      {
        if s[index] == PAD {
          return BadContentEncoding, pads;
        }
        index := index + 1;
      }
      LastIsNoPad(s);
    }
  }

  lemma LastIsNoPad(s: Bytes)
    requires |s| >= QUANTUM_SIZE && Pads(s) <= 2
    ensures s[|s| - 1 - Pads(s)] != PAD
  {
    PadsMeanPadding(s);
  }

  lemma DecodedFits(a: Alphabet, s: Bytes, decoded: Bytes, rest: Bytes)
    requires WellShaped(s) && DecodedSoFar(a, s, decoded, rest)
    ensures |decoded| + |DecodeRest(a, rest)| == |Decode(a, s)|
    ensures rest != [] ==>
              var q := rest[..QUANTUM_SIZE];
              && PadCount(q) <= 2 && (|rest| > QUANTUM_SIZE ==> PadCount(q) == 0)
              && |decoded| + (INPUT_GROUP_SIZE - PadCount(q)) <= |Decode(a, s)|
  {
    if rest != [] {
      FirstGroup(rest);
      DecodeFirst(a, rest);
    }
  }

  /** Decodes one group behind what is decoded so far. */
  method DecodeNext(a: Alphabet, q: Bytes, decoded: array<bv8>, at: nat, ghost s: Bytes, ghost rest: Bytes,
                    ghost others: Bytes) returns (code: Code, ghost end: nat)
    requires WellShaped(s) && decoded.Length == |Decode(a, s)| + 1
    requires at <= decoded.Length && DecodedSoFar(a, s, decoded[..at], rest)
    requires rest != [] && q == rest[..QUANTUM_SIZE] && others == rest[QUANTUM_SIZE..]
    modifies decoded
    ensures code == Ok || code == BadContentEncoding
    ensures if code == Ok
            then end < decoded.Length && DecodedSoFar(a, s, decoded[..end], others)
                 && (others != [] ==> end == at + INPUT_GROUP_SIZE)
            else !AllReadable(a, s)
  {
    ghost var was := decoded[..at];
    DecodedFits(a, s, was, rest);
    DecodeStep(a, s, was, rest, q, others);
    end := at + (INPUT_GROUP_SIZE - PadCount(q));
    code := DecodeQuantum(DecodeTable(a), q, decoded, at, end);
  }

  /** Decodes the groups one by one. */
  method DecodeGroups(a: Alphabet, s: Bytes, decoded: array<bv8>) returns (code: Code)
    requires WellShaped(s) && decoded.Length == |Decode(a, s)| + 1
    modifies decoded
    ensures code == if AllReadable(a, s) then Ok else BadContentEncoding
    ensures code == Ok ==> decoded[..decoded.Length - 1] == Decode(a, s)
  {
    var count, index, from := |s| / QUANTUM_SIZE, 0, 0;
    ghost var at: nat := 0;
    code := Ok;
    assert s[0..] == s && decoded[..0] + Decode(a, s) == Decode(a, s);
    while index < count && code == Ok
      invariant 0 <= index <= count && from == index * QUANTUM_SIZE && at < decoded.Length
      invariant code == Ok ==> DecodedSoFar(a, s, decoded[..at], s[from..])
      invariant index < count && code == Ok ==> at == index * INPUT_GROUP_SIZE
      invariant code != Ok ==> code == BadContentEncoding && !AllReadable(a, s)
    {
      var next := from + QUANTUM_SIZE;
      ghost var rest, others := s[from..], s[next..];
      assert s[from..next] == rest[..QUANTUM_SIZE] && others == rest[QUANTUM_SIZE..];
      ghost var end;
      code, end := DecodeNext(a, s[from..next], decoded, index * INPUT_GROUP_SIZE, s, rest, others);
      if code == Ok {
        at := end;
      }
      index, from := index + 1, next;
    }
    if code == Ok {
      assert s[from..] == [];
      DecodedFits(a, s, decoded[..at], []);
    }
  }

  /** The decoder.  Given memory, it accepts exactly the texts of the definition, and gives their bytes
      with a terminator. */
  method DecodeWithTable(a: Alphabet, s: Bytes, hasMemory: bool)
    returns (code: Code, decoded: array?<bv8>, size: nat)
    ensures code == Ok <==> Encoded(a, s) && hasMemory
    ensures code == OutOfMemory <==> WellShaped(s) && !hasMemory
    ensures code == Ok || code == OutOfMemory || code == BadContentEncoding
    ensures code == Ok ==> decoded != null && size == |Decode(a, s)| && decoded[..] == Decode(a, s) + [0]
    ensures code != Ok ==> decoded == null && size == 0
  {
    EncodedIsWellShaped(a, s);
    decoded, size := null, 0;
    var pads;
    code, pads := CheckShape(s);
    if code != Ok {
      return;
    }
    AllReadableIff(a, s);
    if !hasMemory {
      return OutOfMemory, null, 0;
    }
    var length := |s| / QUANTUM_SIZE * INPUT_GROUP_SIZE - pads;
    var buffer := new bv8[length + 1];
    code := DecodeGroups(a, s, buffer);
    buffer[length] := 0;
    if code == Ok {
      decoded, size := buffer, length;
    }
  }
}
