/** HMAC (RFC 2104, section 2) over an abstract hash, computed in two padded key buffers. */
module Hmac {
  import opened Core

  type Bytes = seq<bv8>

  const MAXIMUM_KEY_SIZE := 64
  const SHA256_SIZE := 32
  const IPAD: bv8 := 0x36
  const OPAD: bv8 := 0x5C

  type FailureCode = c: Code | c != Ok witness Fail

  /** The hash, and the calls in which it fails. */
  datatype Security = Security(hash: Bytes -> Bytes, failures: nat -> Option<FailureCode>) {
    function Call(k: nat, data: Bytes): (r: Result<Bytes>)
      ensures match r { case Success(h) => h == hash(data) case Failure(code) => code != Ok }
    {
      match failures(k)
      case Some(code) => Failure(code)
      case None => Success(hash(data))
    }
  }

  // ----- the definition -----

  function Repeat(b: bv8, n: nat): (r: Bytes)
    ensures |r| == n
  {
    if n == 0 then [] else Repeat(b, n - 1) + [b]
  }

  function Xor(s: Bytes, b: bv8): (r: Bytes)
    ensures |r| == |s|
  {
    if s == [] then [] else Xor(s[..|s| - 1], b) + [s[|s| - 1] ^ b]
  }

  /** A key longer than a block is replaced by its hash; then zeros fill the block. */
  function ShortKey(hash: Bytes -> Bytes, key: Bytes): Bytes {
    if |key| > MAXIMUM_KEY_SIZE then hash(key) else key
  }

  function FillLength(key: Bytes): nat
    requires |key| <= MAXIMUM_KEY_SIZE
  {
    MAXIMUM_KEY_SIZE - |key|
  }

  function BlockKey(key: Bytes): (r: Bytes)
    requires |key| <= MAXIMUM_KEY_SIZE
    ensures |r| == MAXIMUM_KEY_SIZE
  {
    key + Repeat(0, FillLength(key))
  }

  function Hmac(hash: Bytes -> Bytes, key: Bytes, data: Bytes): Bytes
    requires |ShortKey(hash, key)| <= MAXIMUM_KEY_SIZE
  {
    var k0 := BlockKey(ShortKey(hash, key));
    hash(Xor(k0, OPAD) + hash(Xor(k0, IPAD) + data))
  }

  lemma {:induction false} RepeatAt(b: bv8, n: nat, i: nat)
    requires i < n
    ensures Repeat(b, n)[i] == b
  {
    if i < n - 1 {
      RepeatAt(b, n - 1, i);
    }
  }

  lemma {:induction false} XorAt(s: Bytes, b: bv8, i: nat)
    requires i < |s|
    ensures Xor(s, b)[i] == s[i] ^ b
  {
    if i < |s| - 1 {
      XorAt(s[..|s| - 1], b, i);
    }
  }

  /** A byte of the key, zero behind its end. */
  function KeyByte(key: Bytes, i: nat): bv8 {
    if i < |key| then key[i] else 0
  }

  lemma BlockKeyAt(key: Bytes, i: nat)
    requires |key| <= MAXIMUM_KEY_SIZE && i < MAXIMUM_KEY_SIZE
    ensures BlockKey(key)[i] == KeyByte(key, i)
  {
    if i >= |key| {
      RepeatAt(0, FillLength(key), i - |key|);
    }
  }

  /** The two blocks of RFC 2104, byte by byte. */
  predicate AreBlocks(hash: Bytes -> Bytes, key: Bytes, inner: Bytes, outer: Bytes) {
    var short := if |key| > 64 then hash(key) else key;
    && |inner| == 64 && |outer| == 64
    && forall i :: 0 <= i < 64 ==> inner[i] == KeyByte(short, i) ^ 0x36 && outer[i] == KeyByte(short, i) ^ 0x5C
  }

  /** HMAC as RFC 2104 has it, byte by byte: with blocks of 64 bytes that are the key, or its hash if it
      is longer than a block, combined with 0x36 for the inner and 0x5C for the outer hash. */
  lemma HmacByBytes(hash: Bytes -> Bytes, key: Bytes, data: Bytes) returns (inner: Bytes, outer: Bytes)
    requires |key| > 64 ==> |hash(key)| <= 64
    ensures AreBlocks(hash, key, inner, outer)
    ensures Hmac(hash, key, data) == hash(outer + hash(inner + data))
  {
    var short := ShortKey(hash, key);
    var k0 := BlockKey(short);
    inner, outer := Xor(k0, IPAD), Xor(k0, OPAD);
    forall i: nat | i < 64
      ensures inner[i] == KeyByte(short, i) ^ 0x36 && outer[i] == KeyByte(short, i) ^ 0x5C
    {
      BlockKeyAt(short, i);
      XorAt(k0, IPAD, i);
      XorAt(k0, OPAD, i);
    }
  }

  lemma {:induction false} RepeatConcat(b: bv8, m: nat, n: nat, sum: nat)
    requires sum == m + n
    ensures Repeat(b, sum) == Repeat(b, m) + Repeat(b, n)
  {
    if n > 0 {
      RepeatConcat(b, m, n - 1, sum - 1);
    }
  }

  /** A long key and its hash authenticate alike. */
  lemma LongKeyActsAsItsHash(hash: Bytes -> Bytes, key: Bytes, data: Bytes)
    requires |key| > MAXIMUM_KEY_SIZE && |hash(key)| == SHA256_SIZE
    ensures Hmac(hash, key, data) == Hmac(hash, hash(key), data)
  {
  }

  /** Zeros at the end of a key make no difference as long as it fits into a block. */
  lemma TrailingZerosAreIgnored(hash: Bytes -> Bytes, key: Bytes, n: nat, data: Bytes)
    requires |key| + n <= MAXIMUM_KEY_SIZE
    ensures Hmac(hash, key + Repeat(0, n), data) == Hmac(hash, key, data)
  {
    var longer := key + Repeat(0, n);
    RepeatConcat(0, n, FillLength(longer), FillLength(key));
    Associate(key, Repeat(0, n), Repeat(0, FillLength(longer)));
  }

  lemma {:induction false} XorZeros(n: nat, b: bv8)
    ensures Xor(Repeat(0, n), b) == Repeat(b, n)
  {
    if n > 0 {
      XorZeros(n - 1, b);
      assert Repeat(0, n)[..n - 1] == Repeat(0, n - 1);
      assert 0 ^ b == b;
    }
  }

  lemma {:induction false} XorConcat(s: Bytes, t: Bytes, b: bv8)
    ensures Xor(s + t, b) == Xor(s, b) + Xor(t, b)
  {
    if t == [] {
      assert s + t == s;
    } else {
      assert (s + t)[..|s + t| - 1] == s + t[..|t| - 1];
      XorConcat(s, t[..|t| - 1], b);
    }
  }

  // ----- the computation -----

  lemma NextRepeat(b: bv8, n: nat, next: nat)
    requires next == n + 1
    ensures Repeat(b, n) + [b] == Repeat(b, next)
  {
  }

  lemma NextXor(s: Bytes, i: nat, next: nat, b: bv8)
    requires next == i + 1 <= |s|
    ensures Xor(s[..next], b) == Xor(s[..i], b) + [s[i] ^ b]
  {
    assert s[..next][..i] == s[..i];
  }

  lemma XorOfBlock(key: Bytes, b: bv8, n: nat)
    requires |key| + n == MAXIMUM_KEY_SIZE
    ensures Xor(BlockKey(key), b) == Xor(key, b) + Repeat(b, n)
  {
    XorZeros(n, b);
    XorConcat(key, Repeat(0, n), b);
  }

  /** Writes the key, combined with the pad, into the first block of a buffer. */
  method FillPad(key: Bytes, pad: bv8, buffer: array<bv8>)
    requires |key| <= MAXIMUM_KEY_SIZE <= buffer.Length
    modifies buffer
    ensures buffer[..MAXIMUM_KEY_SIZE] == Xor(BlockKey(key), pad)
  {
    var index := 0;
    while index < |key|
      invariant 0 <= index <= |key|
      invariant buffer[..index] == Xor(key[..index], pad)
    {
      var next := index + 1;
      NextXor(key, index, next, pad);
      buffer[index] := key[index] ^ pad;
      assert buffer[..next] == buffer[..index] + [key[index] ^ pad];
      index := next;
    }
    ghost var n := 0;
    assert key[..|key|] == key && buffer[..index] == Xor(key, pad) + Repeat(pad, n);
    while index < MAXIMUM_KEY_SIZE
      invariant |key| + n == index <= MAXIMUM_KEY_SIZE
      invariant buffer[..index] == Xor(key, pad) + Repeat(pad, n)
    {
      var next := index + 1;
      ghost var more := n + 1;
      NextRepeat(pad, n, more);
      buffer[index] := pad;
      assert buffer[..next] == buffer[..index] + [pad];
      Associate(Xor(key, pad), Repeat(pad, n), [pad]);
      index, n := next, more;
    }
    XorOfBlock(key, pad, n);
  }

  method CopyBehindPad(data: Bytes, buffer: array<bv8>)
    requires buffer.Length == MAXIMUM_KEY_SIZE + |data|
    modifies buffer
    ensures buffer[..] == old(buffer[..MAXIMUM_KEY_SIZE]) + data
  {
    forall i | 0 <= i < |data| {
      buffer[MAXIMUM_KEY_SIZE + i] := data[i];
    }
  }

  /** The first failure of the computation, if there is one. */
  function HmacCode(security: Security, key: Bytes, data: Bytes, hasMemory: bool): Code {
    if key == [] then InvalidParameter
    else if |key| > MAXIMUM_KEY_SIZE && security.Call(0, key).Failure? then security.Call(0, key).code
    else if |key| > MAXIMUM_KEY_SIZE && |security.hash(key)| != SHA256_SIZE then Sha256CalculationFail
    else if !hasMemory then OutOfMemory
    else
      var k0 := BlockKey(ShortKey(security.hash, key));
      var inner := security.Call(1, Xor(k0, IPAD) + data);
      if inner.Failure? then inner.code
      else if |inner.value| != SHA256_SIZE then Sha256CalculationFail
      else
        var outer := security.Call(2, Xor(k0, OPAD) + inner.value);
        if outer.Failure? then outer.code
        else if |outer.value| != SHA256_SIZE then Sha256CalculationFail
        else Ok
  }

  /** The key can be used: it is not empty, and if it is longer than a block, its hash is there. */
  predicate KeyIsReady(security: Security, key: Bytes) {
    && key != []
    && (|key| > 64 ==> security.failures(0).None? && |security.hash(key)| == 32)
  }

  /** The errors in the order in which they can occur. */
  lemma ErrorsInOrder(security: Security, key: Bytes, data: Bytes, hasMemory: bool)
    ensures key == [] ==> HmacCode(security, key, data, hasMemory) == InvalidParameter
    ensures |key| > 64 && security.failures(0).Some? ==>
              HmacCode(security, key, data, hasMemory) == security.failures(0).value
    ensures |key| > 64 && security.failures(0).None? && |security.hash(key)| != 32 ==>
              HmacCode(security, key, data, hasMemory) == Sha256CalculationFail
    ensures KeyIsReady(security, key) && !hasMemory ==> HmacCode(security, key, data, hasMemory) == OutOfMemory
    ensures KeyIsReady(security, key) && hasMemory && security.failures(1).Some? ==>
              HmacCode(security, key, data, hasMemory) == security.failures(1).value
  {
  }

  lemma BlocksAre(hash: Bytes -> Bytes, key: Bytes, inner: Bytes, outer: Bytes)
    requires |ShortKey(hash, key)| <= MAXIMUM_KEY_SIZE && AreBlocks(hash, key, inner, outer)
    ensures inner == Xor(BlockKey(ShortKey(hash, key)), IPAD)
    ensures outer == Xor(BlockKey(ShortKey(hash, key)), OPAD)
  {
    var k0 := BlockKey(ShortKey(hash, key));
    forall i: nat | i < 64 ensures inner[i] == Xor(k0, IPAD)[i] && outer[i] == Xor(k0, OPAD)[i] {
      BlockKeyAt(ShortKey(hash, key), i);
      XorAt(k0, IPAD, i);
      XorAt(k0, OPAD, i);
    }
  }

  /** The errors of the two hashes over the blocks. */
  lemma ErrorsOfHashes(security: Security, key: Bytes, data: Bytes, inner: Bytes, outer: Bytes)
    requires KeyIsReady(security, key) && AreBlocks(security.hash, key, inner, outer) && security.failures(1).None?
    ensures var h := security.hash(inner + data);
            HmacCode(security, key, data, true)
            == if |h| != 32 then Sha256CalculationFail
               else if security.failures(2).Some? then security.failures(2).value
               else if |security.hash(outer + h)| != 32 then Sha256CalculationFail
               else Ok
  {
    BlocksAre(security.hash, key, inner, outer);
  }

  method HmacSha256(security: Security, data: Bytes, key: Bytes, hasMemory: bool) returns (code: Code, hash: Bytes)
    ensures code == HmacCode(security, key, data, hasMemory)
    ensures code == Ok ==>
              && |ShortKey(security.hash, key)| <= MAXIMUM_KEY_SIZE && hash == Hmac(security.hash, key, data)
              && |hash| == SHA256_SIZE
    ensures code != Ok ==> hash == []
  {
    hash := [];
    var keyLocal := key;
    if |key| == 0 {
      return InvalidParameter, hash;
    }
    if |key| > MAXIMUM_KEY_SIZE {
      var resized := security.Call(0, key);
      if resized.Failure? {
        return resized.code, hash;
      }
      if |resized.value| != SHA256_SIZE {
        return Sha256CalculationFail, hash;
      }
      keyLocal := resized.value;
    }
    if !hasMemory {
      return OutOfMemory, hash;
    }
    var keyIpad := new bv8[MAXIMUM_KEY_SIZE + |data|];
    var keyOpad := new bv8[MAXIMUM_KEY_SIZE + SHA256_SIZE];
    FillPad(keyLocal, IPAD, keyIpad);
    FillPad(keyLocal, OPAD, keyOpad);
    CopyBehindPad(data, keyIpad);
    var inner := security.Call(1, keyIpad[..]);
    if inner.Failure? {
      return inner.code, hash;
    }
    if |inner.value| != SHA256_SIZE {
      return Sha256CalculationFail, hash;
    }
    CopyBehindPad(inner.value, keyOpad);
    var outer := security.Call(2, keyOpad[..]);
    if outer.Failure? {
      return outer.code, hash;
    }
    if |outer.value| != SHA256_SIZE {
      return Sha256CalculationFail, hash;
    }
    return Ok, outer.value;
  }
}
