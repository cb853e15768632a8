/**
 * The FNV-1a hash of src/algo/fnv1a.rs. The state is a `u64`; every byte is xor-ed into it
 * and the result is multiplied by the FNV prime. The source multiplies as `u128` and
 * truncates back to `u64`, which is the product taken modulo 2^64.
 */
module Fnv1a {
  import opened MachineInts

  /** `FNV1a::OFFSET_BASIS`. */
  const OFFSET_BASIS: u64 := 0xcbf29ce484222325

  /** `FNV1a::FNV_PRIME`. */
  const FNV_PRIME: u64 := 0x100000001b3

  /** The inverse of the prime modulo 2^64 (the prime is odd, so it has one). */
  const FNV_PRIME_INVERSE: u64 := 0xce965057aff6957b

  function Pow2(n: nat): (p: nat)
    ensures p > 0
  {
    if n == 0 then 1 else 2 * Pow2(n - 1)
  }

  /** Bitwise exclusive or of the low `n` bits of `x` and `y`. */
  function BitXor(x: nat, y: nat, n: nat): nat {
    if n == 0 then 0 else (x % 2 + y % 2) % 2 + 2 * BitXor(x / 2, y / 2, n - 1)
  }

  /** The exclusive or of `n` bits fits in `n` bits. */
  lemma {:induction false} BitXorBound(x: nat, y: nat, n: nat)
    ensures BitXor(x, y, n) < Pow2(n)
  {
    if n > 0 {
      BitXorBound(x / 2, y / 2, n - 1);
    }
  }

  /** A low bit and the bits above it make up a number in the obvious way. */
  lemma LowBitAndRest(bit: int, rest: int)
    requires 0 <= bit < 2
    ensures (bit + 2 * rest) % 2 == bit && (bit + 2 * rest) / 2 == rest
  {
  }

  /** A low byte and the bytes above it make up a number in the obvious way. */
  lemma LowByteAndRest(low: int, rest: int)
    requires 0 <= low < 256
    ensures (low + 256 * rest) % 256 == low && (low + 256 * rest) / 256 == rest
  {
  }

  /** Replacing the low byte of a `u64` keeps it a `u64` and keeps the bytes above. */
  lemma ReplaceLowByte(state: u64, low: int)
    requires 0 <= low < 256
    ensures var r := low + 256 * (state / 256);
      0 <= r < U64_LIMIT && r / 256 == state / 256 && r % 256 == low
  {
    LowByteAndRest(low, state / 256);
    assert state / 256 < U64_LIMIT / 256;
  }

  /** The exclusive or of two bytes is a byte. */
  lemma BitXorByte(x: nat, y: nat)
    ensures BitXor(x, y, 8) < 256
  {
    BitXorBound(x, y, 8);
    assert Pow2(8) == 256;
  }

  /** Xor-ing `y` in twice gives `x` back. */
  lemma {:induction false} BitXorTwice(x: nat, y: nat, n: nat)
    requires x < Pow2(n)
    ensures BitXor(BitXor(x, y, n), y, n) == x
  {
    if n > 0 {
      var z := BitXor(x, y, n);
      var low := (x % 2 + y % 2) % 2;
      var rest := BitXor(x / 2, y / 2, n - 1);
      assert z == low + 2 * rest;
      LowBitAndRest(low, rest);
      assert x / 2 < Pow2(n - 1);
      BitXorTwice(x / 2, y / 2, n - 1);
      assert BitXor(rest, y / 2, n - 1) == x / 2;
      assert (low + y % 2) % 2 == x % 2;
      assert BitXor(z, y, n) == (z % 2 + y % 2) % 2 + 2 * BitXor(z / 2, y / 2, n - 1);
    }
  }

  /**
   * `state ^= u64::from(byte)`: the widened byte has no bits above the lowest eight, so
   * only the low byte of the state changes.
   */
  function XorByte(state: u64, byte: u8): (r: u64)
    ensures r / 256 == state / 256
  {
    var low := BitXor(state % 256, byte, 8);
    BitXorByte(state % 256, byte);
    ReplaceLowByte(state, low);
    low + 256 * (state / 256)
  }

  /** Xor-ing the same byte in twice restores the state. */
  lemma XorByteTwice(state: u64, byte: u8)
    ensures XorByte(XorByte(state, byte), byte) == state
  {
    assert Pow2(8) == 256;
    var low := BitXor(state % 256, byte, 8);
    BitXorByte(state % 256, byte);
    ReplaceLowByte(state, low);
    BitXorTwice(state % 256, byte, 8);
  }

  /** One `iterate` step: xor the byte in, then multiply by the prime modulo 2^64. */
  function Step(state: u64, byte: u8): u64 {
    (XorByte(state, byte) * FNV_PRIME) % U64_LIMIT
  }

  /** The step undone: multiply by the inverse of the prime, then xor the byte out. */
  function Unstep(state: u64, byte: u8): u64 {
    XorByte((state * FNV_PRIME_INVERSE) % U64_LIMIT, byte)
  }

  lemma OnlyMultipleBelowIsZero(k: int, n: int)
    requires n > 0 && -n < k * n < n
    ensures k == 0
  {
  }

  lemma ModAddMultiple(a: int, m: int, n: int)
    requires n > 0
    ensures (a + m * n) % n == a % n
  {
    var q := (a + m * n) / n;
    var r := a / n;
    assert a + m * n == q * n + (a + m * n) % n;
    assert a == r * n + a % n;
    var k := r + m - q;
    assert (a + m * n) % n - a % n == k * n;
    OnlyMultipleBelowIsZero(k, n);
  }

  /** Multiplying by the prime and then by its inverse, both modulo 2^64, is the identity. */
  lemma MulInverse(x: u64)
    ensures ((x * FNV_PRIME) % U64_LIMIT * FNV_PRIME_INVERSE) % U64_LIMIT == x
  {
    var r := (x * FNV_PRIME) % U64_LIMIT;
    var q := (x * FNV_PRIME) / U64_LIMIT;
    var w := (FNV_PRIME * FNV_PRIME_INVERSE) / U64_LIMIT;
    assert x * FNV_PRIME == q * U64_LIMIT + r;
    assert r * FNV_PRIME_INVERSE
      == x * (FNV_PRIME * FNV_PRIME_INVERSE) + (-q * FNV_PRIME_INVERSE) * U64_LIMIT;
    ModAddMultiple(x * (FNV_PRIME * FNV_PRIME_INVERSE), -q * FNV_PRIME_INVERSE, U64_LIMIT);
    assert FNV_PRIME * FNV_PRIME_INVERSE == 1 + w * U64_LIMIT;
    assert x * (FNV_PRIME * FNV_PRIME_INVERSE) == x + (x * w) * U64_LIMIT;
    ModAddMultiple(x, x * w, U64_LIMIT);
  }

  /** Every step is a bijection on states: `Unstep` takes it back. */
  lemma StepInvertible(state: u64, byte: u8)
    ensures Unstep(Step(state, byte), byte) == state
  {
    MulInverse(XorByte(state, byte));
    XorByteTwice(state, byte);
  }

  /** Hashing a byte sequence: the left fold of `Step` over its bytes. */
  function HashBytes(state: u64, bytes: seq<u8>): u64
    decreases |bytes|
  {
    if |bytes| == 0 then state else HashBytes(Step(state, bytes[0]), bytes[1..])
  }

  /** Hashing `a + b` is hashing `b` from the state reached after `a`. */
  lemma {:induction false} HashBytesAppend(state: u64, a: seq<u8>, b: seq<u8>)
    ensures HashBytes(state, a + b) == HashBytes(HashBytes(state, a), b)
    decreases |a|
  {
    if |a| > 0 {
      assert (a + b)[0] == a[0];
      assert (a + b)[1..] == a[1..] + b;
      HashBytesAppend(Step(state, a[0]), a[1..], b);
    } else {
      assert a + b == b;
    }
  }

  /** Two different states never hash the same bytes to the same state. */
  lemma {:induction false} HashBytesInjective(s: u64, t: u64, bytes: seq<u8>)
    ensures HashBytes(s, bytes) == HashBytes(t, bytes) ==> s == t
    decreases |bytes|
  {
    if |bytes| > 0 {
      HashBytesInjective(Step(s, bytes[0]), Step(t, bytes[0]), bytes[1..]);
      StepInvertible(s, bytes[0]);
      StepInvertible(t, bytes[0]);
    }
  }

  /** Evaluates one step from the low byte of the state and the xor of that byte. */
  lemma StepAt(state: u64, byte: u8, low: nat, mixed: nat, next: u64)
    requires state % 256 == low && BitXor(low, byte, 8) == mixed
    requires ((state - low + mixed) * FNV_PRIME) % U64_LIMIT == next
    ensures Step(state, byte) == next
  {
  }

  /** 256 to the power `n`. */
  function Pow256(n: nat): (p: nat)
    ensures p > 0
  {
    if n == 0 then 1 else 256 * Pow256(n - 1)
  }

  /** The `n` little-endian bytes of `v` (`to_le_bytes`), `v` taken modulo 256^n. */
  function LeBytes(v: nat, n: nat): (bytes: seq<u8>)
    ensures |bytes| == n
  {
    if n == 0 then [] else [v % 256] + LeBytes(v / 256, n - 1)
  }

  /** The unsigned value of little-endian bytes (`from_le_bytes`). */
  function FromLeBytes(bytes: seq<u8>): nat {
    if |bytes| == 0 then 0 else bytes[0] + 256 * FromLeBytes(bytes[1..])
  }

  /** The encoding of an `n`-byte unsigned value is decoded back to it. */
  lemma {:induction false} LeBytesRoundTrip(v: nat, n: nat)
    requires v < Pow256(n)
    ensures FromLeBytes(LeBytes(v, n)) == v
  {
    if n > 0 {
      assert v / 256 < Pow256(n - 1);
      LeBytesRoundTrip(v / 256, n - 1);
      assert LeBytes(v, n)[1..] == LeBytes(v / 256, n - 1);
    }
  }

  /** The two's complement bit patterns of `i32` and `i64` values. */
  function Unsigned32(x: i32): u32 { if x < 0 then x + U32_LIMIT else x }
  function Unsigned64(x: i64): u64 { if x < 0 then x + U64_LIMIT else x }

  /** The signed values of 32- and 64-bit patterns. */
  function Signed32(u: nat): int { if u >= U32_LIMIT / 2 then u - U32_LIMIT else u }
  function Signed64(u: nat): int { if u >= U64_LIMIT / 2 then u - U64_LIMIT else u }

  /** Byte encodings of the `FNV1aIterator` impls: `to_le_bytes` of each integer type. */
  function I32Bytes(x: i32): seq<u8> { LeBytes(Unsigned32(x), 4) }
  function U32Bytes(x: u32): seq<u8> { LeBytes(x, 4) }
  function I64Bytes(x: i64): seq<u8> { LeBytes(Unsigned64(x), 8) }
  function U64Bytes(x: u64): seq<u8> { LeBytes(x, 8) }

  /** A bool is hashed as the `i32` literal 1231 (true) or 1237 (false). */
  function BoolBytes(b: bool): seq<u8> { I32Bytes(if b then 1231 else 1237) }

  lemma Pow256Widths()
    ensures Pow256(4) == U32_LIMIT && Pow256(8) == U64_LIMIT
  {
    assert Pow256(4) == U32_LIMIT;
  }

  /** The four bytes hashed for an `i32` are its value: decoding them with the sign gives it back. */
  lemma I32BytesRoundTrip(x: i32)
    ensures Signed32(FromLeBytes(I32Bytes(x))) == x
  {
    Pow256Widths();
    LeBytesRoundTrip(Unsigned32(x), 4);
  }

  /** Likewise the eight bytes of an `i64`. */
  lemma I64BytesRoundTrip(x: i64)
    ensures Signed64(FromLeBytes(I64Bytes(x))) == x
  {
    Pow256Widths();
    LeBytesRoundTrip(Unsigned64(x), 8);
  }

  /** Signed and unsigned values with the same bit pattern feed the same bytes. */
  lemma SameBitPatternSameBytes(x: i32, y: i64)
    ensures x >= 0 ==> I32Bytes(x) == U32Bytes(x)
    ensures x < 0 ==> I32Bytes(x) == U32Bytes(x + U32_LIMIT)
    ensures y >= 0 ==> I64Bytes(y) == U64Bytes(y)
    ensures y < 0 ==> I64Bytes(y) == U64Bytes(y + U64_LIMIT)
  {
  }

  // The test vectors of the source.

  // Single steps of the test vectors below, each from the low byte of the state and its xor.

  lemma I32Step0()
    ensures Step(0xcbf29ce484222325, 57) == 0xaf63b44c8601a894
  {
    assert 57 / 2 == 28 && 37 / 2 == 18 && 28 / 2 == 14 && 18 / 2 == 9 &&
      14 / 2 == 7 && 9 / 2 == 4 && 7 / 2 == 3 && 4 / 2 == 2 &&
      3 / 2 == 1 && 2 / 2 == 1 && 1 / 2 == 0 && 0 / 2 == 0;
    assert BitXor(0, 0, 1) == 0;
    assert BitXor(0, 0, 2) == 0;
    assert BitXor(1, 1, 3) == 0;
    assert BitXor(2, 3, 4) == 1;
    assert BitXor(4, 7, 5) == 3;
    assert BitXor(9, 14, 6) == 7;
    assert BitXor(18, 28, 7) == 14;
    assert BitXor(37, 57, 8) == 28;
    StepAt(0xcbf29ce484222325, 57, 37, 28, 0xaf63b44c8601a894);
  }

  lemma I32Step1()
    ensures Step(0xaf63b44c8601a894, 5) == 0x813ef07b4d16e63
  {
    assert 148 / 2 == 74 && 74 / 2 == 37 && 37 / 2 == 18 && 18 / 2 == 9 &&
      9 / 2 == 4 && 5 / 2 == 2 && 4 / 2 == 2 && 2 / 2 == 1 &&
      1 / 2 == 0 && 0 / 2 == 0;
    assert BitXor(1, 0, 1) == 1;
    assert BitXor(2, 0, 2) == 2;
    assert BitXor(4, 0, 3) == 4;
    assert BitXor(9, 0, 4) == 9;
    assert BitXor(18, 0, 5) == 18;
    assert BitXor(37, 1, 6) == 36;
    assert BitXor(74, 2, 7) == 72;
    assert BitXor(148, 5, 8) == 145;
    StepAt(0xaf63b44c8601a894, 5, 148, 145, 0x813ef07b4d16e63);
  }

  lemma I32Step2()
    ensures Step(0x813ef07b4d16e63, 0) == 0x8b4d8d183fde9239
  {
    assert 99 / 2 == 49 && 49 / 2 == 24 && 24 / 2 == 12 && 12 / 2 == 6 &&
      6 / 2 == 3 && 3 / 2 == 1 && 1 / 2 == 0 && 0 / 2 == 0;
    assert BitXor(0, 0, 1) == 0;
    assert BitXor(1, 0, 2) == 1;
    assert BitXor(3, 0, 3) == 3;
    assert BitXor(6, 0, 4) == 6;
    assert BitXor(12, 0, 5) == 12;
    assert BitXor(24, 0, 6) == 24;
    assert BitXor(49, 0, 7) == 49;
    assert BitXor(99, 0, 8) == 99;
    StepAt(0x813ef07b4d16e63, 0, 99, 99, 0x8b4d8d183fde9239);
  }

  lemma I32Step3()
    ensures Step(0x8b4d8d183fde9239, 0) == 0x9358f934873276db
  {
    assert 57 / 2 == 28 && 28 / 2 == 14 && 14 / 2 == 7 && 7 / 2 == 3 &&
      3 / 2 == 1 && 1 / 2 == 0 && 0 / 2 == 0;
    assert BitXor(0, 0, 1) == 0;
    assert BitXor(0, 0, 2) == 0;
    assert BitXor(1, 0, 3) == 1;
    assert BitXor(3, 0, 4) == 3;
    assert BitXor(7, 0, 5) == 7;
    assert BitXor(14, 0, 6) == 14;
    assert BitXor(28, 0, 7) == 28;
    assert BitXor(57, 0, 8) == 57;
    StepAt(0x8b4d8d183fde9239, 0, 57, 57, 0x9358f934873276db);
  }

  lemma I64Step4()
    ensures Step(0x9358f934873276db, 0) == 0x92a64f41babff621
  {
    assert 219 / 2 == 109 && 109 / 2 == 54 && 54 / 2 == 27 && 27 / 2 == 13 &&
      13 / 2 == 6 && 6 / 2 == 3 && 3 / 2 == 1 && 0 / 2 == 0;
    assert BitXor(1, 0, 1) == 1;
    assert BitXor(3, 0, 2) == 3;
    assert BitXor(6, 0, 3) == 6;
    assert BitXor(13, 0, 4) == 13;
    assert BitXor(27, 0, 5) == 27;
    assert BitXor(54, 0, 6) == 54;
    assert BitXor(109, 0, 7) == 109;
    assert BitXor(219, 0, 8) == 219;
    StepAt(0x9358f934873276db, 0, 219, 219, 0x92a64f41babff621);
  }

  lemma I64Step5()
    ensures Step(0x92a64f41babff621, 0) == 0xf08ecdb0542f3a13
  {
    assert 33 / 2 == 16 && 16 / 2 == 8 && 8 / 2 == 4 && 4 / 2 == 2 &&
      2 / 2 == 1 && 1 / 2 == 0 && 0 / 2 == 0;
    assert BitXor(0, 0, 1) == 0;
    assert BitXor(0, 0, 2) == 0;
    assert BitXor(1, 0, 3) == 1;
    assert BitXor(2, 0, 4) == 2;
    assert BitXor(4, 0, 5) == 4;
    assert BitXor(8, 0, 6) == 8;
    assert BitXor(16, 0, 7) == 16;
    assert BitXor(33, 0, 8) == 33;
    StepAt(0x92a64f41babff621, 0, 33, 33, 0xf08ecdb0542f3a13);
  }

  lemma I64Step6()
    ensures Step(0xf08ecdb0542f3a13, 0) == 0xf1e1959f0c3fae49
  {
    assert 19 / 2 == 9 && 9 / 2 == 4 && 4 / 2 == 2 && 2 / 2 == 1 &&
      1 / 2 == 0 && 0 / 2 == 0;
    assert BitXor(0, 0, 1) == 0;
    assert BitXor(0, 0, 2) == 0;
    assert BitXor(0, 0, 3) == 0;
    assert BitXor(1, 0, 4) == 1;
    assert BitXor(2, 0, 5) == 2;
    assert BitXor(4, 0, 6) == 4;
    assert BitXor(9, 0, 7) == 9;
    assert BitXor(19, 0, 8) == 19;
    StepAt(0xf08ecdb0542f3a13, 0, 19, 19, 0xf1e1959f0c3fae49);
  }

  lemma I64Step7()
    ensures Step(0xf1e1959f0c3fae49, 0) == 0x41ff8641d035260b
  {
    assert 73 / 2 == 36 && 36 / 2 == 18 && 18 / 2 == 9 && 9 / 2 == 4 &&
      4 / 2 == 2 && 2 / 2 == 1 && 1 / 2 == 0 && 0 / 2 == 0;
    assert BitXor(0, 0, 1) == 0;
    assert BitXor(1, 0, 2) == 1;
    assert BitXor(2, 0, 3) == 2;
    assert BitXor(4, 0, 4) == 4;
    assert BitXor(9, 0, 5) == 9;
    assert BitXor(18, 0, 6) == 18;
    assert BitXor(36, 0, 7) == 36;
    assert BitXor(73, 0, 8) == 73;
    StepAt(0xf1e1959f0c3fae49, 0, 73, 73, 0x41ff8641d035260b);
  }

  lemma BoolStep0()
    ensures Step(0xcbf29ce484222325, 213) == 0xaf64884c860310d0
  {
    assert 213 / 2 == 106 && 106 / 2 == 53 && 53 / 2 == 26 && 37 / 2 == 18 &&
      26 / 2 == 13 && 18 / 2 == 9 && 13 / 2 == 6 && 9 / 2 == 4 &&
      6 / 2 == 3 && 4 / 2 == 2 && 3 / 2 == 1 && 2 / 2 == 1 &&
      1 / 2 == 0 && 0 / 2 == 0;
    assert BitXor(0, 1, 1) == 1;
    assert BitXor(0, 3, 2) == 3;
    assert BitXor(1, 6, 3) == 7;
    assert BitXor(2, 13, 4) == 15;
    assert BitXor(4, 26, 5) == 30;
    assert BitXor(9, 53, 6) == 60;
    assert BitXor(18, 106, 7) == 120;
    assert BitXor(37, 213, 8) == 240;
    StepAt(0xcbf29ce484222325, 213, 37, 240, 0xaf64884c860310d0);
  }

  lemma BoolStep1()
    ensures Step(0xaf64884c860310d0, 4) == 0xae46e07b735983c
  {
    assert 208 / 2 == 104 && 104 / 2 == 52 && 52 / 2 == 26 && 26 / 2 == 13 &&
      13 / 2 == 6 && 6 / 2 == 3 && 4 / 2 == 2 && 3 / 2 == 1 &&
      2 / 2 == 1 && 1 / 2 == 0 && 0 / 2 == 0;
    assert BitXor(1, 0, 1) == 1;
    assert BitXor(3, 0, 2) == 3;
    assert BitXor(6, 0, 3) == 6;
    assert BitXor(13, 0, 4) == 13;
    assert BitXor(26, 0, 5) == 26;
    assert BitXor(52, 1, 6) == 53;
    assert BitXor(104, 2, 7) == 106;
    assert BitXor(208, 4, 8) == 212;
    StepAt(0xaf64884c860310d0, 4, 208, 212, 0xae46e07b735983c);
  }

  lemma BoolStep2()
    ensures Step(0xae46e07b735983c, 0) == 0xb7bf331c5011adf4
  {
    assert 60 / 2 == 30 && 30 / 2 == 15 && 15 / 2 == 7 && 7 / 2 == 3 &&
      3 / 2 == 1 && 1 / 2 == 0 && 0 / 2 == 0;
    assert BitXor(0, 0, 1) == 0;
    assert BitXor(0, 0, 2) == 0;
    assert BitXor(1, 0, 3) == 1;
    assert BitXor(3, 0, 4) == 3;
    assert BitXor(7, 0, 5) == 7;
    assert BitXor(15, 0, 6) == 15;
    assert BitXor(30, 0, 7) == 30;
    assert BitXor(60, 0, 8) == 60;
    StepAt(0xae46e07b735983c, 0, 60, 60, 0xb7bf331c5011adf4);
  }

  lemma BoolStep3()
    ensures Step(0xb7bf331c5011adf4, 0) == 0x4b91cd1c0e0a959c
  {
    assert 244 / 2 == 122 && 122 / 2 == 61 && 61 / 2 == 30 && 30 / 2 == 15 &&
      15 / 2 == 7 && 7 / 2 == 3 && 3 / 2 == 1 && 0 / 2 == 0;
    assert BitXor(1, 0, 1) == 1;
    assert BitXor(3, 0, 2) == 3;
    assert BitXor(7, 0, 3) == 7;
    assert BitXor(15, 0, 4) == 15;
    assert BitXor(30, 0, 5) == 30;
    assert BitXor(61, 0, 6) == 61;
    assert BitXor(122, 0, 7) == 122;
    assert BitXor(244, 0, 8) == 244;
    StepAt(0xb7bf331c5011adf4, 0, 244, 244, 0x4b91cd1c0e0a959c);
  }

  lemma DeadbeefStep0()
    ensures Step(0xcbf29ce484222325, 100) == 0xaf63d94c8601e773
  {
    assert 100 / 2 == 50 && 50 / 2 == 25 && 37 / 2 == 18 && 25 / 2 == 12 &&
      18 / 2 == 9 && 12 / 2 == 6 && 9 / 2 == 4 && 6 / 2 == 3 &&
      4 / 2 == 2 && 3 / 2 == 1 && 2 / 2 == 1 && 1 / 2 == 0 &&
      0 / 2 == 0;
    assert BitXor(0, 0, 1) == 0;
    assert BitXor(0, 1, 2) == 1;
    assert BitXor(1, 3, 3) == 2;
    assert BitXor(2, 6, 4) == 4;
    assert BitXor(4, 12, 5) == 8;
    assert BitXor(9, 25, 6) == 16;
    assert BitXor(18, 50, 7) == 32;
    assert BitXor(37, 100, 8) == 65;
    StepAt(0xcbf29ce484222325, 100, 37, 65, 0xaf63d94c8601e773);
  }

  lemma DeadbeefStep1()
    ensures Step(0xaf63d94c8601e773, 101) == 0x8915307b53baa62
  {
    assert 115 / 2 == 57 && 101 / 2 == 50 && 57 / 2 == 28 && 50 / 2 == 25 &&
      28 / 2 == 14 && 25 / 2 == 12 && 14 / 2 == 7 && 12 / 2 == 6 &&
      7 / 2 == 3 && 6 / 2 == 3 && 3 / 2 == 1 && 1 / 2 == 0;
    assert BitXor(0, 0, 1) == 0;
    assert BitXor(1, 1, 2) == 0;
    assert BitXor(3, 3, 3) == 0;
    assert BitXor(7, 6, 4) == 1;
    assert BitXor(14, 12, 5) == 2;
    assert BitXor(28, 25, 6) == 5;
    assert BitXor(57, 50, 7) == 11;
    assert BitXor(115, 101, 8) == 22;
    StepAt(0xaf63d94c8601e773, 101, 115, 22, 0x8915307b53baa62);
  }

  lemma DeadbeefStep2()
    ensures Step(0x8915307b53baa62, 97) == 0xca9a1918f461e319
  {
    assert 98 / 2 == 49 && 97 / 2 == 48 && 49 / 2 == 24 && 48 / 2 == 24 &&
      24 / 2 == 12 && 12 / 2 == 6 && 6 / 2 == 3 && 3 / 2 == 1 &&
      1 / 2 == 0;
    assert BitXor(0, 0, 1) == 0;
    assert BitXor(1, 1, 2) == 0;
    assert BitXor(3, 3, 3) == 0;
    assert BitXor(6, 6, 4) == 0;
    assert BitXor(12, 12, 5) == 0;
    assert BitXor(24, 24, 6) == 0;
    assert BitXor(49, 48, 7) == 1;
    assert BitXor(98, 97, 8) == 3;
    StepAt(0x8915307b53baa62, 97, 98, 3, 0xca9a1918f461e319);
  }

  lemma DeadbeefStep3()
    ensures Step(0xca9a1918f461e319, 100) == 0xa5bc226742558d67
  {
    assert 100 / 2 == 50 && 50 / 2 == 25 && 25 / 2 == 12 && 12 / 2 == 6 &&
      6 / 2 == 3 && 3 / 2 == 1 && 1 / 2 == 0 && 0 / 2 == 0;
    assert BitXor(0, 0, 1) == 0;
    assert BitXor(0, 1, 2) == 1;
    assert BitXor(0, 3, 3) == 3;
    assert BitXor(1, 6, 4) == 7;
    assert BitXor(3, 12, 5) == 15;
    assert BitXor(6, 25, 6) == 31;
    assert BitXor(12, 50, 7) == 62;
    assert BitXor(25, 100, 8) == 125;
    StepAt(0xca9a1918f461e319, 100, 25, 125, 0xa5bc226742558d67);
  }

  lemma DeadbeefStep4()
    ensures Step(0xa5bc226742558d67, 98) == 0xf43b7a75b75e9f7f
  {
    assert 103 / 2 == 51 && 98 / 2 == 49 && 51 / 2 == 25 && 49 / 2 == 24 &&
      25 / 2 == 12 && 24 / 2 == 12 && 12 / 2 == 6 && 6 / 2 == 3 &&
      3 / 2 == 1 && 1 / 2 == 0;
    assert BitXor(0, 0, 1) == 0;
    assert BitXor(1, 1, 2) == 0;
    assert BitXor(3, 3, 3) == 0;
    assert BitXor(6, 6, 4) == 0;
    assert BitXor(12, 12, 5) == 0;
    assert BitXor(25, 24, 6) == 1;
    assert BitXor(51, 49, 7) == 2;
    assert BitXor(103, 98, 8) == 5;
    StepAt(0xa5bc226742558d67, 98, 103, 5, 0xf43b7a75b75e9f7f);
  }

  lemma DeadbeefStep5()
    ensures Step(0xf43b7a75b75e9f7f, 101) == 0x5fb0300695c8592e
  {
    assert 127 / 2 == 63 && 101 / 2 == 50 && 63 / 2 == 31 && 50 / 2 == 25 &&
      31 / 2 == 15 && 25 / 2 == 12 && 15 / 2 == 7 && 12 / 2 == 6 &&
      7 / 2 == 3 && 6 / 2 == 3 && 3 / 2 == 1 && 1 / 2 == 0;
    assert BitXor(0, 0, 1) == 0;
    assert BitXor(1, 1, 2) == 0;
    assert BitXor(3, 3, 3) == 0;
    assert BitXor(7, 6, 4) == 1;
    assert BitXor(15, 12, 5) == 3;
    assert BitXor(31, 25, 6) == 6;
    assert BitXor(63, 50, 7) == 13;
    assert BitXor(127, 101, 8) == 26;
    StepAt(0xf43b7a75b75e9f7f, 101, 127, 26, 0x5fb0300695c8592e);
  }

  lemma DeadbeefStep6()
    ensures Step(0x5fb0300695c8592e, 101) == 0x60bae630836fba71
  {
    assert 101 / 2 == 50 && 50 / 2 == 25 && 46 / 2 == 23 && 25 / 2 == 12 &&
      23 / 2 == 11 && 12 / 2 == 6 && 11 / 2 == 5 && 6 / 2 == 3 &&
      5 / 2 == 2 && 3 / 2 == 1 && 2 / 2 == 1 && 1 / 2 == 0 &&
      0 / 2 == 0;
    assert BitXor(0, 0, 1) == 0;
    assert BitXor(0, 1, 2) == 1;
    assert BitXor(1, 3, 3) == 2;
    assert BitXor(2, 6, 4) == 4;
    assert BitXor(5, 12, 5) == 9;
    assert BitXor(11, 25, 6) == 18;
    assert BitXor(23, 50, 7) == 37;
    assert BitXor(46, 101, 8) == 75;
    StepAt(0x5fb0300695c8592e, 101, 46, 75, 0x60bae630836fba71);
  }

  lemma DeadbeefStep7()
    ensures Step(0x60bae630836fba71, 102) == 0xcd4f3b6f56d93515
  {
    assert 113 / 2 == 56 && 102 / 2 == 51 && 56 / 2 == 28 && 51 / 2 == 25 &&
      28 / 2 == 14 && 25 / 2 == 12 && 14 / 2 == 7 && 12 / 2 == 6 &&
      7 / 2 == 3 && 6 / 2 == 3 && 3 / 2 == 1 && 1 / 2 == 0;
    assert BitXor(0, 0, 1) == 0;
    assert BitXor(1, 1, 2) == 0;
    assert BitXor(3, 3, 3) == 0;
    assert BitXor(7, 6, 4) == 1;
    assert BitXor(14, 12, 5) == 2;
    assert BitXor(28, 25, 6) == 5;
    assert BitXor(56, 51, 7) == 11;
    assert BitXor(113, 102, 8) == 23;
    StepAt(0x60bae630836fba71, 102, 113, 23, 0xcd4f3b6f56d93515);
  }

  /** `iterate_i32`: hashing the `i32` 1337 from the offset basis. */
  lemma HashI32Vector()
    ensures HashBytes(OFFSET_BASIS, I32Bytes(1337)) == 0x9358f934873276db
  {
    assert I32Bytes(1337) == [57, 5, 0, 0];
    I32Step0();
    I32Step1();
    I32Step2();
    I32Step3();
    assert HashBytes(0x9358f934873276db, []) == 0x9358f934873276db;
    assert HashBytes(0x8b4d8d183fde9239, [0]) == 0x9358f934873276db;
    assert HashBytes(0x813ef07b4d16e63, [0, 0]) == 0x9358f934873276db;
    assert HashBytes(0xaf63b44c8601a894, [5, 0, 0]) == 0x9358f934873276db;
    assert HashBytes(0xcbf29ce484222325, [57, 5, 0, 0]) == 0x9358f934873276db;
  }

  /** `iterate_u32`: the `u32` 1337 feeds the same bytes as the `i32`, so it hashes the same. */
  lemma HashU32Vector()
    ensures HashBytes(OFFSET_BASIS, U32Bytes(1337)) == 0x9358f934873276db
  {
    HashI32Vector();
  }

  /** `iterate_i64`: hashing the `i64` 1337 from the offset basis. */
  lemma HashI64Vector()
    ensures HashBytes(OFFSET_BASIS, I64Bytes(1337)) == 0x41ff8641d035260b
  {
    assert I64Bytes(1337) == [57, 5, 0, 0, 0, 0, 0, 0];
    I32Step0();
    I32Step1();
    I32Step2();
    I32Step3();
    I64Step4();
    I64Step5();
    I64Step6();
    I64Step7();
    assert HashBytes(0x41ff8641d035260b, []) == 0x41ff8641d035260b;
    assert HashBytes(0xf1e1959f0c3fae49, [0]) == 0x41ff8641d035260b;
    assert HashBytes(0xf08ecdb0542f3a13, [0, 0]) == 0x41ff8641d035260b;
    assert HashBytes(0x92a64f41babff621, [0, 0, 0]) == 0x41ff8641d035260b;
    assert HashBytes(0x9358f934873276db, [0, 0, 0, 0]) == 0x41ff8641d035260b;
    assert HashBytes(0x8b4d8d183fde9239, [0, 0, 0, 0, 0]) == 0x41ff8641d035260b;
    assert HashBytes(0x813ef07b4d16e63, [0, 0, 0, 0, 0, 0]) == 0x41ff8641d035260b;
    assert HashBytes(0xaf63b44c8601a894, [5, 0, 0, 0, 0, 0, 0]) == 0x41ff8641d035260b;
    assert HashBytes(0xcbf29ce484222325, [57, 5, 0, 0, 0, 0, 0, 0]) == 0x41ff8641d035260b;
  }

  /** `iterate_u64`: likewise for the `u64` 1337 and the `i64`. */
  lemma HashU64Vector()
    ensures HashBytes(OFFSET_BASIS, U64Bytes(1337)) == 0x41ff8641d035260b
  {
    HashI64Vector();
  }

  /** `iterate_bool`: hashing `false`, that is the `i32` 1237, from the offset basis. */
  lemma HashBoolVector()
    ensures HashBytes(OFFSET_BASIS, BoolBytes(false)) == 0x4b91cd1c0e0a959c
  {
    assert Unsigned32(1237) == 1237;
    assert BoolBytes(false) == LeBytes(1237, 4) == [213, 4, 0, 0];
    BoolStep0();
    BoolStep1();
    BoolStep2();
    BoolStep3();
    assert HashBytes(0x4b91cd1c0e0a959c, []) == 0x4b91cd1c0e0a959c;
    assert HashBytes(0xb7bf331c5011adf4, [0]) == 0x4b91cd1c0e0a959c;
    assert HashBytes(0xae46e07b735983c, [0, 0]) == 0x4b91cd1c0e0a959c;
    assert HashBytes(0xaf64884c860310d0, [4, 0, 0]) == 0x4b91cd1c0e0a959c;
    assert HashBytes(0xcbf29ce484222325, [213, 4, 0, 0]) == 0x4b91cd1c0e0a959c;
  }

  /** `iterate_bytes`: hashing the bytes of "deadbeef" from the offset basis. */
  lemma HashBytesVector()
    ensures HashBytes(OFFSET_BASIS, [100, 101, 97, 100, 98, 101, 101, 102]) == 0xcd4f3b6f56d93515
  {
    DeadbeefStep0();
    DeadbeefStep1();
    DeadbeefStep2();
    DeadbeefStep3();
    DeadbeefStep4();
    DeadbeefStep5();
    DeadbeefStep6();
    DeadbeefStep7();
    assert HashBytes(0xcd4f3b6f56d93515, []) == 0xcd4f3b6f56d93515;
    assert HashBytes(0x60bae630836fba71, [102]) == 0xcd4f3b6f56d93515;
    assert HashBytes(0x5fb0300695c8592e, [101, 102]) == 0xcd4f3b6f56d93515;
    assert HashBytes(0xf43b7a75b75e9f7f, [101, 101, 102]) == 0xcd4f3b6f56d93515;
    assert HashBytes(0xa5bc226742558d67, [98, 101, 101, 102]) == 0xcd4f3b6f56d93515;
    assert HashBytes(0xca9a1918f461e319, [100, 98, 101, 101, 102]) == 0xcd4f3b6f56d93515;
    assert HashBytes(0x8915307b53baa62, [97, 100, 98, 101, 101, 102]) == 0xcd4f3b6f56d93515;
    assert HashBytes(0xaf63d94c8601e773, [101, 97, 100, 98, 101, 101, 102]) == 0xcd4f3b6f56d93515;
    assert HashBytes(0xcbf29ce484222325, [100, 101, 97, 100, 98, 101, 101, 102]) == 0xcd4f3b6f56d93515;
  }

  /** `FNV1a`: the hashing state, updated in place. */
  class Hasher {
    var state: u64

    /** `create_new`. */
    constructor CreateNew()
      ensures State() == OFFSET_BASIS
    {
      state := OFFSET_BASIS;
    }

    /** `create_init`. */
    constructor CreateInit(initial: u64)
      ensures State() == initial
    {
      state := initial;
    }

    /** `state`: the current hash value. */
    function State(): u64
      reads this
    {
      state
    }

    /** `iterate`. */
    method Iterate(byte: u8)
      modifies this
      ensures State() == Step(old(State()), byte)
    {
      state := XorByte(state, byte);
      state := (state * FNV_PRIME) % U64_LIMIT;
    }

    /** `FNV1aIterator for &[u8]`: one `iterate` per byte, in order. */
    method IterateBytes(bytes: seq<u8>)
      modifies this
      ensures State() == HashBytes(old(State()), bytes)
    {
      for i := 0 to |bytes|
        invariant state == HashBytes(old(state), bytes[..i])
      {
        HashBytesAppend(old(state), bytes[..i], [bytes[i]]);
        assert bytes[..i + 1] == bytes[..i] + [bytes[i]];
        Iterate(bytes[i]);
      }
      assert bytes[..|bytes|] == bytes;
    }

    /** `FNV1aIterator for i32`. */
    method IterateI32(x: i32)
      modifies this
      ensures State() == HashBytes(old(State()), I32Bytes(x))
    {
      IterateBytes(I32Bytes(x));
    }

    /** `FNV1aIterator for u32`. */
    method IterateU32(x: u32)
      modifies this
      ensures State() == HashBytes(old(State()), U32Bytes(x))
    {
      IterateBytes(U32Bytes(x));
    }

    /** `FNV1aIterator for i64`. */
    method IterateI64(x: i64)
      modifies this
      ensures State() == HashBytes(old(State()), I64Bytes(x))
    {
      IterateBytes(I64Bytes(x));
    }

    /** `FNV1aIterator for u64`. */
    method IterateU64(x: u64)
      modifies this
      ensures State() == HashBytes(old(State()), U64Bytes(x))
    {
      IterateBytes(U64Bytes(x));
    }

    /** `FNV1aIterator for bool`. */
    method IterateBool(b: bool)
      modifies this
      ensures State() == HashBytes(old(State()), BoolBytes(b))
    {
      IterateI32(if b then 1231 else 1237);
    }
  }

  // The source's unit tests, run through a hasher and read back with `state`.

  /** `create_new`: a new hasher reads back the offset basis. */
  method CreateNewReadsBasis() returns (s: u64)
    ensures s == 0xcbf29ce484222325
  {
    var hasher := new Hasher.CreateNew();
    s := hasher.State();
  }

  /** `create_init`: a hasher created with 1337 reads back 1337. */
  method CreateInitReadsInitial() returns (s: u64)
    ensures s == 1337
  {
    var hasher := new Hasher.CreateInit(1337);
    s := hasher.State();
  }

  /** `iterate_i32` and `iterate_u32`: 1337 of either type, from a new hasher. */
  method Iterate32Expectations() returns (signed: u64, unsigned: u64)
    ensures signed == 0x9358f934873276db && unsigned == 0x9358f934873276db
  {
    HashI32Vector();
    HashU32Vector();
    var hasher := new Hasher.CreateNew();
    hasher.IterateI32(1337);
    signed := hasher.State();
    hasher := new Hasher.CreateNew();
    hasher.IterateU32(1337);
    unsigned := hasher.State();
  }

  /** `iterate_i64` and `iterate_u64`: 1337 of either type, from a new hasher. */
  method Iterate64Expectations() returns (signed: u64, unsigned: u64)
    ensures signed == 0x41ff8641d035260b && unsigned == 0x41ff8641d035260b
  {
    HashI64Vector();
    HashU64Vector();
    var hasher := new Hasher.CreateNew();
    hasher.IterateI64(1337);
    signed := hasher.State();
    hasher := new Hasher.CreateNew();
    hasher.IterateU64(1337);
    unsigned := hasher.State();
  }

  /** `iterate_bool` and `iterate_bytes`: `false`, and the bytes of "deadbeef", from a new hasher. */
  method IterateBoolAndBytesExpectations() returns (boolean: u64, bytes: u64)
    ensures boolean == 0x4b91cd1c0e0a959c && bytes == 0xcd4f3b6f56d93515
  {
    HashBoolVector();
    HashBytesVector();
    var hasher := new Hasher.CreateNew();
    hasher.IterateBool(false);
    boolean := hasher.State();
    hasher := new Hasher.CreateNew();
    hasher.IterateBytes([100, 101, 97, 100, 98, 101, 101, 102]);
    bytes := hasher.State();
  }
}
