/** Machine-level vocabulary shared by both codecs: bytes, the JVM's
    fixed-width signed integers, powers of two and the bitwise `or` that the
    Kotlin readers use to assemble varints. */
module Common {

  /** One octet, as stored in a Kotlin `ByteArray` (read unsigned here;
      `Signed8` gives the JVM's signed view). */
  type byte = b: int | 0 <= b < 256

  type int8 = x: int | -0x80 <= x < 0x80
  type int16 = x: int | -0x8000 <= x < 0x8000
  type int32 = x: int | -0x8000_0000 <= x < 0x8000_0000
  type int64 = x: int | -0x8000_0000_0000_0000 <= x < 0x8000_0000_0000_0000

  const TWO16: int := 0x1_0000
  const TWO32: int := 0x1_0000_0000
  const TWO63: int := 0x8000_0000_0000_0000
  const TWO64: int := 0x1_0000_0000_0000_0000

  datatype Option<+T> = None | Some(value: T)

  /** The outcome of a step that can fail; usable with `:-`, which hands
      the error on, as a thrown exception would be. */
  datatype Result<+T, +E> = Ok(value: T) | Err(error: E) {
    predicate IsFailure() { Err? }

    function PropagateFailure<U>(): Result<U, E>
      requires Err?
    {
      Err(error)
    }

    function Extract(): T
      requires Ok?
    {
      value
    }
  }

  /** A value read from the front of the input, and the input after it. */
  datatype Parsed<+T, +Input> = Parsed(value: T, rest: Input)

  /** A value read from the front of a byte sequence, and the bytes after it.
      (The remainder is a type parameter of `Parsed` so that the verifier's
      rank axioms for sequence fields do not apply to it.) */
  type Reading<T> = Parsed<T, seq<byte>>

  /** Kotlin `Byte.toInt()`: the two's-complement reading of an octet. */
  function Signed8(b: byte): (r: int8)
    ensures r % 256 == b
  {
    if b < 0x80 then b else b - 0x100
  }

  /** The 32-bit two's-complement value whose bit pattern is `x` modulo 2^32:
      what a Kotlin `Int` holds after `+`, `-` or `shl` overflowed. */
  function Wrap32(x: int): (r: int32)
    ensures (r - x) % TWO32 == 0
  {
    var u := x % TWO32;
    if u < 0x8000_0000 then u else u - TWO32
  }

  /** The `Short` whose bit pattern is `x` modulo 2^16. */
  function Wrap16(x: int): (r: int16)
    ensures (r - x) % TWO16 == 0
  {
    var u := x % TWO16;
    if u < 0x8000 then u else u - TWO16
  }

  /** The `Long` whose bit pattern is `x` modulo 2^64. */
  function Wrap64(x: int): (r: int64)
    ensures (r - x) % TWO64 == 0
  {
    var u := x % TWO64;
    if u < 0x8000_0000_0000_0000 then u else u - TWO64
  }

  /** The unsigned reading of an `Int`'s bit pattern, as `ushr` sees it. */
  function Unsigned32(v: int32): (u: nat)
    ensures u < TWO32 && Wrap32(u) == v
  {
    if v >= 0 then v else v + TWO32
  }

  function Pow2(n: nat): (r: nat)
    ensures r >= 1
  {
    if n == 0 then 1 else 2 * Pow2(n - 1)
  }

  lemma {:induction false} Pow2Add(a: nat, b: nat)
    ensures Pow2(a + b) == Pow2(a) * Pow2(b)
  {
    if b > 0 {
      Pow2Add(a, b - 1);
      assert Pow2(a + b) == 2 * Pow2(a + b - 1);
    }
  }

  lemma {:induction false} Pow2Monotone(a: nat, b: nat)
    requires a <= b
    ensures Pow2(a) <= Pow2(b)
  {
    if a < b {
      Pow2Monotone(a, b - 1);
    }
  }

  lemma Pow2Below(a: nat, b: nat)
    requires Pow2(a) < Pow2(b)
    ensures a < b
  {
    if a >= b {
      Pow2Monotone(b, a);
    }
  }

  lemma Pow2Values()
    ensures Pow2(7) == 128 && Pow2(14) == 0x4000 && Pow2(21) == 0x20_0000
    ensures Pow2(28) == 0x1000_0000 && Pow2(32) == TWO32
    ensures Pow2(56) == 0x100_0000_0000_0000 && Pow2(63) == 0x8000_0000_0000_0000
  {
    assert Pow2(1) == 2;
    assert Pow2(2) == 4;
    assert Pow2(3) == 8;
    assert Pow2(4) == 16;
    assert Pow2(5) == 32;
    assert Pow2(6) == 64;
    assert Pow2(7) == 128;
    Pow2Add(7, 7);
    Pow2Add(14, 7);
    Pow2Add(21, 7);
    Pow2Add(28, 4);
    assert Pow2(4) == 16;
    Pow2Add(28, 28);
    Pow2Add(56, 7);
  }

  /** Bitwise `or` of two naturals, one bit at a time (least significant first). */
  function Or(a: nat, b: nat): nat
    decreases a + b
  {
    if a == 0 then b
    else if b == 0 then a
    else 2 * Or(a / 2, b / 2) + (if a % 2 == 1 || b % 2 == 1 then 1 else 0)
  }

  /** `or` never sets a bit at or above `n` that neither operand had. */
  lemma {:induction false} OrBound(a: nat, b: nat, n: nat)
    requires a < Pow2(n) && b < Pow2(n)
    ensures Or(a, b) < Pow2(n)
  {
    if a != 0 && b != 0 {
      assert n > 0;
      OrBound(a / 2, b / 2, n - 1);
    }
  }

  /** `x` shifted left by `n` bits, as repeated doubling: x * 2^n. */
  function ShiftLeft(x: nat, n: nat): nat
  {
    if n == 0 then x else 2 * ShiftLeft(x, n - 1)
  }

  lemma {:induction false} ShiftLeftOne(n: nat)
    ensures ShiftLeft(1, n) == Pow2(n)
  {
    if n > 0 {
      ShiftLeftOne(n - 1);
    }
  }

  lemma {:induction false} ShiftLeftAdd(a: nat, b: nat, n: nat)
    ensures ShiftLeft(a + b, n) == ShiftLeft(a, n) + ShiftLeft(b, n)
  {
    if n > 0 {
      ShiftLeftAdd(a, b, n - 1);
    }
  }

  lemma {:induction false} ShiftLeftMonotone(a: nat, b: nat, n: nat)
    requires a <= b
    ensures ShiftLeft(a, n) <= ShiftLeft(b, n)
  {
    if n > 0 {
      ShiftLeftMonotone(a, b, n - 1);
    }
  }

  /** Shifting by `k` and then by `n` is shifting by `n + k`. */
  lemma {:induction false} ShiftLeftCompose(x: nat, n: nat, k: nat)
    ensures ShiftLeft(x, n + k) == ShiftLeft(ShiftLeft(x, k), n)
  {
    if n > 0 {
      ShiftLeftCompose(x, n - 1, k);
    }
  }

  lemma ShiftLeftSeven(x: nat)
    ensures ShiftLeft(x, 7) == 128 * x
  {
    assert ShiftLeft(x, 1) == 2 * x;
    assert ShiftLeft(x, 2) == 4 * x;
    assert ShiftLeft(x, 3) == 8 * x;
    assert ShiftLeft(x, 4) == 16 * x;
    assert ShiftLeft(x, 5) == 32 * x;
    assert ShiftLeft(x, 6) == 64 * x;
  }

  /** On operands whose set bits are disjoint (`a` below bit `n`, `c` shifted
      to bit `n`), `or` is addition. */
  lemma {:induction false} OrDisjoint(a: nat, c: nat, n: nat)
    requires a < Pow2(n)
    ensures Or(a, ShiftLeft(c, n)) == a + ShiftLeft(c, n)
  {
    if a != 0 && ShiftLeft(c, n) != 0 {
      assert n > 0;
      var h := ShiftLeft(c, n - 1);
      assert (2 * h) / 2 == h && (2 * h) % 2 == 0;
      OrDisjoint(a / 2, c, n - 1);
    }
  }

  lemma AppendAssoc<T>(a: seq<T>, b: seq<T>, c: seq<T>)
    ensures (a + b) + c == a + (b + c)
  {
  }

  /** The base-128 digits of `u`, least significant first, with bit 0x80
      set on every byte but the last: the group layout shared by `putVLQ`
      and LEB128. */
  function Base128(u: nat): seq<byte>
    decreases u
  {
    if u / 128 == 0 then [u % 128] else [u % 128 + 128] + Base128(u / 128)
  }

  /** A value below 2^(7k) needs at most k groups. */
  lemma {:induction false} Base128Length(u: nat, k: nat)
    requires 1 <= k && u < Pow2(7 * k)
    ensures 1 <= |Base128(u)| <= k
  {
    if u / 128 != 0 {
      Pow2Add(7 * (k - 1), 7);
      Pow2Values();
      assert Pow2(7 * k) == Pow2(7 * (k - 1)) * 128;
      if k == 1 {
        assert false;
      }
      Base128Length(u / 128, k - 1);
    }
  }

  /** Every byte but the last carries the continuation bit; the last does not. */
  lemma {:induction false} Base128Continuation(u: nat)
    ensures Base128(u)[|Base128(u)| - 1] < 128
    ensures forall i :: 0 <= i < |Base128(u)| - 1 ==> Base128(u)[i] >= 128
  {
    if u / 128 != 0 {
      Base128Continuation(u / 128);
    }
  }

  /** Splitting `u` into its low group at bit `shift` and the rest at bit
      `shift + 7`: the low group lies below the next group's bit, the two
      parts add up, and a non-zero rest is worth at least that bit. */
  lemma GroupArith(acc: nat, u: nat, shift: nat)
    requires acc < Pow2(shift)
    ensures acc + ShiftLeft(u % 128, shift) < Pow2(shift + 7)
    ensures ShiftLeft(u, shift) == ShiftLeft(u % 128, shift) + ShiftLeft(u / 128, shift + 7)
    ensures u / 128 != 0 ==> Pow2(shift + 7) <= ShiftLeft(u / 128, shift + 7)
  {
    var low, rest := u % 128, u / 128;
    ShiftLeftOne(shift);
    ShiftLeftOne(shift + 7);
    ShiftLeftCompose(rest, shift, 7);
    ShiftLeftSeven(rest);
    ShiftLeftAdd(low, 128 * rest, shift);
    ShiftLeftCompose(1, shift, 7);
    ShiftLeftSeven(1);
    ShiftLeftMonotone(low, 127, shift);
    ShiftLeftAdd(127, 1, shift);
    if rest != 0 {
      ShiftLeftMonotone(1, rest, shift + 7);
    }
  }

  lemma {:induction false} ShiftLeftZero(n: nat)
    ensures ShiftLeft(0, n) == 0
  {
    if n > 0 {
      ShiftLeftZero(n - 1);
    }
  }

  /** A non-zero value shifted to bit `n` is worth at least that bit. */
  lemma ShiftLeftAtLeast(x: nat, n: nat)
    requires x >= 1
    ensures ShiftLeft(x, n) >= Pow2(n)
  {
    ShiftLeftMonotone(1, x, n);
    ShiftLeftOne(n);
  }

  /** Below 2^63 a bit pattern is its own `Long` and survives truncation to
      64 bits. */
  lemma BelowSignBit(x: nat)
    requires x < TWO63
    ensures x % TWO64 == x && Wrap64(x) == x
  {
  }

  /** Every bit up to the sign bit of a `Long` lies below 2^63 + 1. */
  lemma Pow2UpTo63(n: nat)
    requires n <= 63
    ensures Pow2(n) <= TWO63
  {
    Pow2Monotone(n, 63);
    Pow2Values();
  }

  /** Each fixed-width integer is recovered from its bit pattern. */
  lemma Wrap16OfPattern(v: int16)
    ensures Wrap16(v % TWO16) == v
  {
  }

  lemma Wrap32OfPattern(v: int32)
    ensures Wrap32(v % TWO32) == v
  {
  }

  lemma Wrap64OfPattern(v: int64)
    ensures Wrap64(v % TWO64) == v
  {
  }
}
