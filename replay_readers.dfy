/** The primitive readers `OsuReplay` decodes a replay with, each on the
    unread bytes of its `DataInputStream`: one byte, the little-endian
    fixed-width integers that check `available()` first, the capped ULEB128
    reader, the marker-prefixed optional string and the length-prefixed
    replay blob. */
module ReplayReaders {
  import opened Common

  /** Why a read failed: the exceptions the readers throw. */
  datatype DecodeError =
    | EndOfFile                    // `readByte`/`readFully` past the end (EOFException)
    | InsufficientData(width: nat) // fewer than `width` bytes `available()`
    | InvalidLeb128                // an eleventh ULEB128 byte would be needed
    | Leb128Overflow               // a ULEB128 payload that does not fit a `Long`
    | StringLengthOutOfBounds      // a string length outside 0..512000
    | NegativeArraySize            // `ByteArray(length)` with a negative length
    | DoubleOutOfBounds            // a double outside `Double.MIN_VALUE..Double.MAX_VALUE`
    | ReplayDataUnreadable         // the LZMA round trip of the replay blob threw

  const MAX_STRING_LENGTH: int := 512000

  /** The marker byte of a present string. */
  const STRING_PRESENT: int8 := 0x0b

  /** Bit patterns of `Double.MIN_VALUE` (the least positive double) and
      `Double.MAX_VALUE`. Positive doubles are ordered as their patterns, and
      every comparison with NaN is false, so a double lies in
      `MIN_VALUE..MAX_VALUE` exactly when its pattern lies between these. */
  const MIN_DOUBLE_BITS: int := 0x0000_0000_0000_0001
  const MAX_DOUBLE_BITS: int := 0x7FEF_FFFF_FFFF_FFFF

  /** `readByte()`: the next byte, signed. */
  function ReadByte(s: seq<byte>): (r: Result<Reading<int8>, DecodeError>)
    ensures r.Ok? <==> s != []
    ensures r.Ok? ==> r.value == Parsed(Signed8(s[0]), s[1..])
    ensures r.Err? ==> r.error == EndOfFile
  {
    if s == [] then Err(EndOfFile) else Ok(Parsed(Signed8(s[0]), s[1..]))
  }

  /** `readFully` into an array of `n` bytes. */
  function ReadFully(s: seq<byte>, n: nat): (r: Result<Reading<seq<byte>>, DecodeError>)
    ensures r.Ok? <==> n <= |s|
    ensures r.Ok? ==> r.value == Parsed(s[..n], s[n..])
    ensures r.Err? ==> r.error == EndOfFile
  {
    if |s| < n then Err(EndOfFile) else Ok(Parsed(s[..n], s[n..]))
  }

  /** The unsigned little-endian number the bytes `bs` spell. */
  function LittleEndian(bs: seq<byte>): nat
  {
    if bs == [] then 0 else bs[0] + 256 * LittleEndian(bs[1..])
  }

  /** The `available()` check and `readFully` of a fixed-width reader: no
      byte is consumed unless all `width` are there. */
  function ReadWidth(s: seq<byte>, width: nat): (r: Result<Reading<nat>, DecodeError>)
  {
    if |s| < width then Err(InsufficientData(width)) else Ok(Parsed(LittleEndian(s[..width]), s[width..]))
  }

  /** `readShortLittleEndian()`. */
  function ReadShort(s: seq<byte>): (r: Result<Reading<int16>, DecodeError>)
  {
    var p :- ReadWidth(s, 2);
    Ok(Parsed(Wrap16(p.value), p.rest))
  }

  /** `readIntLittleEndian()`; its range test admits every `Int`. */
  function ReadInt(s: seq<byte>): (r: Result<Reading<int32>, DecodeError>)
  {
    var p :- ReadWidth(s, 4);
    Ok(Parsed(Wrap32(p.value), p.rest))
  }

  /** `readLongLittleEndian()`; its range test admits every `Long`. */
  function ReadLong(s: seq<byte>): (r: Result<Reading<int64>, DecodeError>)
  {
    var p :- ReadWidth(s, 8);
    Ok(Parsed(Wrap64(p.value), p.rest))
  }

  /** `readDoubleLittleEndian()`, yielding the double's bit pattern: eight
      bytes must be available, and the double must lie in
      `Double.MIN_VALUE..Double.MAX_VALUE`, which rejects zero, negatives,
      infinities and NaN. */
  function ReadDoubleBits(s: seq<byte>): (r: Result<Reading<nat>, DecodeError>)
  {
    var p :- ReadWidth(s, 8);
    if MIN_DOUBLE_BITS <= p.value <= MAX_DOUBLE_BITS then Ok(p) else Err(DoubleOutOfBounds)
  }

  /** Kotlin `x shl shift` on a `Long`: the count masked to six bits, the
      product truncated to 64 bits (as a bit pattern). */
  function Shl64(x: nat, shift: nat): (r: nat)
    ensures r < TWO64
  {
    ShiftLeft(x, shift % 64) % 0x1_0000_0000_0000_0000
  }

  /** The `readULEB128` loop on the unread bytes `s`, `size` bytes read so
      far, `result` the bit pattern gathered at `shift`. Before each byte it
      refuses to read an eleventh; the tenth may carry at most payload 1, and
      no payload may land at a shift of 63 or more. */
  function UlebFrom(s: seq<byte>, result: nat, shift: nat, size: nat): (r: Result<Reading<int64>, DecodeError>)
    requires size <= 10
    decreases |s|
  {
    if size == 10 then Err(InvalidLeb128)
    else if s == [] then Err(EndOfFile)
    else
      var b := s[0];
      var value := b % 128;
      if size + 1 == 10 && value > 1 then Err(Leb128Overflow)
      else if shift >= 63 && value > 0 then Err(Leb128Overflow)
      else
        var result' := Or(result, Shl64(value, shift));
        if b >= 128 then UlebFrom(s[1..], result', shift + 7, size + 1)
        else Ok(Parsed(Wrap64(result'), s[1..]))
  }

  /** `readULEB128()`. */
  function ReadUleb128(s: seq<byte>): Result<Reading<int64>, DecodeError>
  {
    UlebFrom(s, 0, 0, 0)
  }

  /** `readCompressedReplayData()`: a marker byte; for `0x0b` a ULEB128
      length, checked against 0..512000 before anything more is read, then
      that many bytes (kept as bytes: their UTF-8 decoding is not modelled);
      any other marker means the string is absent. */
  function ReadOptString(s: seq<byte>): (r: Result<Reading<Option<seq<byte>>>, DecodeError>)
  {
    var marker :- ReadByte(s);
    if marker.value != STRING_PRESENT then Ok(Parsed(None, marker.rest))
    else
      var length :- ReadUleb128(marker.rest);
      if !(0 <= length.value <= MAX_STRING_LENGTH) then Err(StringLengthOutOfBounds)
      else
        var bytes :- ReadFully(length.rest, length.value);
        Ok(Parsed(Some(bytes.value), bytes.rest))
  }

  /** `readCompressedReplayData(length)`: exactly `length` bytes, handed to
      `normalise`, which stands for the LZMA decompression, recompression
      and Base64 encoding (`None` when those throw). */
  function ReadBlob(s: seq<byte>, length: int32, normalise: seq<byte> -> Option<string>)
    : (r: Result<Reading<string>, DecodeError>)
  {
    if length < 0 then Err(NegativeArraySize)
    else
      var bytes :- ReadFully(s, length);
      match normalise(bytes.value)
      case None => Err(ReplayDataUnreadable)
      case Some(text) => Ok(Parsed(text, bytes.rest))
  }

  /** A read whose outcome agrees with a reader above: `x` is the value and
      `rest` the unread bytes when the read succeeds, and `x` is the same
      error when it fails. */
  predicate Follows<T(==)>(x: Result<T, DecodeError>, spec: Result<Reading<T>, DecodeError>, rest: seq<byte>)
  {
    && (x.Ok? <==> spec.Ok?)
    && (spec.Ok? ==> x.value == spec.value.value && rest == spec.value.rest)
    && (spec.Err? ==> x.error == spec.error)
  }

  /* `Follows` for each reader, applied to `s`. (Each is stated through a
     quantifier over the input so that the verifier unfolds the reader only
     where a proof names it.) */
  ghost predicate ReadsByte(x: Result<int8, DecodeError>, s: seq<byte>, rest: seq<byte>)
  {
    forall t: seq<byte> :: t == s ==> Follows(x, ReadByte(t), rest)
  }

  ghost predicate ReadsShort(x: Result<int16, DecodeError>, s: seq<byte>, rest: seq<byte>)
  {
    forall t: seq<byte> :: t == s ==> Follows(x, ReadShort(t), rest)
  }

  ghost predicate ReadsInt(x: Result<int32, DecodeError>, s: seq<byte>, rest: seq<byte>)
  {
    forall t: seq<byte> :: t == s ==> Follows(x, ReadInt(t), rest)
  }

  ghost predicate ReadsLong(x: Result<int64, DecodeError>, s: seq<byte>, rest: seq<byte>)
  {
    forall t: seq<byte> :: t == s ==> Follows(x, ReadLong(t), rest)
  }

  ghost predicate ReadsDouble(x: Result<nat, DecodeError>, s: seq<byte>, rest: seq<byte>)
  {
    forall t: seq<byte> :: t == s ==> Follows(x, ReadDoubleBits(t), rest)
  }

  ghost predicate ReadsOptString(x: Result<Option<seq<byte>>, DecodeError>, s: seq<byte>, rest: seq<byte>)
  {
    forall t: seq<byte> :: t == s ==> Follows(x, ReadOptString(t), rest)
  }

  ghost predicate ReadsBlob(x: Result<string, DecodeError>, s: seq<byte>, length: int32,
                            normalise: seq<byte> -> Option<string>, rest: seq<byte>)
  {
    forall t: seq<byte> :: t == s ==> Follows(x, ReadBlob(t, length, normalise), rest)
  }

  /** The number of leading bytes of `s` with the continuation bit set. */
  function ContinuationRun(s: seq<byte>): (c: nat)
    ensures c <= |s|
  {
    if s == [] || s[0] < 128 then 0 else 1 + ContinuationRun(s[1..])
  }

  /** The sum of the seven-bit payloads of `bs`, the i-th weighted 128^i. */
  function Payload(bs: seq<byte>): nat
  {
    if bs == [] then 0 else bs[0] % 128 + 128 * Payload(bs[1..])
  }

  /** A seven-bit payload shifted by at most 56 neither wraps nor has its
      count masked. */
  lemma Shl64Low(value: nat, shift: nat)
    requires value < 128 && shift <= 56
    ensures Shl64(value, shift) == ShiftLeft(value, shift)
  {
    assert shift % 64 == shift;
    assert value % 128 == value;
    GroupArith(0, value, shift);
    Pow2UpTo63(shift + 7);
    BelowSignBit(ShiftLeft(value, shift));
  }

  /** One byte of `readULEB128` that passes both overflow guards: its
      payload lands above the bits gathered so far, below bit 63. */
  lemma UlebGroupAdds(acc: nat, value: nat, shift: nat, size: nat)
    requires size < 10 && shift == 7 * size && acc < Pow2(shift) && acc < TWO63 && value < 128
    requires !(size + 1 == 10 && value > 1) && !(shift >= 63 && value > 0)
    ensures Or(acc, Shl64(value, shift)) == acc + ShiftLeft(value, shift)
    ensures acc + ShiftLeft(value, shift) < Pow2(shift + 7)
    ensures acc + ShiftLeft(value, shift) < TWO63
  {
    if value == 0 {
      UlebGroupZero(acc, shift);
    } else {
      UlebGroupValue(acc, value, shift);
    }
  }

  /** A zero group leaves the gathered bits as they are. */
  lemma UlebGroupZero(acc: nat, shift: nat)
    requires acc < Pow2(shift) && acc < TWO63
    ensures Or(acc, Shl64(0, shift)) == acc + ShiftLeft(0, shift)
    ensures acc + ShiftLeft(0, shift) < Pow2(shift + 7)
    ensures acc + ShiftLeft(0, shift) < TWO63
  {
    Pow2Monotone(shift, shift + 7);
    ShiftLeftZero(shift);
    ShiftLeftZero(shift % 64);
  }

  /** A non-zero group lands above the gathered bits and below bit 63. */
  lemma UlebGroupValue(acc: nat, value: nat, shift: nat)
    requires shift <= 56 && acc < Pow2(shift) && value < 128
    ensures Or(acc, Shl64(value, shift)) == acc + ShiftLeft(value, shift)
    ensures acc + ShiftLeft(value, shift) < Pow2(shift + 7) <= TWO63
  {
    Shl64Low(value, shift);
    assert value % 128 == value;
    GroupArith(acc, value, shift);
    Pow2UpTo63(shift + 7);
    OrDisjoint(acc, value, shift);
  }

  /** Splitting the payload sum after its first byte. */
  lemma PayloadCons(b: byte, bs: seq<byte>, shift: nat)
    ensures Payload([b] + bs) == b % 128 + 128 * Payload(bs)
    ensures ShiftLeft(Payload([b] + bs), shift) == ShiftLeft(b % 128, shift) + ShiftLeft(Payload(bs), shift + 7)
  {
    assert ([b] + bs)[1..] == bs;
    var q := Payload(bs);
    ShiftLeftSeven(q);
    ShiftLeftAdd(b % 128, ShiftLeft(q, 7), shift);
    ShiftLeftCompose(q, shift, 7);
  }

  /** A successful `readULEB128` loop passed both guards on its next byte. */
  lemma UlebFromGuards(s: seq<byte>, acc: nat, shift: nat, size: nat)
    requires size <= 10 && UlebFrom(s, acc, shift, size).Ok?
    ensures size < 10 && s != []
    ensures !(size + 1 == 10 && s[0] % 128 > 1) && !(shift >= 63 && s[0] % 128 > 0)
  {
  }

  /** One byte of the `readULEB128` loop that passes both guards: its
      payload is added at `shift`, and the loop goes on exactly when its
      top bit is set. */
  lemma UlebFromByte(s: seq<byte>, acc: nat, shift: nat, size: nat)
    requires size < 10 && s != [] && shift == 7 * size && acc < Pow2(shift) && acc < TWO63
    requires !(size + 1 == 10 && s[0] % 128 > 1) && !(shift >= 63 && s[0] % 128 > 0)
    ensures acc + ShiftLeft(s[0] % 128, shift) < Pow2(shift + 7)
    ensures acc + ShiftLeft(s[0] % 128, shift) < TWO63
    ensures UlebFrom(s, acc, shift, size)
            == if s[0] >= 128 then UlebFrom(s[1..], acc + ShiftLeft(s[0] % 128, shift), shift + 7, size + 1)
               else Ok(Parsed(acc + ShiftLeft(s[0] % 128, shift), s[1..]))
  {
    UlebGroupAdds(acc, s[0] % 128, shift, size);
    UlebFromStep(s, acc, shift, size, Or(acc, Shl64(s[0] % 128, shift)));
    if s[0] < 128 {
      BelowSignBit(acc + ShiftLeft(s[0] % 128, shift));
    }
  }

  /** The `readULEB128` loop on a byte that passes both guards, with the
      bits gathered after it named `next`. */
  lemma UlebFromStep(s: seq<byte>, acc: nat, shift: nat, size: nat, next: nat)
    requires size < 10 && s != []
    requires !(size + 1 == 10 && s[0] % 128 > 1) && !(shift >= 63 && s[0] % 128 > 0)
    requires next == Or(acc, Shl64(s[0] % 128, shift))
    ensures UlebFrom(s, acc, shift, size)
            == if s[0] >= 128 then UlebFrom(s[1..], next, shift + 7, size + 1) else Ok(Parsed(Wrap64(next), s[1..]))
  {
  }

  /** One byte of a successful `readULEB128` loop. */
  lemma UlebFromOkByte(s: seq<byte>, acc: nat, shift: nat, size: nat)
    requires size <= 10 && shift == 7 * size && acc < Pow2(shift) && acc < TWO63
    requires UlebFrom(s, acc, shift, size).Ok?
    ensures size < 10 && s != []
    ensures acc + ShiftLeft(s[0] % 128, shift) < Pow2(shift + 7)
    ensures acc + ShiftLeft(s[0] % 128, shift) < TWO63
    ensures UlebFrom(s, acc, shift, size)
            == if s[0] >= 128 then UlebFrom(s[1..], acc + ShiftLeft(s[0] % 128, shift), shift + 7, size + 1)
               else Ok(Parsed(acc + ShiftLeft(s[0] % 128, shift), s[1..]))
  {
    UlebFromGuards(s, acc, shift, size);
    UlebFromByte(s, acc, shift, size);
  }

  /** The bytes a ULEB128 read consumes, split after a first byte that has
      the continuation bit set. */
  lemma RunCons(s: seq<byte>, shift: nat)
    requires s != [] && s[0] >= 128 && ContinuationRun(s[1..]) < |s| - 1
    ensures ContinuationRun(s) == ContinuationRun(s[1..]) + 1
    ensures s[ContinuationRun(s) + 1..] == s[1..][ContinuationRun(s[1..]) + 1..]
    ensures ShiftLeft(Payload(s[..ContinuationRun(s) + 1]), shift)
            == ShiftLeft(s[0] % 128, shift) + ShiftLeft(Payload(s[1..][..ContinuationRun(s[1..]) + 1]), shift + 7)
  {
    var c := ContinuationRun(s[1..]);
    assert s[..c + 2] == [s[0]] + s[1..][..c + 1];
    PayloadCons(s[0], s[1..][..c + 1], shift);
  }

  /** The same for a first byte without the continuation bit. */
  lemma RunLast(s: seq<byte>, shift: nat)
    requires s != [] && s[0] < 128
    ensures ContinuationRun(s) == 0
    ensures ShiftLeft(Payload(s[..1]), shift) == ShiftLeft(s[0] % 128, shift)
  {
    assert s[..1] == [s[0]] + [];
    PayloadCons(s[0], [], shift);
    ShiftLeftZero(shift + 7);
  }

  /** What a successful `readULEB128` loop from byte `size` on has read:
      everything up to and including the first byte without the
      continuation bit, within ten bytes in all, adding their payloads at
      `shift`, and the total stays below 2^63. */
  lemma {:induction false} UlebFromOk(s: seq<byte>, acc: nat, shift: nat, size: nat, r: Reading<int64>)
    requires size <= 10 && shift == 7 * size && acc < Pow2(shift) && acc < TWO63
    requires UlebFrom(s, acc, shift, size) == Ok(r)
    ensures ContinuationRun(s) < |s| && size + ContinuationRun(s) < 10
    ensures r.value == acc + ShiftLeft(Payload(s[..ContinuationRun(s) + 1]), shift)
    ensures r.rest == s[ContinuationRun(s) + 1..]
    decreases |s|
  {
    UlebFromOkByte(s, acc, shift, size);
    if s[0] >= 128 {
      UlebFromOk(s[1..], acc + ShiftLeft(s[0] % 128, shift), shift + 7, size + 1, r);
      RunCons(s, shift);
    } else {
      RunLast(s, shift);
    }
  }

  /** `readULEB128` succeeds only by consuming the bytes up to and including
      the first one whose top bit is clear, at most ten of them; the value
      is the sum of their seven-bit payloads, the i-th weighted 128^i, and
      lies in 0 .. 2^63 - 1. */
  lemma {:induction false} UlebValue(s: seq<byte>)
    requires ReadUleb128(s).Ok?
    ensures ContinuationRun(s) < |s| && ContinuationRun(s) < 10
    ensures ReadUleb128(s).value
            == Parsed(Payload(s[..ContinuationRun(s) + 1]), s[ContinuationRun(s) + 1..])
    ensures 0 <= ReadUleb128(s).value.value < TWO63
  {
    UlebFromOk(s, 0, 0, 0, ReadUleb128(s).value);
    var c := ContinuationRun(s);
    var p := Payload(s[..c + 1]);
    assert ShiftLeft(p, 0) == p;
    assert UlebFrom(s, 0, 0, 0).value == Parsed(p, s[c + 1..]);
  }

  /** The first byte of the base-128 digits of `u`, followed by anything. */
  lemma Base128Head(u: nat, t: seq<byte>)
    ensures Base128(u) + t != [] && (Base128(u) + t)[0] % 128 == u % 128
    ensures (Base128(u) + t)[0] >= 128 <==> u / 128 != 0
    ensures u / 128 != 0 ==> (Base128(u) + t)[1..] == Base128(u / 128) + t
    ensures u / 128 == 0 ==> (Base128(u) + t)[1..] == t
  {
    if u / 128 != 0 {
      AppendAssoc([u % 128 + 128], Base128(u / 128), t);
    }
  }

  /** A value that fits below 2^63 at `shift` passes both overflow guards,
      and its digits beyond the first start below bit 63. */
  lemma Base128Fits(u: nat, acc: nat, shift: nat, size: nat)
    requires size < 10 && shift == 7 * size && acc < Pow2(shift)
    requires acc + ShiftLeft(u, shift) < TWO63
    ensures !(size + 1 == 10 && u % 128 > 1) && !(shift >= 63 && u % 128 > 0)
    ensures u / 128 != 0 ==> size + 1 < 9
    ensures ShiftLeft(u, shift) == ShiftLeft(u % 128, shift) + ShiftLeft(u / 128, shift + 7)
  {
    GroupArith(acc, u, shift);
    Pow2UpTo63(63);
    Pow2Values();
    if shift >= 63 && u != 0 {
      ShiftLeftAtLeast(u, shift);
      Pow2Monotone(63, shift);
      assert false;
    }
    if u / 128 != 0 {
      Pow2Below(shift + 7, 63);
    }
  }

  /** The `readULEB128` loop, started at byte `size` on the base-128 digits
      of `u`, adds `u` at `shift` and stops right after them, provided the
      total fits below 2^63. */
  lemma {:induction false} UlebFromBase128(u: nat, acc: nat, shift: nat, size: nat, t: seq<byte>)
    requires size < 10 && shift == 7 * size && acc < Pow2(shift)
    requires acc + ShiftLeft(u, shift) < TWO63
    ensures UlebFrom(Base128(u) + t, acc, shift, size) == Ok(Parsed(acc + ShiftLeft(u, shift), t))
    decreases u
  {
    Base128Head(u, t);
    Base128Fits(u, acc, shift, size);
    UlebFromByte(Base128(u) + t, acc, shift, size);
    if u / 128 != 0 {
      UlebFromBase128(u / 128, acc + ShiftLeft(u % 128, shift), shift + 7, size + 1, t);
    } else {
      assert u % 128 == u;
    }
  }

  /** `readULEB128` reads back every value below 2^63 from its base-128
      digits, least significant group first, and stops right after them. */
  lemma UlebRoundTrip(v: nat, t: seq<byte>)
    requires v < TWO63
    ensures ReadUleb128(Base128(v) + t) == Ok(Parsed(v, t))
  {
    UlebFromBase128(v, 0, 0, 0, t);
  }

  /** Nine continuation bytes bring the loop to the tenth byte at shift 63,
      where the guards of both overflow checks meet: any payload other than
      zero overflows, and a continuation bit on a zero payload is refused
      before an eleventh byte is read, whether or not one follows. */
  lemma {:induction false} UlebFromTenth(s: seq<byte>, acc: nat, shift: nat, size: nat)
    requires size < 10 && shift == 7 * size && 10 - size <= |s|
    requires forall i :: 0 <= i < 9 - size ==> s[i] >= 128
    ensures s[9 - size] % 128 != 0 ==> UlebFrom(s, acc, shift, size) == Err(Leb128Overflow)
    ensures s[9 - size] == 128 ==> UlebFrom(s, acc, shift, size) == Err(InvalidLeb128)
    ensures UlebFrom(s, acc, shift, size).Ok? <==> s[9 - size] == 0
    decreases 10 - size
  {
    if size < 9 {
      assert s[0] >= 128;
      UlebFromTenth(s[1..], Or(acc, Shl64(s[0] % 128, shift)), shift + 7, size + 1);
    }
  }

  /** `readULEB128` decides by the tenth byte at the latest: after nine
      continuation bytes, a tenth with a payload other than zero overflows
      (payload 1 included, which the tenth-byte guard alone would let
      through), `0x80` is refused as an over-long sequence, and only `0x00`
      completes the value. */
  lemma UlebTenthByte(s: seq<byte>)
    requires 10 <= |s| && forall i :: 0 <= i < 9 ==> s[i] >= 128
    ensures s[9] % 128 != 0 ==> ReadUleb128(s) == Err(Leb128Overflow)
    ensures s[9] == 128 ==> ReadUleb128(s) == Err(InvalidLeb128)
    ensures ReadUleb128(s).Ok? <==> s[9] == 0
  {
    UlebFromTenth(s, 0, 0, 0);
  }

  /** Input that ends inside a sequence of fewer than ten bytes, all with
      the continuation bit, runs out. */
  lemma {:induction false} UlebFromRunsOut(s: seq<byte>, acc: nat, shift: nat, size: nat)
    requires size + |s| < 10 && shift == 7 * size
    requires forall i :: 0 <= i < |s| ==> s[i] >= 128
    ensures UlebFrom(s, acc, shift, size) == Err(EndOfFile)
    decreases |s|
  {
    if s != [] {
      assert s[0] >= 128;
      UlebFromRunsOut(s[1..], Or(acc, Shl64(s[0] % 128, shift)), shift + 7, size + 1);
    }
  }

  /** `readULEB128` on input that ends before a byte without the
      continuation bit, within ten bytes, fails with end of file. */
  lemma UlebTruncated(s: seq<byte>)
    requires |s| < 10 && forall i :: 0 <= i < |s| ==> s[i] >= 128
    ensures ReadUleb128(s) == Err(EndOfFile)
  {
    UlebFromRunsOut(s, 0, 0, 0);
  }

  /** 256^n, the number of values `n` bytes can hold. */
  function Pow256(n: nat): (r: nat)
    ensures r >= 1
  {
    if n == 0 then 1 else 256 * Pow256(n - 1)
  }

  /** The `n` little-endian bytes of `u`, least significant first. */
  function LeBytes(u: nat, n: nat): (r: seq<byte>)
    ensures |r| == n
  {
    if n == 0 then [] else [u % 256] + LeBytes(u / 256, n - 1)
  }

  lemma Pow256Values()
    ensures Pow256(2) == TWO16 && Pow256(4) == TWO32 && Pow256(8) == TWO64
  {
    assert Pow256(2) == 0x1_0000;
    assert Pow256(4) == 0x1_0000 * Pow256(2);
    assert Pow256(8) == 0x1_0000_0000 * Pow256(4);
  }

  /** Little-endian decoding inverts the little-endian encoding of every
      value that fits in its width. */
  lemma {:induction false} LittleEndianOfLeBytes(u: nat, n: nat)
    requires u < Pow256(n)
    ensures LittleEndian(LeBytes(u, n)) == u
  {
    if n > 0 {
      LittleEndianOfLeBytes(u / 256, n - 1);
      assert LeBytes(u, n)[1..] == LeBytes(u / 256, n - 1);
    }
  }

  /** A fixed-width read of `bs` followed by anything reads the number `bs`
      spells and leaves exactly what follows. */
  lemma ReadWidthOf(bs: seq<byte>, t: seq<byte>)
    ensures ReadWidth(bs + t, |bs|) == Ok(Parsed(LittleEndian(bs), t))
  {
    assert (bs + t)[..|bs|] == bs;
    assert (bs + t)[|bs|..] == t;
  }

  /** The short, int and long readers succeed exactly when their width is
      available, consuming exactly that width, and otherwise fail with
      insufficient data. The double reader fails with insufficient data
      below eight bytes; with eight bytes it either consumes them or
      refuses the pattern (see `DoubleRoundTrip`). */
  lemma FixedWidthAvailable(s: seq<byte>)
    ensures ReadShort(s).Ok? <==> |s| >= 2
    ensures ReadShort(s).Err? ==> ReadShort(s).error == InsufficientData(2)
    ensures ReadShort(s).Ok? ==> ReadShort(s).value.rest == s[2..]
    ensures ReadInt(s).Ok? <==> |s| >= 4
    ensures ReadInt(s).Err? ==> ReadInt(s).error == InsufficientData(4)
    ensures ReadInt(s).Ok? ==> ReadInt(s).value.rest == s[4..]
    ensures ReadLong(s).Ok? <==> |s| >= 8
    ensures ReadLong(s).Err? ==> ReadLong(s).error == InsufficientData(8)
    ensures ReadLong(s).Ok? ==> ReadLong(s).value.rest == s[8..]
    ensures |s| < 8 ==> ReadDoubleBits(s) == Err(InsufficientData(8))
    ensures ReadDoubleBits(s).Ok? ==> |s| >= 8 && ReadDoubleBits(s).value.rest == s[8..]
  {
  }

  /** `readShortLittleEndian` reads back every `Short` from its two's
      complement bytes, least significant first. */
  lemma ShortRoundTrip(v: int16, t: seq<byte>)
    ensures ReadShort(LeBytes(v % TWO16, 2) + t) == Ok(Parsed(v, t))
  {
    var u := v % TWO16;
    Pow256Values();
    LittleEndianOfLeBytes(u, 2);
    ReadWidthOf(LeBytes(u, 2), t);
    Wrap16OfPattern(v);
  }

  /** `readIntLittleEndian` reads back every `Int`. */
  lemma IntRoundTrip(v: int32, t: seq<byte>)
    ensures ReadInt(LeBytes(v % TWO32, 4) + t) == Ok(Parsed(v, t))
  {
    var u := v % TWO32;
    Pow256Values();
    LittleEndianOfLeBytes(u, 4);
    ReadWidthOf(LeBytes(u, 4), t);
    Wrap32OfPattern(v);
  }

  /** `readLongLittleEndian` reads back every `Long`. */
  lemma LongRoundTrip(v: int64, t: seq<byte>)
    ensures ReadLong(LeBytes(v % TWO64, 8) + t) == Ok(Parsed(v, t))
  {
    var u := v % TWO64;
    Pow256Values();
    LittleEndianOfLeBytes(u, 8);
    ReadWidthOf(LeBytes(u, 8), t);
    Wrap64OfPattern(v);
  }

  /** `readDoubleLittleEndian` reads back the bit pattern of every double in
      `Double.MIN_VALUE..Double.MAX_VALUE` and refuses every other one. */
  lemma DoubleRoundTrip(bits: nat, t: seq<byte>)
    requires bits < TWO64
    ensures MIN_DOUBLE_BITS <= bits <= MAX_DOUBLE_BITS
            ==> ReadDoubleBits(LeBytes(bits, 8) + t) == Ok(Parsed(bits, t))
    ensures !(MIN_DOUBLE_BITS <= bits <= MAX_DOUBLE_BITS)
            ==> ReadDoubleBits(LeBytes(bits, 8) + t) == Err(DoubleOutOfBounds)
  {
    Pow256Values();
    LittleEndianOfLeBytes(bits, 8);
    ReadWidthOf(LeBytes(bits, 8), t);
  }

  /** A marker other than `0x0b` makes the string absent, one byte read. */
  lemma OptStringAbsent(s: seq<byte>)
    requires s != [] && s[0] != 0x0b
    ensures ReadOptString(s) == Ok(Parsed(None, s[1..]))
  {
  }

  /** The optional-string reader after a marker `0x0b` and a length. */
  lemma OptStringOfLength(s: seq<byte>, n: int64, x: seq<byte>)
    requires s != [] && s[0] == 0x0b && ReadUleb128(s[1..]) == Ok(Parsed(n, x))
    ensures ReadOptString(s)
            == if !(0 <= n <= MAX_STRING_LENGTH) then Err(StringLengthOutOfBounds)
               else if |x| < n then Err(EndOfFile)
               else Ok(Parsed(Some(x[..n]), x[n..]))
  {
  }

  /** A present string starts with its marker and a ULEB128 length. */
  lemma OptStringHeader(n: nat, x: seq<byte>)
    requires n < TWO63
    ensures ([0x0b] + Base128(n) + x)[0] == 0x0b
    ensures ReadUleb128(([0x0b] + Base128(n) + x)[1..]) == Ok(Parsed(n, x))
  {
    assert ([0x0b] + Base128(n) + x)[1..] == Base128(n) + x;
    UlebRoundTrip(n, x);
  }

  /** After the marker `0x0b` and a ULEB128 length `n`: a length above
      512000 is refused before anything more is read; otherwise exactly `n`
      more bytes are the string, and input that ends sooner fails. */
  lemma OptStringPresent(n: nat, x: seq<byte>)
    requires n < TWO63
    ensures ReadOptString([0x0b] + Base128(n) + x)
            == if MAX_STRING_LENGTH < n then Err(StringLengthOutOfBounds)
               else if |x| < n then Err(EndOfFile)
               else Ok(Parsed(Some(x[..n]), x[n..]))
  {
    OptStringHeader(n, x);
    OptStringOfLength([0x0b] + Base128(n) + x, n, x);
  }

  /** `readCompressedReplayData()` reads back every string of at most
      512000 bytes from its marker, ULEB128 length and bytes. */
  lemma OptStringRoundTrip(bytes: seq<byte>, t: seq<byte>)
    requires |bytes| <= MAX_STRING_LENGTH
    ensures ReadOptString([0x0b] + Base128(|bytes|) + (bytes + t)) == Ok(Parsed(Some(bytes), t))
  {
    OptStringPresent(|bytes|, bytes + t);
    assert (bytes + t)[..|bytes|] == bytes;
    assert (bytes + t)[|bytes|..] == t;
  }

  /** The replay blob reader consumes exactly `length` bytes and keeps what
      the normaliser makes of them; a negative length fails before any
      byte is read. */
  lemma BlobRead(bs: seq<byte>, t: seq<byte>, normalise: seq<byte> -> Option<string>)
    requires |bs| < 0x8000_0000
    ensures ReadBlob(bs + t, |bs|, normalise)
            == if normalise(bs).None? then Err(ReplayDataUnreadable) else Ok(Parsed(normalise(bs).value, t))
  {
    assert (bs + t)[..|bs|] == bs;
    assert (bs + t)[|bs|..] == t;
  }
}
