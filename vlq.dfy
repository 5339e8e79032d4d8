/** The variable-length quantity used by the judgement payload: a 32-bit
    `Int` is written as its unsigned bit pattern in 7-bit groups, least
    significant group first, bit 0x80 set on every byte but the last
    (`putVLQ`), and read back into a 32-bit accumulator (`getVLQ`). */
module VlqCodec {
  import opened Common

  /** Why reading the judgement payload failed: `get()` on an exhausted
      buffer, or a type byte that names no `Judgement.Type` entry. */
  datatype PayloadError = BufferUnderflow | UnknownType(ordinal: int)

  /** `putVLQ(v)`: the encoding of the `Int` `v`. A negative `v` is written as
      its two's-complement pattern, so it always takes five bytes. */
  function Vlq(v: int32): (e: seq<byte>)
    ensures 1 <= |e| <= 5
  {
    Pow2Values();
    Pow2Add(32, 3);
    Base128Length(Unsigned32(v), 5);
    Base128(Unsigned32(v))
  }

  /** Shape of `putVLQ`'s output: one to five bytes, bit 0x80 set on all but
      the last, clear on the last; zero is the single byte 0x00. */
  lemma VlqShape(v: int32)
    ensures 1 <= |Vlq(v)| <= 5
    ensures Vlq(v)[|Vlq(v)| - 1] < 128
    ensures forall i :: 0 <= i < |Vlq(v)| - 1 ==> Vlq(v)[i] >= 128
    ensures v == 0 ==> Vlq(v) == [0]
  {
    Base128Continuation(Unsigned32(v));
  }

  /** Kotlin `x shl shift` on an `Int`: the shift count is masked to its low
      five bits and the product truncated to 32 bits (as a bit pattern). */
  function Shl32(x: nat, shift: nat): (r: nat)
    ensures r < TWO32
  {
    ShiftLeft(x, shift % 32) % TWO32
  }

  /** `ByteBuffer.get()` on the unread bytes `s`: the first of them, or an
      underflow when there is none. */
  function GetByte(s: seq<byte>): (r: Result<Reading<byte>, PayloadError>)
    ensures r.Ok? <==> s != []
    ensures r.Ok? ==> r.value == Parsed(s[0], s[1..])
    ensures r.Err? ==> r.error == BufferUnderflow
  {
    if s == [] then Err(BufferUnderflow) else Ok(Parsed(s[0], s[1..]))
  }

  /** The `getVLQ` loop on the unread bytes `s`, with `acc` the bit pattern of
      `result` so far and `shift` the running shift count. It has no length
      cap: it reads until a byte without 0x80 or until the buffer runs out. */
  function GetVlqFrom(s: seq<byte>, acc: nat, shift: nat): (r: Result<Reading<int32>, PayloadError>)
    decreases |s|
  {
    if s == [] then Err(BufferUnderflow)
    else
      var b := s[0];
      var acc' := Or(acc, Shl32(b % 128, shift));
      if b >= 128 then GetVlqFrom(s[1..], acc', shift + 7) else Ok(Parsed(Wrap32(acc'), s[1..]))
  }

  /** The loop consumes at least one byte when it succeeds, and its only
      failure is an underflow. */
  lemma {:induction false} GetVlqFromShape(s: seq<byte>, acc: nat, shift: nat)
    ensures GetVlqFrom(s, acc, shift).Ok? ==> |GetVlqFrom(s, acc, shift).value.rest| < |s|
    ensures GetVlqFrom(s, acc, shift).Err? ==> GetVlqFrom(s, acc, shift).error == BufferUnderflow
    decreases |s|
  {
    if s != [] && s[0] >= 128 {
      GetVlqFromShape(s[1..], Or(acc, Shl32(s[0] % 128, shift)), shift + 7);
    }
  }

  /** `getVLQ()` on the unread bytes `s`. */
  function GetVlq(s: seq<byte>): (r: Result<Reading<int32>, PayloadError>)
    ensures r.Ok? ==> |r.value.rest| < |s|
    ensures r.Err? ==> r.error == BufferUnderflow
  {
    GetVlqFromShape(s, 0, 0);
    GetVlqFrom(s, 0, 0)
  }

  /** `shl` by less than 32 does not wrap a value that still fits in 32 bits. */
  lemma ShlNoWrap(x: nat, shift: nat)
    requires shift < 32 && ShiftLeft(x, shift) < TWO32
    ensures Shl32(x, shift) == ShiftLeft(x, shift)
  {
    assert shift % 32 == shift;
  }

  /** Adding a group above the bits gathered so far: the `or` is an addition. */
  lemma OrGroup(acc: nat, low: nat, shift: nat)
    requires acc < Pow2(shift) && shift < 32 && ShiftLeft(low, shift) < TWO32
    ensures Or(acc, Shl32(low, shift)) == acc + ShiftLeft(low, shift)
  {
    ShlNoWrap(low, shift);
    OrDisjoint(acc, low, shift);
  }

  /** If a further group follows and everything fits in 32 bits, that group
      starts at bit 28 at the latest. */
  lemma MoreGroups(shift: nat)
    requires shift % 7 == 0 && Pow2(shift + 7) < TWO32
    ensures shift + 7 <= 28
  {
    Pow2Values();
    Pow2Below(shift + 7, 32);
  }

  /** The loop is at group `shift / 7` of `u`, with the bits gathered so far
      in `acc` and everything within 32 bits. */
  ghost predicate GroupsFit(acc: nat, shift: nat, u: nat)
  {
    shift % 7 == 0 && shift <= 28 && acc < Pow2(shift) && acc + ShiftLeft(u, shift) < TWO32
  }

  /** A middle group: the loop adds it with `or` and goes on with the rest. */
  lemma InnerGroup(acc: nat, shift: nat, u: nat, rest: seq<byte>)
    requires GroupsFit(acc, shift, u) && u / 128 != 0
    ensures GroupsFit(acc + ShiftLeft(u % 128, shift), shift + 7, u / 128)
    ensures acc + ShiftLeft(u % 128, shift) + ShiftLeft(u / 128, shift + 7) == acc + ShiftLeft(u, shift)
    ensures GetVlqFrom(Base128(u) + rest, acc, shift)
            == GetVlqFrom(Base128(u / 128) + rest, acc + ShiftLeft(u % 128, shift), shift + 7)
  {
    var s := Base128(u) + rest;
    var b := u % 128 + 128;
    assert Base128(u) == [b] + Base128(u / 128);
    assert s[0] == b && s[1..] == Base128(u / 128) + rest;
    GroupArith(acc, u, shift);
    assert b % 128 == u % 128;
    OrGroup(acc, u % 128, shift);
    MoreGroups(shift);
  }

  /** The last group: the loop adds it and stops. */
  lemma LastGroup(acc: nat, shift: nat, u: nat, rest: seq<byte>)
    requires GroupsFit(acc, shift, u) && u / 128 == 0
    ensures GetVlqFrom(Base128(u) + rest, acc, shift) == Ok(Parsed(Wrap32(acc + ShiftLeft(u, shift)), rest))
  {
    var s := Base128(u) + rest;
    assert s[0] == u && s[1..] == rest;
    ShiftLeftMonotone(0, u, shift);
    OrGroup(acc, u, shift);
  }

  /** The loop from group `shift / 7` on, reading the groups `Base128(u)`,
      adds `u` at bit `shift` to the bits gathered so far and stops right
      after them. */
  lemma {:induction false} GetVlqFromBase128(acc: nat, shift: nat, u: nat, rest: seq<byte>)
    requires GroupsFit(acc, shift, u)
    ensures GetVlqFrom(Base128(u) + rest, acc, shift) == Ok(Parsed(Wrap32(acc + ShiftLeft(u, shift)), rest))
    decreases u
  {
    if u / 128 != 0 {
      InnerGroup(acc, shift, u, rest);
      GetVlqFromBase128(acc + ShiftLeft(u % 128, shift), shift + 7, u / 128, rest);
    } else {
      LastGroup(acc, shift, u, rest);
    }
  }

  /** Round trip: `getVLQ` on what `putVLQ(v)` wrote, followed by anything,
      returns `v` and leaves exactly what followed, for every 32-bit `v`,
      negative ones included. */
  lemma VlqRoundTrip(v: int32, rest: seq<byte>)
    ensures GetVlq(Vlq(v) + rest) == Ok(Parsed(v, rest))
  {
    assert Pow2(0) == 1;
    assert 0 + ShiftLeft(Unsigned32(v), 0) == Unsigned32(v);
    GetVlqFromBase128(0, 0, Unsigned32(v), rest);
  }

  /** A run of continuation bytes that reaches the end of the buffer is an
      underflow: `getVLQ` never yields a value for a truncated quantity. */
  lemma {:induction false} ContinuationRunsOut(s: seq<byte>, acc: nat, shift: nat)
    requires forall i :: 0 <= i < |s| ==> s[i] >= 128
    ensures GetVlqFrom(s, acc, shift) == Err(BufferUnderflow)
    decreases |s|
  {
    if s != [] {
      ContinuationRunsOut(s[1..], Or(acc, Shl32(s[0] % 128, shift)), shift + 7);
    }
  }

  /** A proper prefix of an encoding, at the end of the buffer, underflows. */
  lemma TruncatedVlq(v: int32, k: nat)
    requires k < |Vlq(v)|
    ensures GetVlq(Vlq(v)[..k]) == Err(BufferUnderflow)
  {
    VlqShape(v);
    ContinuationRunsOut(Vlq(v)[..k], 0, 0);
  }

  /** `getVLQ` on a prefix of an encoding followed by more bytes: a cut
      inside the quantity underflows, a cut after it reads the value. */
  lemma VlqOfPrefix(v: int32, t: seq<byte>, k: nat)
    requires k <= |Vlq(v) + t|
    ensures k < |Vlq(v)| ==> GetVlq((Vlq(v) + t)[..k]) == Err(BufferUnderflow)
    ensures k >= |Vlq(v)| ==> GetVlq((Vlq(v) + t)[..k]) == Ok(Parsed(v, t[..k - |Vlq(v)|]))
  {
    if k < |Vlq(v)| {
      assert (Vlq(v) + t)[..k] == Vlq(v)[..k];
      TruncatedVlq(v, k);
    } else {
      assert (Vlq(v) + t)[..k] == Vlq(v) + t[..k - |Vlq(v)|];
      VlqRoundTrip(v, t[..k - |Vlq(v)|]);
    }
  }

  /** `putVLQ` applied to each of `vs` in turn. */
  function VlqSeq(vs: seq<int32>): seq<byte>
  {
    if vs == [] then [] else Vlq(vs[0]) + VlqSeq(vs[1..])
  }

  /** `n` successive `getVLQ()` calls; the first failure ends them. */
  function GetVlqs(s: seq<byte>, n: nat): (r: Result<Reading<seq<int32>>, PayloadError>)
    ensures r.Ok? ==> |r.value.value| == n && |r.value.rest| + n <= |s|
    ensures r.Err? ==> r.error == BufferUnderflow
    decreases n
  {
    if n == 0 then Ok(Parsed([], s))
    else
      var v :- GetVlq(s);
      var vs :- GetVlqs(v.rest, n - 1);
      Ok(Parsed([v.value] + vs.value, vs.rest))
  }

  /** Round trip for several quantities written back to back. */
  lemma {:induction false} VlqSeqRoundTrip(vs: seq<int32>, rest: seq<byte>)
    ensures GetVlqs(VlqSeq(vs) + rest, |vs|) == Ok(Parsed(vs, rest))
  {
    if vs == [] {
      assert VlqSeq(vs) + rest == rest;
    } else {
      assert VlqSeq(vs) + rest == Vlq(vs[0]) + (VlqSeq(vs[1..]) + rest);
      VlqRoundTrip(vs[0], VlqSeq(vs[1..]) + rest);
      VlqSeqRoundTrip(vs[1..], rest);
      assert [vs[0]] + vs[1..] == vs;
    }
  }

  /** Each quantity takes one to five bytes. */
  lemma {:induction false} VlqSeqLength(vs: seq<int32>)
    ensures |vs| <= |VlqSeq(vs)| <= 5 * |vs|
  {
    if vs != [] {
      VlqSeqLength(vs[1..]);
    }
  }

  /** Several quantities cut short: a cut inside them underflows, a cut
      after them reads them all and leaves the rest of the cut. */
  lemma {:induction false} VlqSeqOfPrefix(vs: seq<int32>, t: seq<byte>, k: nat)
    requires k <= |VlqSeq(vs) + t|
    ensures k < |VlqSeq(vs)| ==> GetVlqs((VlqSeq(vs) + t)[..k], |vs|) == Err(BufferUnderflow)
    ensures k >= |VlqSeq(vs)| ==> GetVlqs((VlqSeq(vs) + t)[..k], |vs|) == Ok(Parsed(vs, t[..k - |VlqSeq(vs)|]))
  {
    if vs == [] {
      assert VlqSeq(vs) + t == t;
    } else {
      var v, tl := vs[0], vs[1..];
      VlqSeqCons(vs, t);
      VlqOfPrefix(v, VlqSeq(tl) + t, k);
      if k >= |Vlq(v)| {
        VlqSeqOfPrefix(tl, t, k - |Vlq(v)|);
      }
    }
  }

  /** The first quantity of a non-empty run, split off. */
  lemma VlqSeqCons(vs: seq<int32>, t: seq<byte>)
    requires vs != []
    ensures VlqSeq(vs) + t == Vlq(vs[0]) + (VlqSeq(vs[1..]) + t)
    ensures |VlqSeq(vs)| == |Vlq(vs[0])| + |VlqSeq(vs[1..])|
    ensures [vs[0]] + vs[1..] == vs
  {
    assert VlqSeq(vs) == Vlq(vs[0]) + VlqSeq(vs[1..]);
    AppendAssoc(Vlq(vs[0]), VlqSeq(vs[1..]), t);
  }

  /** Three quantities written back to back, as the record writer puts them. */
  lemma VlqSeqThree(a: int32, b: int32, c: int32)
    ensures VlqSeq([a, b, c]) == Vlq(a) + Vlq(b) + Vlq(c)
  {
    assert [a, b, c][1..] == [b, c] && [b, c][1..] == [c] && [c][1..] == [];
    assert VlqSeq([c]) == Vlq(c) + [];
    assert VlqSeq([b, c]) == Vlq(b) + Vlq(c);
  }
}
