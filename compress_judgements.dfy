/** `CompressJudgements`: the scratch `ByteBuffer` the codec writes and
    reads through, the `putVLQ`/`getVLQ` loops on it, and the `compress` and
    `decompress` loops, each proved against the payload functions. */
module CompressJudgements {
  import opened Common
  import opened VlqCodec
  import opened JudgementPayload

  /** The part of `java.nio.ByteBuffer` the codec uses: a backing array and
      a position; the limit is the array's length. */
  class ByteBuffer {
    var buf: array<byte>
    var position: nat

    predicate Valid()
      reads this
    {
      position <= buf.Length
    }

    /** The bytes not yet read. */
    function Remaining(): (r: seq<byte>)
      reads this, buf
      requires Valid()
      ensures |r| == buf.Length - position
    {
      buf[position..]
    }

    /** The bytes written so far. */
    function Written(): (r: seq<byte>)
      reads this, buf
      requires Valid()
      ensures |r| == position
    {
      buf[..position]
    }

    /** `ByteBuffer.allocate(capacity)`: zero-filled, position 0. */
    constructor Allocate(capacity: nat)
      ensures Valid() && fresh(buf) && buf.Length == capacity && position == 0
    {
      buf := new byte[capacity](_ => 0);
      position := 0;
    }

    /** `ByteBuffer.wrap(data)`: reads `data` itself from its start. */
    constructor Wrap(data: array<byte>)
      ensures Valid() && buf == data && position == 0
    {
      buf := data;
      position := 0;
    }

    predicate HasRemaining()
      reads this
      requires Valid()
    {
      position < buf.Length
    }

    /** `put(b)`: stores at the position and advances it. The scratch buffer
        is allocated with room for any record, so overflow is excluded. */
    method Put(b: byte)
      requires Valid() && position < buf.Length
      modifies this, buf
      ensures Valid() && buf == old(buf) && position == old(position) + 1
      ensures Written() == old(Written()) + [b]
    {
      buf[position] := b;
      position := position + 1;
      assert buf[..position] == old(buf[..position]) + [b];
    }

    /** `get()`: the byte at the position, advancing past it, or an underflow
        with nothing consumed. */
    method Get() returns (r: Result<byte, PayloadError>)
      requires Valid()
      modifies this
      ensures Valid() && buf == old(buf)
      ensures r.Ok? <==> GetByte(old(Remaining())).Ok?
      ensures r.Ok? ==> r.value == GetByte(old(Remaining())).value.value
                        && Remaining() == GetByte(old(Remaining())).value.rest
      ensures r.Err? ==> r.error == BufferUnderflow && position == old(position)
    {
      if position == buf.Length {
        return Err(BufferUnderflow);
      }
      r := Ok(buf[position]);
      position := position + 1;
    }

    /** `putVLQ(value)`: the do-while loop emitting seven bits at a time of
        the unsigned pattern, 0x80 added while more bits remain. */
    method PutVlq(value: int32)
      requires Valid() && position + 5 <= buf.Length
      modifies this, buf
      ensures Valid() && buf == old(buf)
      ensures Written() == old(Written()) + Vlq(value)
    {
      var current := Unsigned32(value);
      var more := true;
      ghost var target := old(Written()) + Base128(current);
      assert Base128(current) == Vlq(value);
      while more
        invariant Valid() && buf == old(buf)
        invariant more ==> Written() + Base128(current) == target
        invariant more ==> position + |Base128(current)| <= buf.Length
        invariant !more ==> Written() == target
        decreases if more then current + 1 else 0
      {
        var temp := current % 128;
        ghost var before := current;
        current := current / 128;
        if current != 0 {
          temp := temp + 0x80;
        }
        Put(temp);
        more := current != 0;
        assert Base128(before) == [temp] + (if more then Base128(current) else []);
      }
    }

    /** `getVLQ()`: the do-while loop or-ing in seven bits at a time at a
        shift that grows by 7 with no cap; an exhausted buffer underflows. */
    method GetVlq() returns (r: Result<int32, PayloadError>)
      requires Valid()
      modifies this
      ensures Valid() && buf == old(buf)
      ensures r.Ok? <==> VlqCodec.GetVlq(old(Remaining())).Ok?
      ensures r.Ok? ==> r.value == VlqCodec.GetVlq(old(Remaining())).value.value
                        && Remaining() == VlqCodec.GetVlq(old(Remaining())).value.rest
      ensures r.Err? ==> r.error == BufferUnderflow
    {
      var result: nat := 0;
      var shift: nat := 0;
      var more := true;
      while more
        invariant Valid() && buf == old(buf)
        invariant more ==> GetVlqFrom(Remaining(), result, shift) == VlqCodec.GetVlq(old(Remaining()))
        invariant !more ==> VlqCodec.GetVlq(old(Remaining())) == Ok(Parsed(Wrap32(result), Remaining()))
        decreases if more then |Remaining()| + 1 else 0
      {
        ghost var s := Remaining();
        var b :- Get();
        result := Or(result, Shl32(b % 128, shift));
        shift := shift + 7;
        more := b >= 128;
      }
      return Ok(Wrap32(result));
    }
  }

  /** The bytes one pass of `compress` writes for `j`: a fresh 4096-byte
      buffer, the seven fields put in order, then its written prefix. */
  method CompressRecord(j: Judgement, lastTimestamp: int32) returns (bytes: seq<byte>)
    ensures bytes == EncodeRecord(j, lastTimestamp)
  {
    var buffer := new ByteBuffer.Allocate(4096);
    buffer.PutVlq(Wrap32(j.time - lastTimestamp));
    buffer.PutVlq(j.x);
    buffer.PutVlq(j.y);
    buffer.Put(Ordinal(j.hitType));
    buffer.PutVlq(j.distanceToCenter);
    buffer.PutVlq(j.distanceToEdge);
    buffer.PutVlq(j.error);
    bytes := buffer.Written();
    RecordBytes(j, lastTimestamp);
  }

  /** The written prefix, field by field, is the record's encoding. */
  lemma RecordBytes(j: Judgement, lastTimestamp: int32)
    ensures [] + Vlq(Wrap32(j.time - lastTimestamp)) + Vlq(j.x) + Vlq(j.y) + [Ordinal(j.hitType)]
            + Vlq(j.distanceToCenter) + Vlq(j.distanceToEdge) + Vlq(j.error)
            == EncodeRecord(j, lastTimestamp)
  {
    VlqSeqThree(Wrap32(j.time - lastTimestamp), j.x, j.y);
    VlqSeqThree(j.distanceToCenter, j.distanceToEdge, j.error);
  }

  /** `compress` before the compressor: the records appended to the stream
      one after another, each timed from the previous one (from 0 first). */
  method Compress(judgements: seq<Judgement>) returns (payload: seq<byte>)
    ensures payload == EncodePayload(judgements)
  {
    var stream: seq<byte> := [];
    var lastTimestamp: int32 := 0;
    var i := 0;
    while i < |judgements|
      invariant 0 <= i <= |judgements|
      invariant stream + EncodeFrom(judgements[i..], lastTimestamp) == EncodePayload(judgements)
    {
      var bytes := CompressRecord(judgements[i], lastTimestamp);
      assert judgements[i..] == [judgements[i]] + judgements[i + 1..];
      stream := stream + bytes;
      lastTimestamp := judgements[i].time;
      i := i + 1;
    }
    assert judgements[i..] == [];
    payload := stream;
  }

  /** Three reads in a row succeed exactly when `GetVlqs(s0, 3)` does. */
  lemma ThreeReads(s0: seq<byte>, s1: seq<byte>, s2: seq<byte>, s3: seq<byte>, a: int32, b: int32, c: int32)
    requires VlqCodec.GetVlq(s0) == Ok(Parsed(a, s1))
    requires VlqCodec.GetVlq(s1) == Ok(Parsed(b, s2))
    requires VlqCodec.GetVlq(s2) == Ok(Parsed(c, s3))
    ensures GetVlqs(s0, 3) == Ok(Parsed([a, b, c], s3))
  {
    assert GetVlqs(s3, 0) == Ok(Parsed([], s3));
    assert [c] + [] == [c] && [b] + [c] == [b, c] && [a] + [b, c] == [a, b, c];
    assert GetVlqs(s2, 1) == Ok(Parsed([c], s3));
    assert GetVlqs(s1, 2) == Ok(Parsed([b, c], s3));
  }

  /** A failed read among three fails `GetVlqs(s0, 3)`. */
  lemma ThreeReadsFail(s0: seq<byte>, s1: seq<byte>, s2: seq<byte>, a: int32, b: int32, k: nat)
    requires k < 3
    requires 0 < k ==> VlqCodec.GetVlq(s0) == Ok(Parsed(a, s1))
    requires 1 < k ==> VlqCodec.GetVlq(s1) == Ok(Parsed(b, s2))
    requires VlqCodec.GetVlq(if k == 0 then s0 else if k == 1 then s1 else s2).Err?
    ensures GetVlqs(s0, 3).Err?
  {
    if k == 2 {
      assert GetVlqs(s1, 2).Err?;
    }
  }

  /** Three `getVLQ()` calls in a row, as `decompress` makes them for the
      delta time, `x` and `y` and again for the two distances and the error. */
  method GetVlqThree(buffer: ByteBuffer) returns (r: Result<seq<int32>, PayloadError>)
    requires buffer.Valid()
    modifies buffer
    ensures buffer.Valid() && buffer.buf == old(buffer.buf)
    ensures r.Ok? <==> GetVlqs(old(buffer.Remaining()), 3).Ok?
    ensures r.Ok? ==> r.value == GetVlqs(old(buffer.Remaining()), 3).value.value
                      && buffer.Remaining() == GetVlqs(old(buffer.Remaining()), 3).value.rest
    ensures r.Err? ==> r.error == BufferUnderflow
  {
    ghost var s0 := buffer.Remaining();
    var a := buffer.GetVlq();
    if a.Err? {
      ThreeReadsFail(s0, [], [], 0, 0, 0);
      return Err(BufferUnderflow);
    }
    ghost var s1 := buffer.Remaining();
    var b := buffer.GetVlq();
    if b.Err? {
      ThreeReadsFail(s0, s1, [], a.value, 0, 1);
      return Err(BufferUnderflow);
    }
    ghost var s2 := buffer.Remaining();
    var c := buffer.GetVlq();
    if c.Err? {
      ThreeReadsFail(s0, s1, s2, a.value, b.value, 2);
      return Err(BufferUnderflow);
    }
    ThreeReads(s0, s1, s2, buffer.Remaining(), a.value, b.value, c.value);
    return Ok([a.value, b.value, c.value]);
  }

  /** `DecodeRecord` in terms of the reads the loop body makes. */
  lemma RecordFromReads(s0: seq<byte>, lastTime: int32, head: seq<int32>, s3: seq<byte>, b: byte, t0: seq<byte>,
                        tail: seq<int32>, rest: seq<byte>)
    requires GetVlqs(s0, 3) == Ok(Parsed(head, s3))
    requires GetByte(s3) == Ok(Parsed(b, t0))
    requires EntryAt(Signed8(b)).Some?
    requires GetVlqs(t0, 3) == Ok(Parsed(tail, rest))
    ensures DecodeRecord(s0, lastTime)
            == Ok(Parsed(Judgement(Wrap32(lastTime + head[0]), head[1], head[2], EntryAt(Signed8(b)).value,
                                   tail[0], tail[1], tail[2]), rest))
  {
    assert head == [head[0], head[1], head[2]];
    assert tail == [tail[0], tail[1], tail[2]];
    DecodeRecordReads(s0, lastTime, head[0], head[1], head[2], s3, b, t0, tail[0], tail[1], tail[2], rest);
  }

  /** One pass of the `decompress` loop: the delta time, `x`, `y`, the type
      byte and, for a type byte naming an entry, the two distances and the
      error, the time advanced with 32-bit wrap-around. */
  method ReadJudgement(buffer: ByteBuffer, lastTime: int32) returns (r: Result<Judgement, PayloadError>)
    requires buffer.Valid()
    modifies buffer
    ensures buffer.Valid() && buffer.buf == old(buffer.buf)
    ensures r.Ok? <==> DecodeRecord(old(buffer.Remaining()), lastTime).Ok?
    ensures r.Ok? ==> r.value == DecodeRecord(old(buffer.Remaining()), lastTime).value.value
                      && buffer.Remaining() == DecodeRecord(old(buffer.Remaining()), lastTime).value.rest
    ensures r.Err? ==> r.error == DecodeRecord(old(buffer.Remaining()), lastTime).error
  {
    ghost var s0 := buffer.Remaining();
    var head := GetVlqThree(buffer);
    if head.Err? {
      HeadFails(s0, lastTime);
      return Err(BufferUnderflow);
    }
    var time := Wrap32(lastTime + head.value[0]);
    ghost var s3 := buffer.Remaining();
    var typeByte := buffer.Get();
    if typeByte.Err? {
      TypeByteMissing(s0, lastTime, head.value, s3);
      return Err(BufferUnderflow);
    }
    var ordinal := Signed8(typeByte.value);
    if EntryAt(ordinal).None? {
      return Err(UnknownType(ordinal));
    }
    ghost var t0 := buffer.Remaining();
    var tail := GetVlqThree(buffer);
    if tail.Err? {
      TailFails(s0, lastTime, head.value, s3, typeByte.value, t0);
      return Err(BufferUnderflow);
    }
    RecordFromReads(s0, lastTime, head.value, s3, typeByte.value, t0, tail.value, buffer.Remaining());
    r := Ok(Judgement(time, head.value[1], head.value[2], EntryAt(ordinal).value,
                      tail.value[0], tail.value[1], tail.value[2]));
  }

  /** `decompress` after the decompressor: `data` is what it returned, null
      giving the empty list; otherwise the records are read while bytes
      remain, and the first failed read ends it with its exception. */
  method Decompress(data: array?<byte>) returns (r: Result<seq<Judgement>, PayloadError>)
    ensures data == null ==> r == Ok([])
    ensures data != null ==> r == DecodePayload(data[..])
  {
    if data == null {
      return Ok([]);
    }
    var buffer := new ByteBuffer.Wrap(data);
    var judgements: seq<Judgement> := [];
    var lastTime: int32 := 0;
    while buffer.HasRemaining()
      invariant buffer.Valid() && buffer.buf == data
      invariant DecodeFrom(buffer.Remaining(), lastTime, judgements) == DecodePayload(data[..])
      decreases |buffer.Remaining()|
    {
      ghost var s := buffer.Remaining();
      var j := ReadJudgement(buffer, lastTime);
      if j.Err? {
        DecodeFromFails(s, lastTime, judgements);
        return Err(j.error);
      }
      DecodeFromStep(s, lastTime, judgements, j.value, buffer.Remaining());
      judgements := judgements + [j.value];
      lastTime := j.value.time;
    }
    assert buffer.Remaining() == [];
    return Ok(judgements);
  }
}
