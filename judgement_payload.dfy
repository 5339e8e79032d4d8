/** The judgement payload: the byte stream `CompressJudgements.compress`
    hands to its compressor and `decompress` parses back. Records are taken
    after fixed-point scaling, so every number in them is a 32-bit `Int`. */
module JudgementPayload {
  import opened Common
  import opened VlqCodec

  /** `Judgement.Type`, in declaration order (its `ordinal`). */
  datatype HitType = ThreeHundred | OneHundred | Fifty | Miss

  function Ordinal(t: HitType): (k: byte)
    ensures k < 4
  {
    match t
    case ThreeHundred => 0
    case OneHundred => 1
    case Fifty => 2
    case Miss => 3
  }

  /** `Judgement.Type.entries[k]`: absent (an index-out-of-bounds exception
      in the source) unless `0 <= k < 4`. */
  function EntryAt(k: int): (t: Option<HitType>)
    ensures t.Some? <==> 0 <= k < 4
    ensures t.Some? ==> Ordinal(t.value) == k
  {
    if k == 0 then Some(ThreeHundred)
    else if k == 1 then Some(OneHundred)
    else if k == 2 then Some(Fifty)
    else if k == 3 then Some(Miss)
    else None
  }

  /** Reading back a written type byte recovers the type. */
  lemma EntryAtOrdinal(t: HitType)
    ensures EntryAt(Signed8(Ordinal(t))) == Some(t)
  {
  }

  /** A judgement as the payload stores it: `time`, then `x`, `y`,
      `distanceToCenter` and `distanceToEdge` already scaled by 100 and made
      integral, and `error` already truncated to an `Int`. */
  datatype Judgement = Judgement(
    time: int32,
    x: int32,
    y: int32,
    hitType: HitType,
    distanceToCenter: int32,
    distanceToEdge: int32,
    error: int32)

  /** The bytes one pass of the `compress` loop writes for `j`: the time as
      the wrapped difference from the previous record's time, `x` and `y`,
      the type as one raw byte, then the two distances and the error. */
  function EncodeRecord(j: Judgement, lastTimestamp: int32): seq<byte>
  {
    VlqSeq([Wrap32(j.time - lastTimestamp), j.x, j.y]) + [Ordinal(j.hitType)]
      + VlqSeq([j.distanceToCenter, j.distanceToEdge, j.error])
  }

  /** The rest of the payload once the loop has reached `js`. */
  function EncodeFrom(js: seq<Judgement>, lastTimestamp: int32): seq<byte>
  {
    if js == [] then [] else EncodeRecord(js[0], lastTimestamp) + EncodeFrom(js[1..], js[0].time)
  }

  /** The payload of `compress(judgements)`, before it is handed to the
      compressor; the time base starts at 0. */
  function EncodePayload(judgements: seq<Judgement>): seq<byte>
  {
    EncodeFrom(judgements, 0)
  }

  /** One iteration of the `decompress` loop on the unread bytes `s`: the
      fields in the order the `Judgement(...)` call reads them, the running
      time advanced by the wrapped delta. Any failed read ends the record;
      a type byte naming no entry stops it before its distances are read. */
  function DecodeRecord(s: seq<byte>, lastTime: int32): (r: Result<Reading<Judgement>, PayloadError>)
    ensures r.Ok? ==> |r.value.rest| < |s|
  {
    var head :- GetVlqs(s, 3);
    var tb :- GetByte(head.rest);
    var ordinal := Signed8(tb.value);
    if EntryAt(ordinal).None? then Err(UnknownType(ordinal))
    else
      var tail :- GetVlqs(tb.rest, 3);
      var time := Wrap32(lastTime + head.value[0]);
      Ok(Parsed(Judgement(time, head.value[1], head.value[2], EntryAt(ordinal).value,
                          tail.value[0], tail.value[1], tail.value[2]), tail.rest))
  }

  /** The `while (buffer.hasRemaining())` loop on the unread bytes `s`, with
      the running time and the records read so far; the first failed read
      ends `decompress` with its exception. */
  function DecodeFrom(s: seq<byte>, lastTime: int32, acc: seq<Judgement>): Result<seq<Judgement>, PayloadError>
    decreases |s|
  {
    if s == [] then Ok(acc)
    else
      match DecodeRecord(s, lastTime)
      case Err(e) => Err(e)
      case Ok(Parsed(j, rest)) => DecodeFrom(rest, j.time, acc + [j])
  }

  /** `decompress` on a decompressed payload `s`. */
  function DecodePayload(s: seq<byte>): Result<seq<Judgement>, PayloadError>
  {
    DecodeFrom(s, 0, [])
  }

  /** Adding back a wrapped difference restores the time exactly, whatever
      its sign: times survive even when the input is not monotonic. */
  lemma DeltaTimeRestores(lastTime: int32, time: int32)
    ensures Wrap32(lastTime + Wrap32(time - lastTime)) == time
  {
    var d := Wrap32(time - lastTime);
    assert (d - (time - lastTime)) % TWO32 == 0;
    assert lastTime + d == time + (d - (time - lastTime));
  }

  /** What `DecodeRecord` yields once its reads are known: three quantities,
      a type byte naming an entry, three more quantities. */
  lemma DecodeRecordReads(s: seq<byte>, lastTime: int32, dt: int32, x: int32, y: int32, s3: seq<byte>, b: byte,
                          t: seq<byte>, c: int32, e: int32, err: int32, rest: seq<byte>)
    requires GetVlqs(s, 3) == Ok(Parsed([dt, x, y], s3))
    requires GetByte(s3) == Ok(Parsed(b, t))
    requires EntryAt(Signed8(b)).Some?
    requires GetVlqs(t, 3) == Ok(Parsed([c, e, err], rest))
    ensures DecodeRecord(s, lastTime)
            == Ok(Parsed(Judgement(Wrap32(lastTime + dt), x, y, EntryAt(Signed8(b)).value, c, e, err), rest))
  {
    var head := [dt, x, y];
    assert head[0] == dt && head[1] == x && head[2] == y;
  }

  /** The fields as `decompress` rebuilds them from what `compress` wrote
      make up the original judgement. */
  lemma JudgementRestored(j: Judgement, lastTime: int32)
    ensures Judgement(Wrap32(lastTime + Wrap32(j.time - lastTime)), j.x, j.y,
                      EntryAt(Signed8(Ordinal(j.hitType))).value,
                      j.distanceToCenter, j.distanceToEdge, j.error) == j
  {
    DeltaTimeRestores(lastTime, j.time);
    EntryAtOrdinal(j.hitType);
  }

  /** A record followed by more bytes, split where `decompress` reads the
      type byte. */
  lemma EncodeRecordSplit(j: Judgement, lastTime: int32, rest: seq<byte>)
    ensures EncodeRecord(j, lastTime) + rest
            == VlqSeq([Wrap32(j.time - lastTime), j.x, j.y])
               + ([Ordinal(j.hitType)] + (VlqSeq([j.distanceToCenter, j.distanceToEdge, j.error]) + rest))
  {
  }

  /** `decompress` reading the three leading quantities, a known type byte
      and the three trailing quantities of one record. */
  lemma DecodeRecordParts(lastTime: int32, dt: int32, x: int32, y: int32, b: byte,
                          c: int32, e: int32, err: int32, rest: seq<byte>)
    requires EntryAt(Signed8(b)).Some?
    ensures DecodeRecord(VlqSeq([dt, x, y]) + ([b] + (VlqSeq([c, e, err]) + rest)), lastTime)
            == Ok(Parsed(Judgement(Wrap32(lastTime + dt), x, y, EntryAt(Signed8(b)).value, c, e, err), rest))
  {
    var t := VlqSeq([c, e, err]) + rest;
    VlqSeqRoundTrip([dt, x, y], [b] + t);
    VlqSeqRoundTrip([c, e, err], rest);
    assert ([b] + t)[0] == b && ([b] + t)[1..] == t;
    DecodeRecordReads(VlqSeq([dt, x, y]) + ([b] + t), lastTime, dt, x, y, [b] + t, b, t, c, e, err, rest);
  }

  /** `decompress` reading a record that `compress` wrote gets it back, with
      the time rebuilt from the same previous time, and stops right after it. */
  lemma DecodeRecordRoundTrip(j: Judgement, lastTime: int32, rest: seq<byte>)
    ensures DecodeRecord(EncodeRecord(j, lastTime) + rest, lastTime) == Ok(Parsed(j, rest))
  {
    EntryAtOrdinal(j.hitType);
    DecodeRecordParts(lastTime, Wrap32(j.time - lastTime), j.x, j.y, Ordinal(j.hitType),
                      j.distanceToCenter, j.distanceToEdge, j.error, rest);
    JudgementRestored(j, lastTime);
    EncodeRecordSplit(j, lastTime, rest);
  }

  /** One pass of the loop: a record read from a non-empty buffer is
      appended and becomes the time base. */
  lemma DecodeFromStep(s: seq<byte>, lastTime: int32, acc: seq<Judgement>, j: Judgement, rest: seq<byte>)
    requires DecodeRecord(s, lastTime) == Ok(Parsed(j, rest))
    ensures DecodeFrom(s, lastTime, acc) == DecodeFrom(rest, j.time, acc + [j])
  {
  }

  /** The time base after the records `js`, starting from `lastTime`. */
  function LastTime(js: seq<Judgement>, lastTime: int32): int32
  {
    if js == [] then lastTime else js[|js| - 1].time
  }

  /** The encoding of a non-empty list is its first record's followed by
      the rest's, timed from that first record. */
  lemma EncodeFromCons(js: seq<Judgement>, lastTime: int32, rest: seq<byte>)
    requires js != []
    ensures EncodeFrom(js, lastTime) + rest == EncodeRecord(js[0], lastTime) + (EncodeFrom(js[1..], js[0].time) + rest)
  {
  }

  lemma ConsFacts(js: seq<Judgement>, lastTime: int32, acc: seq<Judgement>)
    requires js != []
    ensures acc + [js[0]] + js[1..] == acc + js
    ensures LastTime(js[1..], js[0].time) == LastTime(js, lastTime)
  {
  }

  /** On the encoding of `js` followed by anything, the loop reads exactly
      `js` and carries on with what follows, the last record's time as base. */
  lemma {:induction false} DecodeFromEncoded(js: seq<Judgement>, lastTime: int32, rest: seq<byte>, acc: seq<Judgement>)
    ensures DecodeFrom(EncodeFrom(js, lastTime) + rest, lastTime, acc)
            == DecodeFrom(rest, LastTime(js, lastTime), acc + js)
    decreases |js|
  {
    if js == [] {
      assert EncodeFrom(js, lastTime) + rest == rest;
      assert acc + js == acc;
    } else {
      var j, tl := js[0], js[1..];
      var more := EncodeFrom(tl, j.time) + rest;
      EncodeFromCons(js, lastTime, rest);
      DecodeRecordRoundTrip(j, lastTime, more);
      DecodeFromStep(EncodeRecord(j, lastTime) + more, lastTime, acc, j, more);
      DecodeFromEncoded(tl, j.time, rest, acc + [j]);
      ConsFacts(js, lastTime, acc);
    }
  }

  /** Headline round trip: decoding the payload of a list of (scaled)
      judgements gives back the same judgements, in the same order and
      number; times come back exact even when they go backwards. */
  lemma PayloadRoundTrip(judgements: seq<Judgement>)
    ensures DecodePayload(EncodePayload(judgements)) == Ok(judgements)
  {
    DecodeFromEncoded(judgements, 0, [], []);
    assert EncodePayload(judgements) + [] == EncodePayload(judgements);
    assert [] + judgements == judgements;
  }

  /** A type byte that names no entry after three well-formed quantities
      stops decoding with that (signed) ordinal, after any number of good
      records. */
  lemma UnknownTypeFails(js: seq<Judgement>, dt: int32, x: int32, y: int32, typeByte: byte, rest: seq<byte>)
    requires typeByte >= 4
    ensures DecodePayload(EncodePayload(js) + VlqSeq([dt, x, y]) + [typeByte] + rest)
            == Err(UnknownType(Signed8(typeByte)))
  {
    var t0 := VlqSeq([dt, x, y]) + ([typeByte] + rest);
    assert EncodePayload(js) + VlqSeq([dt, x, y]) + [typeByte] + rest == EncodePayload(js) + t0;
    DecodeFromEncoded(js, 0, t0, []);
    VlqSeqRoundTrip([dt, x, y], [typeByte] + rest);
    assert DecodeRecord(t0, LastTime(js, 0)) == Err(UnknownType(Signed8(typeByte)));
  }

  /** A record takes 7 to 31 bytes: six quantities of one to five bytes and
      the type byte, so the 4096-byte scratch buffer always has room. */
  lemma RecordLength(j: Judgement, lastTimestamp: int32)
    ensures 7 <= |EncodeRecord(j, lastTimestamp)| <= 31
  {
    VlqSeqLength([Wrap32(j.time - lastTimestamp), j.x, j.y]);
    VlqSeqLength([j.distanceToCenter, j.distanceToEdge, j.error]);
  }

  /** No judgements give an empty payload, and an empty payload gives no
      judgements: the write loop and the read loop never run. */
  lemma EmptyPayload()
    ensures EncodePayload([]) == []
    ensures DecodePayload([]) == Ok([])
  {
  }

  /** A record whose first three quantities cannot be read fails as they do. */
  lemma HeadFails(s: seq<byte>, lastTime: int32)
    requires GetVlqs(s, 3).Err?
    ensures DecodeRecord(s, lastTime) == Err(BufferUnderflow)
  {
  }

  /** A record that ends before its type byte underflows. */
  lemma TypeByteMissing(s: seq<byte>, lastTime: int32, head: seq<int32>, s3: seq<byte>)
    requires GetVlqs(s, 3) == Ok(Parsed(head, s3)) && GetByte(s3).Err?
    ensures DecodeRecord(s, lastTime) == Err(BufferUnderflow)
  {
  }

  /** A record with a valid type byte whose last three quantities cannot be
      read fails as they do. */
  lemma TailFails(s: seq<byte>, lastTime: int32, head: seq<int32>, s3: seq<byte>, b: byte, t: seq<byte>)
    requires GetVlqs(s, 3) == Ok(Parsed(head, s3)) && GetByte(s3) == Ok(Parsed(b, t))
    requires EntryAt(Signed8(b)).Some? && GetVlqs(t, 3).Err?
    ensures DecodeRecord(s, lastTime) == Err(BufferUnderflow)
  {
  }

  /** A record cut short anywhere underflows instead of yielding a judgement. */
  lemma DecodeRecordOfPrefix(j: Judgement, lastTime: int32, k: nat)
    requires 0 < k < |EncodeRecord(j, lastTime)|
    ensures DecodeRecord(EncodeRecord(j, lastTime)[..k], lastTime) == Err(BufferUnderflow)
  {
    var head := [Wrap32(j.time - lastTime), j.x, j.y];
    var tail := [j.distanceToCenter, j.distanceToEdge, j.error];
    var b := Ordinal(j.hitType);
    var t := VlqSeq(tail) + [];
    EncodeRecordSplit(j, lastTime, []);
    assert EncodeRecord(j, lastTime) + [] == EncodeRecord(j, lastTime);
    var s := EncodeRecord(j, lastTime)[..k];
    VlqSeqOfPrefix(head, [b] + t, k);
    if k < |VlqSeq(head)| {
      HeadFails(s, lastTime);
    } else if k == |VlqSeq(head)| {
      TypeByteMissing(s, lastTime, head, []);
    } else {
      var k' := k - |VlqSeq(head)| - 1;
      var s3 := ([b] + t)[..k - |VlqSeq(head)|];
      assert s3[0] == b && s3[1..] == t[..k'];
      VlqSeqOfPrefix(tail, [], k');
      EntryAtOrdinal(j.hitType);
      TailFails(s, lastTime, head, s3, b, t[..k']);
    }
  }

  /** A failed record ends the loop with its error. */
  lemma DecodeFromFails(s: seq<byte>, lastTime: int32, acc: seq<Judgement>)
    requires s != [] && DecodeRecord(s, lastTime).Err?
    ensures DecodeFrom(s, lastTime, acc) == Err(DecodeRecord(s, lastTime).error)
  {
  }

  /** A trailing partial record, after any number of good ones, makes
      decoding fail with an underflow rather than emit a record. */
  lemma TruncatedPayload(js: seq<Judgement>, j: Judgement, k: nat)
    requires 0 < k < |EncodeRecord(j, LastTime(js, 0))|
    ensures DecodePayload(EncodePayload(js) + EncodeRecord(j, LastTime(js, 0))[..k]) == Err(BufferUnderflow)
  {
    var p := EncodeRecord(j, LastTime(js, 0))[..k];
    DecodeFromEncoded(js, 0, p, []);
    DecodeRecordOfPrefix(j, LastTime(js, 0), k);
    DecodeFromFails(p, LastTime(js, 0), [] + js);
  }
}
