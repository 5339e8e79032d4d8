/** What `OsuReplay.decode` computes, as functions on the bytes of a replay
    file: the fields it assigns, in the order it assigns them, each read by
    one of the primitive readers; a failed read ends decoding and leaves the
    replay as far as it got. */
module ReplayFormat {
  import opened Common
  import opened ReplayReaders

  /** The largest replay file `OsuReplay` accepts (its `EXPECTED_FILE_SIZE`). */
  const MAX_FILE_SIZE: int := 4194304

  /** The `modsUsed` bit that announces the trailing `additionalModInfo`. */
  const MOD_INFO_BIT: int := 0x100_0000

  /** The fields of an `OsuReplay`. Strings are kept as their bytes, the
      replay blob as the normaliser's text, and `additionalModInfo` as the
      bit pattern of the double. */
  datatype Replay = Replay(
    gameMode: int32,
    gameVersion: int32,
    beatmapHash: Option<seq<byte>>,
    playerName: Option<seq<byte>>,
    replayHash: Option<seq<byte>>,
    numberOf300s: int16,
    numberOf100s: int16,
    numberOf50s: int16,
    numberOfGekis: int16,
    numberOfKatus: int16,
    numberOfMisses: int16,
    totalScore: int32,
    greatestCombo: int16,
    perfectCombo: bool,
    modsUsed: int32,
    lifeBarGraph: Option<seq<byte>>,
    timestamp: int64,
    replayLength: int32,
    replayData: Option<string>,
    onlineScoreID: Option<int64>,
    additionalModInfo: nat)

  /** The initial values of the fields (`0.0` has the all-zero pattern). */
  const Default: Replay :=
    Replay(0, 0, None, None, None, 0, 0, 0, 0, 0, 0, 0, 0, false, 0, None, 0, 0, None, None, 0)

  /** A field, by its position in the order `decode` assigns them. */
  newtype Field = i: int | 0 <= i < 21

  const GameMode: Field := 0
  const GameVersion: Field := 1
  const BeatmapHash: Field := 2
  const PlayerName: Field := 3
  const ReplayHash: Field := 4
  const NumberOf300s: Field := 5
  const NumberOf100s: Field := 6
  const NumberOf50s: Field := 7
  const NumberOfGekis: Field := 8
  const NumberOfKatus: Field := 9
  const NumberOfMisses: Field := 10
  const TotalScore: Field := 11
  const GreatestCombo: Field := 12
  const PerfectCombo: Field := 13
  const ModsUsed: Field := 14
  const LifeBarGraph: Field := 15
  const Timestamp: Field := 16
  const ReplayLength: Field := 17
  const ReplayData: Field := 18
  const OnlineScoreID: Field := 19
  const AdditionalModInfo: Field := 20

  /** `(modsUsed and (1 shl 24)) != 0`. */
  predicate HasModInfo(mods: int32)
  {
    (Unsigned32(mods) / MOD_INFO_BIT) % 2 == 1
  }

  /** The field read after `f`, if any: `decode` ends after `onlineScoreID`
      unless `modsUsed` (already read into `r`) announces the double. */
  function Next(f: Field, r: Replay): (g: Option<Field>)
    ensures g.Some? ==> g.value as int == f as int + 1
    ensures g.None? <==> f == AdditionalModInfo || (f == OnlineScoreID && !HasModInfo(r.modsUsed))
  {
    if f < OnlineScoreID then Some(f + 1)
    else if f == OnlineScoreID && HasModInfo(r.modsUsed) then Some(AdditionalModInfo)
    else None
  }

  /** The fields `decode` reads with `readByte`, `readIntLittleEndian`,
      `readCompressedReplayData()`, `readShortLittleEndian` and
      `readLongLittleEndian`; the replay data and the trailing double have
      readers of their own. */
  predicate ByteField(f: Field) { f == GameMode || f == PerfectCombo }
  predicate IntField(f: Field) { f == GameVersion || f == TotalScore || f == ModsUsed || f == ReplayLength }
  predicate StringField(f: Field) { f == BeatmapHash || f == PlayerName || f == ReplayHash || f == LifeBarGraph }
  predicate ShortField(f: Field) { NumberOf300s <= f <= GreatestCombo && f != TotalScore }
  predicate LongField(f: Field) { f == Timestamp || f == OnlineScoreID }

  /** The assignments of `decode`, by the reader that produced the value. */
  function WithByte(f: Field, r: Replay, v: int8): Replay
    requires ByteField(f)
  {
    if f == GameMode then r.(gameMode := v) else r.(perfectCombo := v != 0)
  }

  function WithInt(f: Field, r: Replay, v: int32): Replay
    requires IntField(f)
  {
    if f == GameVersion then r.(gameVersion := v)
    else if f == TotalScore then r.(totalScore := v)
    else if f == ModsUsed then r.(modsUsed := v)
    else r.(replayLength := v)
  }

  function WithString(f: Field, r: Replay, v: Option<seq<byte>>): Replay
    requires StringField(f)
  {
    if f == BeatmapHash then r.(beatmapHash := v)
    else if f == PlayerName then r.(playerName := v)
    else if f == ReplayHash then r.(replayHash := v)
    else r.(lifeBarGraph := v)
  }

  function WithShort(f: Field, r: Replay, v: int16): Replay
    requires ShortField(f)
  {
    if f == NumberOf300s then r.(numberOf300s := v)
    else if f == NumberOf100s then r.(numberOf100s := v)
    else if f == NumberOf50s then r.(numberOf50s := v)
    else if f == NumberOfGekis then r.(numberOfGekis := v)
    else if f == NumberOfKatus then r.(numberOfKatus := v)
    else if f == NumberOfMisses then r.(numberOfMisses := v)
    else r.(greatestCombo := v)
  }

  function WithLong(f: Field, r: Replay, v: int64): Replay
    requires LongField(f)
  {
    if f == Timestamp then r.(timestamp := v) else r.(onlineScoreID := Some(v))
  }

  /** One line of `decode`: read field `f` from `s` with its reader and
      store it in `r`. */
  function Step(f: Field, s: seq<byte>, r: Replay, normalise: seq<byte> -> Option<string>)
    : Result<Parsed<Replay, seq<byte>>, DecodeError>
  {
    if ByteField(f) then
      var p :- ReadByte(s); Ok(Parsed(WithByte(f, r, p.value), p.rest))
    else if IntField(f) then
      var p :- ReadInt(s); Ok(Parsed(WithInt(f, r, p.value), p.rest))
    else if StringField(f) then
      var p :- ReadOptString(s); Ok(Parsed(WithString(f, r, p.value), p.rest))
    else if ShortField(f) then
      var p :- ReadShort(s); Ok(Parsed(WithShort(f, r, p.value), p.rest))
    else if LongField(f) then
      var p :- ReadLong(s); Ok(Parsed(WithLong(f, r, p.value), p.rest))
    else if f == ReplayData then
      var p :- ReadBlob(s, r.replayLength, normalise); Ok(Parsed(r.(replayData := Some(p.value)), p.rest))
    else
      var p :- ReadDoubleBits(s); Ok(Parsed(r.(additionalModInfo := p.value), p.rest))
  }

  /** The exception `decode` caught: the field whose read threw, and why. */
  datatype Failure = Failure(field: Field, error: DecodeError)

  /** What `decode` leaves behind: the fields, and the failure if a read
      threw. */
  datatype Outcome = Outcome(replay: Replay, failure: Option<Failure>)

  /** `decode` from field `f` on. */
  function Run(f: Field, s: seq<byte>, r: Replay, normalise: seq<byte> -> Option<string>): Outcome
    decreases 21 - f as int
  {
    match Step(f, s, r, normalise)
    case Err(e) => Outcome(r, Some(Failure(f, e)))
    case Ok(p) =>
      match Next(f, p.value)
      case None => Outcome(p.value, None)
      case Some(g) => Run(g, p.rest, p.value, normalise)
  }

  /** `o` is what decoding from field `f` on yields. (Stated through a
      quantifier over the field so that the verifier unfolds `Run` only
      where it is asked to.) */
  ghost predicate Yields(o: Outcome, f: Field, s: seq<byte>, r: Replay, normalise: seq<byte> -> Option<string>)
  {
    forall g: Field :: g == f ==> Run(g, s, r, normalise) == o
  }

  /** After field `f` has been read into `r'`, `o` is what the rest of the
      decoding yields. */
  ghost predicate Continues(o: Outcome, f: Field, s': seq<byte>, r': Replay, normalise: seq<byte> -> Option<string>)
  {
    match Next(f, r')
    case None => o == Outcome(r', None)
    case Some(g) => Yields(o, g, s', r', normalise)
  }

  lemma YieldsRun(f: Field, s: seq<byte>, r: Replay, normalise: seq<byte> -> Option<string>)
    ensures Yields(Run(f, s, r, normalise), f, s, r, normalise)
  {
  }

  /** A line of `decode` whose read throws ends the decoding with that
      failure; one whose read succeeds leaves the rest to the next line. */
  lemma ByteLine(o: Outcome, f: Field, s: seq<byte>, r: Replay, normalise: seq<byte> -> Option<string>,
                 x: Result<int8, DecodeError>, rest: seq<byte>)
    requires ByteField(f) && Yields(o, f, s, r, normalise) && ReadsByte(x, s, rest)
    ensures x.Err? ==> o == Outcome(r, Some(Failure(f, x.error)))
    ensures x.Ok? ==> Continues(o, f, rest, WithByte(f, r, x.value), normalise)
  {
    assert Run(f, s, r, normalise) == o;
  }

  lemma IntLine(o: Outcome, f: Field, s: seq<byte>, r: Replay, normalise: seq<byte> -> Option<string>,
                x: Result<int32, DecodeError>, rest: seq<byte>)
    requires IntField(f) && Yields(o, f, s, r, normalise) && ReadsInt(x, s, rest)
    ensures x.Err? ==> o == Outcome(r, Some(Failure(f, x.error)))
    ensures x.Ok? ==> Continues(o, f, rest, WithInt(f, r, x.value), normalise)
  {
    assert Run(f, s, r, normalise) == o;
  }

  lemma StringLine(o: Outcome, f: Field, s: seq<byte>, r: Replay, normalise: seq<byte> -> Option<string>,
                   x: Result<Option<seq<byte>>, DecodeError>, rest: seq<byte>)
    requires StringField(f) && Yields(o, f, s, r, normalise) && ReadsOptString(x, s, rest)
    ensures x.Err? ==> o == Outcome(r, Some(Failure(f, x.error)))
    ensures x.Ok? ==> Continues(o, f, rest, WithString(f, r, x.value), normalise)
  {
    assert Run(f, s, r, normalise) == o;
  }

  lemma ShortLine(o: Outcome, f: Field, s: seq<byte>, r: Replay, normalise: seq<byte> -> Option<string>,
                  x: Result<int16, DecodeError>, rest: seq<byte>)
    requires ShortField(f) && Yields(o, f, s, r, normalise) && ReadsShort(x, s, rest)
    ensures x.Err? ==> o == Outcome(r, Some(Failure(f, x.error)))
    ensures x.Ok? ==> Continues(o, f, rest, WithShort(f, r, x.value), normalise)
  {
    assert Run(f, s, r, normalise) == o;
  }

  lemma LongLine(o: Outcome, f: Field, s: seq<byte>, r: Replay, normalise: seq<byte> -> Option<string>,
                 x: Result<int64, DecodeError>, rest: seq<byte>)
    requires LongField(f) && Yields(o, f, s, r, normalise) && ReadsLong(x, s, rest)
    ensures x.Err? ==> o == Outcome(r, Some(Failure(f, x.error)))
    ensures x.Ok? ==> Continues(o, f, rest, WithLong(f, r, x.value), normalise)
  {
    assert Run(f, s, r, normalise) == o;
  }

  lemma BlobLine(o: Outcome, s: seq<byte>, r: Replay, normalise: seq<byte> -> Option<string>,
                 x: Result<string, DecodeError>, rest: seq<byte>)
    requires Yields(o, ReplayData, s, r, normalise) && ReadsBlob(x, s, r.replayLength, normalise, rest)
    ensures x.Err? ==> o == Outcome(r, Some(Failure(ReplayData, x.error)))
    ensures x.Ok? ==> Yields(o, OnlineScoreID, rest, r.(replayData := Some(x.value)), normalise)
  {
    assert Run(ReplayData, s, r, normalise) == o;
  }

  lemma DoubleLine(o: Outcome, s: seq<byte>, r: Replay, normalise: seq<byte> -> Option<string>,
                   x: Result<nat, DecodeError>, rest: seq<byte>)
    requires Yields(o, AdditionalModInfo, s, r, normalise) && ReadsDouble(x, s, rest)
    ensures x.Err? ==> o == Outcome(r, Some(Failure(AdditionalModInfo, x.error)))
    ensures x.Ok? ==> o == Outcome(r.(additionalModInfo := x.value), None)
  {
    assert Run(AdditionalModInfo, s, r, normalise) == o;
  }

  /** `decode()` on a whole file. */
  function Decode(content: seq<byte>, normalise: seq<byte> -> Option<string>): Outcome
  {
    Run(GameMode, content, Default, normalise)
  }

  /** Why `OsuReplay` refused a file before decoding it. */
  datatype OpenError = FileSizeOutOfBounds

  /** `OsuReplay(fileContent)`: the size check of `init`, then `decode()`. */
  function ParseReplay(content: seq<byte>, normalise: seq<byte> -> Option<string>)
    : (r: Result<Outcome, OpenError>)
    ensures r.Err? <==> |content| > MAX_FILE_SIZE
    ensures r.Ok? ==> r.value == Decode(content, normalise)
  {
    if |content| > MAX_FILE_SIZE then Err(FileSizeOutOfBounds) else Ok(Decode(content, normalise))
  }

  /** The fields of `r` before position `k`, and the initial values from `k`
      on. */
  function Partial(r: Replay, k: int): Replay
  {
    Replay(
      if 0 < k then r.gameMode else 0,
      if 1 < k then r.gameVersion else 0,
      if 2 < k then r.beatmapHash else None,
      if 3 < k then r.playerName else None,
      if 4 < k then r.replayHash else None,
      if 5 < k then r.numberOf300s else 0,
      if 6 < k then r.numberOf100s else 0,
      if 7 < k then r.numberOf50s else 0,
      if 8 < k then r.numberOfGekis else 0,
      if 9 < k then r.numberOfKatus else 0,
      if 10 < k then r.numberOfMisses else 0,
      if 11 < k then r.totalScore else 0,
      if 12 < k then r.greatestCombo else 0,
      if 13 < k then r.perfectCombo else false,
      if 14 < k then r.modsUsed else 0,
      if 15 < k then r.lifeBarGraph else None,
      if 16 < k then r.timestamp else 0,
      if 17 < k then r.replayLength else 0,
      if 18 < k then r.replayData else None,
      if 19 < k then r.onlineScoreID else None,
      if 20 < k then r.additionalModInfo else 0)
  }

  /** Cutting at `j` after cutting at `k >= j` is cutting at `j`. */
  lemma PartialOfPartial(r: Replay, j: int, k: int)
    requires j <= k
    ensures Partial(Partial(r, k), j) == Partial(r, j)
    ensures Partial(r, 0) == Default && Partial(r, 21) == r
  {
  }

  /** A step changes no field but its own. */
  lemma StepKeeps(f: Field, s: seq<byte>, r: Replay, normalise: seq<byte> -> Option<string>)
    requires Step(f, s, r, normalise).Ok?
    ensures Partial(Step(f, s, r, normalise).value.value, f as int) == Partial(r, f as int)
    ensures r == Partial(r, f as int)
            ==> Step(f, s, r, normalise).value.value == Partial(Step(f, s, r, normalise).value.value, f as int + 1)
  {
  }

  /** Decoding from `f` on leaves the fields before `f` as they were. */
  lemma {:induction false} RunKeeps(f: Field, s: seq<byte>, r: Replay, normalise: seq<byte> -> Option<string>)
    ensures Partial(Run(f, s, r, normalise).replay, f as int) == Partial(r, f as int)
    decreases 21 - f as int
  {
    match Step(f, s, r, normalise)
    case Err(_) =>
    case Ok(p) =>
      StepKeeps(f, s, r, normalise);
      match Next(f, p.value)
      case None =>
      case Some(g) =>
        RunKeeps(g, p.rest, p.value, normalise);
        PartialOfPartial(Run(g, p.rest, p.value, normalise).replay, f as int, g as int);
        PartialOfPartial(p.value, f as int, g as int);
  }

  /** When a read throws, the fields decoded before it keep their values,
      and it and every later field keep their initial values. */
  lemma {:induction false} RunFailure(f: Field, s: seq<byte>, r: Replay, normalise: seq<byte> -> Option<string>)
    requires r == Partial(r, f as int)
    ensures var o := Run(f, s, r, normalise);
            o.failure.Some? ==>
              f <= o.failure.value.field
              && Partial(o.replay, f as int) == r
              && o.replay == Partial(o.replay, o.failure.value.field as int)
    decreases 21 - f as int
  {
    match Step(f, s, r, normalise)
    case Err(_) =>
    case Ok(p) =>
      StepKeeps(f, s, r, normalise);
      match Next(f, p.value)
      case None =>
      case Some(g) =>
        RunFailure(g, p.rest, p.value, normalise);
        PartialOfPartial(Run(g, p.rest, p.value, normalise).replay, f as int, g as int);
        PartialOfPartial(p.value, f as int, g as int);
  }

  /** `decode` on a file that ends early or holds a value a reader refuses:
      everything from the failing field on keeps its initial value; in
      particular `onlineScoreID` stays null unless only the trailing double
      failed, and `additionalModInfo` stays `0.0`. */
  lemma DecodeFailure(content: seq<byte>, normalise: seq<byte> -> Option<string>)
    ensures var o := Decode(content, normalise);
            o.failure.Some? ==>
              o.replay == Partial(o.replay, o.failure.value.field as int)
              && o.replay.additionalModInfo == 0
              && (o.failure.value.field != AdditionalModInfo ==> o.replay.onlineScoreID == None)
              && (o.failure.value.field <= ReplayData ==> o.replay.replayData == None)
  {
    PartialOfPartial(Default, 0, 0);
    RunFailure(GameMode, content, Default, normalise);
  }

  /** A decode that ends without failure has read the replay blob and the
      online score id, and has read the trailing double exactly when
      `modsUsed` carries bit 24; a double it read lies in
      `Double.MIN_VALUE..Double.MAX_VALUE`, so is never `0.0`. */
  lemma {:induction false} RunComplete(f: Field, s: seq<byte>, r: Replay, normalise: seq<byte> -> Option<string>)
    requires r == Partial(r, f as int)
    ensures var o := Run(f, s, r, normalise);
            o.failure.None? ==>
              (f <= ReplayData ==> o.replay.replayData.Some?)
              && (f <= OnlineScoreID ==> o.replay.onlineScoreID.Some?)
              && (f <= OnlineScoreID ==> (HasModInfo(o.replay.modsUsed) <==> o.replay.additionalModInfo != 0))
              && (o.replay.additionalModInfo != 0 ==> MIN_DOUBLE_BITS <= o.replay.additionalModInfo <= MAX_DOUBLE_BITS)
    decreases 21 - f as int
  {
    match Step(f, s, r, normalise)
    case Err(_) =>
    case Ok(p) =>
      StepKeeps(f, s, r, normalise);
      match Next(f, p.value)
      case None =>
      case Some(g) =>
        RunComplete(g, p.rest, p.value, normalise);
        PartialOfPartial(p.value, f as int, g as int);
        if g == AdditionalModInfo {
          RunKeeps(g, p.rest, p.value, normalise);
        }
  }

  lemma DecodeComplete(content: seq<byte>, normalise: seq<byte> -> Option<string>)
    ensures var o := Decode(content, normalise);
            o.failure.None? ==>
              o.replay.replayData.Some? && o.replay.onlineScoreID.Some?
              && (HasModInfo(o.replay.modsUsed) <==> o.replay.additionalModInfo != 0)
              && (o.replay.additionalModInfo != 0 ==> MIN_DOUBLE_BITS <= o.replay.additionalModInfo <= MAX_DOUBLE_BITS)
  {
    PartialOfPartial(Default, 0, 0);
    RunComplete(GameMode, content, Default, normalise);
  }

  /** The bytes of an optional string: an absent one as a single marker
      other than `0x0b`, a present one as `0x0b`, its ULEB128 length and
      its bytes. */
  function OptBytes(o: Option<seq<byte>>): seq<byte>
  {
    match o
    case None => [0]
    case Some(b) => [0x0b] + Base128(|b|) + b
  }

  /** The bytes of field `f` of `r` as `decode` expects them, `blob` being
      the compressed replay data. */
  function FieldBytes(f: Field, r: Replay, blob: seq<byte>): seq<byte>
  {
    if f == GameMode then [r.gameMode % 256]
    else if f == GameVersion then LeBytes(r.gameVersion % TWO32, 4)
    else if f == BeatmapHash then OptBytes(r.beatmapHash)
    else if f == PlayerName then OptBytes(r.playerName)
    else if f == ReplayHash then OptBytes(r.replayHash)
    else if f == NumberOf300s then LeBytes(r.numberOf300s % TWO16, 2)
    else if f == NumberOf100s then LeBytes(r.numberOf100s % TWO16, 2)
    else if f == NumberOf50s then LeBytes(r.numberOf50s % TWO16, 2)
    else if f == NumberOfGekis then LeBytes(r.numberOfGekis % TWO16, 2)
    else if f == NumberOfKatus then LeBytes(r.numberOfKatus % TWO16, 2)
    else if f == NumberOfMisses then LeBytes(r.numberOfMisses % TWO16, 2)
    else if f == TotalScore then LeBytes(r.totalScore % TWO32, 4)
    else if f == GreatestCombo then LeBytes(r.greatestCombo % TWO16, 2)
    else if f == PerfectCombo then [if r.perfectCombo then 1 else 0]
    else if f == ModsUsed then LeBytes(r.modsUsed % TWO32, 4)
    else if f == LifeBarGraph then OptBytes(r.lifeBarGraph)
    else if f == Timestamp then LeBytes(r.timestamp % TWO64, 8)
    else if f == ReplayLength then LeBytes(r.replayLength % TWO32, 4)
    else if f == ReplayData then blob
    else if f == OnlineScoreID then LeBytes(if r.onlineScoreID.Some? then r.onlineScoreID.value % TWO64 else 0, 8)
    else LeBytes(r.additionalModInfo, 8)
  }

  /** The bytes of the fields from `f` on, in the order `decode` reads them. */
  function LayoutFrom(f: Field, r: Replay, blob: seq<byte>): seq<byte>
    decreases 21 - f as int
  {
    FieldBytes(f, r, blob)
      + match Next(f, r)
        case None => []
        case Some(g) => LayoutFrom(g, r, blob)
  }

  /** A replay file holding `r`, with `blob` as its compressed replay data. */
  function Layout(r: Replay, blob: seq<byte>): seq<byte>
  {
    LayoutFrom(GameMode, r, blob)
  }

  /** What a replay must be for its file to decode back to it: a game mode
      that fits the byte it is read from, strings within the length cap, a
      blob of `replayLength` bytes whose normal form is the replay data,
      an online score id, and a trailing double within
      `Double.MIN_VALUE..Double.MAX_VALUE` exactly when `modsUsed` announces
      it (`0.0` otherwise). */
  predicate WellFormed(r: Replay, blob: seq<byte>, normalise: seq<byte> -> Option<string>)
  {
    && -0x80 <= r.gameMode < 0x80
    && (r.beatmapHash.Some? ==> |r.beatmapHash.value| <= MAX_STRING_LENGTH)
    && (r.playerName.Some? ==> |r.playerName.value| <= MAX_STRING_LENGTH)
    && (r.replayHash.Some? ==> |r.replayHash.value| <= MAX_STRING_LENGTH)
    && (r.lifeBarGraph.Some? ==> |r.lifeBarGraph.value| <= MAX_STRING_LENGTH)
    && |blob| == r.replayLength
    && normalise(blob).Some? && r.replayData == normalise(blob)
    && r.onlineScoreID.Some?
    && (if HasModInfo(r.modsUsed) then MIN_DOUBLE_BITS <= r.additionalModInfo <= MAX_DOUBLE_BITS
        else r.additionalModInfo == 0)
  }

  lemma OptBytesRead(o: Option<seq<byte>>, t: seq<byte>)
    requires o.Some? ==> |o.value| <= MAX_STRING_LENGTH
    ensures ReadOptString(OptBytes(o) + t) == Ok(Parsed(o, t))
  {
    match o
    case None =>
      OptStringAbsent(OptBytes(o) + t);
      assert (OptBytes(o) + t)[1..] == t;
    case Some(b) =>
      OptStringRoundTrip(b, t);
      AppendAssoc([0x0b] + Base128(|b|), b, t);
  }

  lemma StepLayoutByte(f: Field, r: Replay, blob: seq<byte>, normalise: seq<byte> -> Option<string>, t: seq<byte>)
    requires f == GameMode || f == PerfectCombo
    requires WellFormed(r, blob, normalise)
    ensures Step(f, FieldBytes(f, r, blob) + t, Partial(r, f as int), normalise)
            == Ok(Parsed(Partial(r, f as int + 1), t))
  {
    assert (FieldBytes(f, r, blob) + t)[1..] == t;
  }

  lemma StepLayoutInt(f: Field, r: Replay, blob: seq<byte>, normalise: seq<byte> -> Option<string>, t: seq<byte>)
    requires f == GameVersion || f == TotalScore || f == ModsUsed || f == ReplayLength
    requires WellFormed(r, blob, normalise)
    ensures Step(f, FieldBytes(f, r, blob) + t, Partial(r, f as int), normalise)
            == Ok(Parsed(Partial(r, f as int + 1), t))
  {
    if f == GameVersion {
      IntRoundTrip(r.gameVersion, t);
    } else if f == TotalScore {
      IntRoundTrip(r.totalScore, t);
    } else if f == ModsUsed {
      IntRoundTrip(r.modsUsed, t);
    } else {
      IntRoundTrip(r.replayLength, t);
    }
  }

  lemma StepLayoutString(f: Field, r: Replay, blob: seq<byte>, normalise: seq<byte> -> Option<string>, t: seq<byte>)
    requires f == BeatmapHash || f == PlayerName || f == ReplayHash || f == LifeBarGraph
    requires WellFormed(r, blob, normalise)
    ensures Step(f, FieldBytes(f, r, blob) + t, Partial(r, f as int), normalise)
            == Ok(Parsed(Partial(r, f as int + 1), t))
  {
    if f == BeatmapHash {
      OptBytesRead(r.beatmapHash, t);
    } else if f == PlayerName {
      OptBytesRead(r.playerName, t);
    } else if f == ReplayHash {
      OptBytesRead(r.replayHash, t);
    } else {
      OptBytesRead(r.lifeBarGraph, t);
    }
  }

  lemma StepLayoutShort(f: Field, r: Replay, blob: seq<byte>, normalise: seq<byte> -> Option<string>, t: seq<byte>)
    requires NumberOf300s <= f <= GreatestCombo && f != TotalScore
    requires WellFormed(r, blob, normalise)
    ensures Step(f, FieldBytes(f, r, blob) + t, Partial(r, f as int), normalise)
            == Ok(Parsed(Partial(r, f as int + 1), t))
  {
    if f == NumberOf300s {
      ShortRoundTrip(r.numberOf300s, t);
    } else if f == NumberOf100s {
      ShortRoundTrip(r.numberOf100s, t);
    } else if f == NumberOf50s {
      ShortRoundTrip(r.numberOf50s, t);
    } else if f == NumberOfGekis {
      ShortRoundTrip(r.numberOfGekis, t);
    } else if f == NumberOfKatus {
      ShortRoundTrip(r.numberOfKatus, t);
    } else if f == NumberOfMisses {
      ShortRoundTrip(r.numberOfMisses, t);
    } else {
      ShortRoundTrip(r.greatestCombo, t);
    }
  }

  lemma StepLayoutLong(f: Field, r: Replay, blob: seq<byte>, normalise: seq<byte> -> Option<string>, t: seq<byte>)
    requires LongField(f)
    requires WellFormed(r, blob, normalise)
    ensures Step(f, FieldBytes(f, r, blob) + t, Partial(r, f as int), normalise)
            == Ok(Parsed(Partial(r, f as int + 1), t))
  {
    if f == Timestamp {
      LongRoundTrip(r.timestamp, t);
    } else {
      LongRoundTrip(r.onlineScoreID.value, t);
    }
  }

  lemma StepLayoutBlob(r: Replay, blob: seq<byte>, normalise: seq<byte> -> Option<string>, t: seq<byte>)
    requires WellFormed(r, blob, normalise)
    ensures Step(ReplayData, FieldBytes(ReplayData, r, blob) + t, Partial(r, ReplayData as int), normalise)
            == Ok(Parsed(Partial(r, ReplayData as int + 1), t))
  {
    BlobRead(blob, t, normalise);
  }

  lemma StepLayoutDouble(r: Replay, blob: seq<byte>, normalise: seq<byte> -> Option<string>, t: seq<byte>)
    requires HasModInfo(r.modsUsed) && WellFormed(r, blob, normalise)
    ensures Step(AdditionalModInfo, FieldBytes(AdditionalModInfo, r, blob) + t, Partial(r, AdditionalModInfo as int), normalise)
            == Ok(Parsed(Partial(r, AdditionalModInfo as int + 1), t))
  {
    DoubleRoundTrip(r.additionalModInfo, t);
  }

  /** Each field of a well-formed replay reads back from its bytes, leaving
      what follows them. */
  lemma StepLayout(f: Field, r: Replay, blob: seq<byte>, normalise: seq<byte> -> Option<string>, t: seq<byte>)
    requires f == AdditionalModInfo ==> HasModInfo(r.modsUsed)
    requires WellFormed(r, blob, normalise)
    ensures Step(f, FieldBytes(f, r, blob) + t, Partial(r, f as int), normalise)
            == Ok(Parsed(Partial(r, f as int + 1), t))
  {
    if f == GameMode || f == PerfectCombo {
      StepLayoutByte(f, r, blob, normalise, t);
    } else if f == GameVersion || f == TotalScore || f == ModsUsed || f == ReplayLength {
      StepLayoutInt(f, r, blob, normalise, t);
    } else if f == BeatmapHash || f == PlayerName || f == ReplayHash || f == LifeBarGraph {
      StepLayoutString(f, r, blob, normalise, t);
    } else if NumberOf300s <= f <= GreatestCombo {
      StepLayoutShort(f, r, blob, normalise, t);
    } else if LongField(f) {
      StepLayoutLong(f, r, blob, normalise, t);
    } else if f == ReplayData {
      StepLayoutBlob(r, blob, normalise, t);
    } else {
      StepLayoutDouble(r, blob, normalise, t);
    }
  }

  /** Decoding the layout of the fields from `f` on, after the fields
      before `f` have been read, yields the whole replay and leaves what
      follows the layout. */
  lemma {:induction false} RunLayout(f: Field, r: Replay, blob: seq<byte>, normalise: seq<byte> -> Option<string>, t: seq<byte>)
    requires f == AdditionalModInfo ==> HasModInfo(r.modsUsed)
    requires WellFormed(r, blob, normalise)
    ensures Run(f, LayoutFrom(f, r, blob) + t, Partial(r, f as int), normalise) == Outcome(r, None)
    decreases 21 - f as int
  {
    var next := Next(f, r);
    var tail := if next.Some? then LayoutFrom(next.value, r, blob) + t else t;
    AppendAssoc(FieldBytes(f, r, blob), if next.Some? then LayoutFrom(next.value, r, blob) else [], t);
    StepLayout(f, r, blob, normalise, tail);
    assert Next(f, Partial(r, f as int + 1)) == next;
    match next
    case None =>
      assert Partial(r, f as int + 1) == r;
    case Some(g) =>
      RunLayout(g, r, blob, normalise, t);
  }

  /** The file of a well-formed replay decodes to that replay without
      failure, whatever follows it. */
  lemma ReplayRoundTrip(r: Replay, blob: seq<byte>, normalise: seq<byte> -> Option<string>, t: seq<byte>)
    requires WellFormed(r, blob, normalise)
    ensures Decode(Layout(r, blob) + t, normalise) == Outcome(r, None)
  {
    PartialOfPartial(r, 0, 0);
    RunLayout(GameMode, r, blob, normalise, t);
  }
}
