/** `OsuReplay`: the `DataInputStream` cursor over the file's bytes, the
    object whose fields `decode()` assigns one after another, and the
    readers it calls, each proved to do what the corresponding function of
    `ReplayReaders` says, and `decode()` proved to compute `ReplayFormat`'s
    `Run`. */
module OsuReplayDecoder {
  import opened Common
  import opened ReplayReaders
  import opened ReplayFormat

  /** The part of `DataInputStream` over `fileContent.inputStream()` that
      `OsuReplay` uses: the bytes, which nothing writes while they are read,
      and how many of them have been read. */
  class ByteStream {
    const data: seq<byte>
    var pos: nat

    predicate Valid()
      reads this
    {
      pos <= |data|
    }

    /** The bytes not yet read. */
    function Remaining(): (r: seq<byte>)
      reads this
      requires Valid()
      ensures |r| == |data| - pos
    {
      data[pos..]
    }

    /** `fileContent.inputStream()` wrapped in a `DataInputStream`. */
    constructor (content: array<byte>)
      ensures Valid() && data == content[..] && pos == 0
    {
      data := content[..];
      pos := 0;
    }

    /** `available()`: every unread byte is available at once. */
    function Available(): (n: nat)
      reads this
      requires Valid()
      ensures n == |data| - pos
    {
      |data| - pos
    }

    /** `readByte()`: the next byte, signed, or end of file with nothing
        consumed. */
    method ReadByte() returns (r: Result<int8, DecodeError>)
      requires Valid()
      modifies this
      ensures Valid()
      ensures ReadsByte(r, old(Remaining()), Remaining())
      ensures r.Err? ==> pos == old(pos)
    {
      if pos == |data| {
        return Err(EndOfFile);
      }
      r := Ok(Signed8(data[pos]));
      pos := pos + 1;
    }

    /** `readFully` into a new array of `n` bytes; when the file ends first,
        what was there has been consumed before the end-of-file error. */
    method ReadFully(n: nat) returns (r: Result<seq<byte>, DecodeError>)
      requires Valid()
      modifies this
      ensures Valid()
      ensures Follows(r, ReplayReaders.ReadFully(old(Remaining()), n), Remaining())
      ensures r.Err? ==> pos == |data|
    {
      if |data| - pos < n {
        pos := |data|;
        return Err(EndOfFile);
      }
      assert data[pos..][..n] == data[pos..pos + n] && data[pos..][n..] == data[pos + n..];
      r := Ok(data[pos..pos + n]);
      pos := pos + n;
    }
  }

  /** `byte.toInt() and 0x7F`: the low seven bits of a signed byte. */
  function Low7(b: int8): (v: nat)
    ensures v < 128 && v == (b + 256) % 128
  {
    b % 128
  }

  /** `byte.toInt() and 0x80 > 0`: the top bit of a signed byte is its
      sign. */
  predicate TopBit(b: int8)
  {
    b < 0
  }

  class OsuReplay {
    const dis: ByteStream
    /** Stands for the LZMA decompression, recompression and Base64 encoding
        of the replay blob, `None` when they throw. */
    const normalise: seq<byte> -> Option<string>

    var gameMode: int32
    var gameVersion: int32
    var beatmapHash: Option<seq<byte>>
    var playerName: Option<seq<byte>>
    var replayHash: Option<seq<byte>>
    var numberOf300s: int16
    var numberOf100s: int16
    var numberOf50s: int16
    var numberOfGekis: int16
    var numberOfKatus: int16
    var numberOfMisses: int16
    var totalScore: int32
    var greatestCombo: int16
    var perfectCombo: bool
    var modsUsed: int32
    var lifeBarGraph: Option<seq<byte>>
    var timestamp: int64
    var replayLength: int32
    var replayData: Option<string>
    var onlineScoreID: Option<int64>
    var additionalModInfo: nat
    /** What `decode` printed and swallowed, if anything. */
    var failure: Option<Failure>

    /** The fields, as a `ReplayFormat.Replay`. */
    function Snapshot(): (r: Replay)
      reads this
      ensures r.modsUsed == modsUsed && r.replayLength == replayLength
    {
      Replay(gameMode, gameVersion, beatmapHash, playerName, replayHash,
             numberOf300s, numberOf100s, numberOf50s, numberOfGekis, numberOfKatus, numberOfMisses,
             totalScore, greatestCombo, perfectCombo, modsUsed, lifeBarGraph, timestamp, replayLength,
             replayData, onlineScoreID, additionalModInfo)
    }

    /** `OsuReplay(fileContent)` once the size check of `init` has passed:
        the fields at their initial values, then `decode()`. */
    constructor (fileContent: array<byte>, normalise: seq<byte> -> Option<string>)
      requires fileContent.Length <= MAX_FILE_SIZE
      ensures dis.Valid() && dis.data == fileContent[..]
      ensures Outcome(Snapshot(), failure) == ReplayFormat.Decode(fileContent[..], normalise)
    {
      dis := new ByteStream(fileContent);
      this.normalise := normalise;
      gameMode, gameVersion := 0, 0;
      beatmapHash, playerName, replayHash := None, None, None;
      numberOf300s, numberOf100s, numberOf50s := 0, 0, 0;
      numberOfGekis, numberOfKatus, numberOfMisses := 0, 0, 0;
      totalScore, greatestCombo, perfectCombo, modsUsed := 0, 0, false, 0;
      lifeBarGraph, timestamp, replayLength := None, 0, 0;
      replayData, onlineScoreID, additionalModInfo := None, None, 0;
      failure := None;
      new;
      assert dis.Remaining() == fileContent[..];
      Decode();
    }

    /** `readShortLittleEndian()`: two bytes if two are available, nothing
        consumed otherwise. */
    method ReadShortLittleEndian() returns (r: Result<int16, DecodeError>)
      requires dis.Valid()
      modifies dis
      ensures dis.Valid()
      ensures ReadsShort(r, old(dis.Remaining()), dis.Remaining())
      ensures r.Err? ==> dis.pos == old(dis.pos)
    {
      if dis.Available() < 2 {
        return Err(InsufficientData(2));
      }
      var bytes := dis.ReadFully(2);
      return Ok(Wrap16(LittleEndian(bytes.value)));
    }

    /** `readIntLittleEndian()`; its range test admits every `Int`. */
    method ReadIntLittleEndian() returns (r: Result<int32, DecodeError>)
      requires dis.Valid()
      modifies dis
      ensures dis.Valid()
      ensures ReadsInt(r, old(dis.Remaining()), dis.Remaining())
      ensures r.Err? ==> dis.pos == old(dis.pos)
    {
      if dis.Available() < 4 {
        return Err(InsufficientData(4));
      }
      var bytes := dis.ReadFully(4);
      return Ok(Wrap32(LittleEndian(bytes.value)));
    }

    /** `readLongLittleEndian()`; its range test admits every `Long`. */
    method ReadLongLittleEndian() returns (r: Result<int64, DecodeError>)
      requires dis.Valid()
      modifies dis
      ensures dis.Valid()
      ensures ReadsLong(r, old(dis.Remaining()), dis.Remaining())
      ensures r.Err? ==> dis.pos == old(dis.pos)
    {
      if dis.Available() < 8 {
        return Err(InsufficientData(8));
      }
      var bytes := dis.ReadFully(8);
      return Ok(Wrap64(LittleEndian(bytes.value)));
    }

    /** `readDoubleLittleEndian()`, yielding the bit pattern of a double in
        `Double.MIN_VALUE..Double.MAX_VALUE`. */
    method ReadDoubleLittleEndian() returns (r: Result<nat, DecodeError>)
      requires dis.Valid()
      modifies dis
      ensures dis.Valid()
      ensures ReadsDouble(r, old(dis.Remaining()), dis.Remaining())
    {
      if dis.Available() < 8 {
        return Err(InsufficientData(8));
      }
      var bytes := dis.ReadFully(8);
      var bits := LittleEndian(bytes.value);
      if !(MIN_DOUBLE_BITS <= bits <= MAX_DOUBLE_BITS) {
        return Err(DoubleOutOfBounds);
      }
      return Ok(bits);
    }

    /** `readULEB128()`: the do-while loop gathering seven bits a byte into
        the bit pattern of a `Long`. */
    method ReadULEB128() returns (r: Result<int64, DecodeError>)
      requires dis.Valid()
      modifies dis
      ensures dis.Valid() && old(dis.pos) <= dis.pos
      ensures Follows(r, ReadUleb128(old(dis.Remaining())), dis.Remaining())
    {
      var result: nat := 0;
      var shift: nat := 0;
      var size: nat := 0;
      while true
        invariant dis.Valid() && old(dis.pos) <= dis.pos
        invariant size <= 10
        invariant UlebFrom(dis.Remaining(), result, shift, size) == ReadUleb128(old(dis.Remaining()))
        decreases |dis.data| - dis.pos
      {
        if size == 10 {
          return Err(InvalidLeb128);
        }
        ghost var s := dis.Remaining();
        var byte := dis.ReadByte();
        assert Follows(byte, ReplayReaders.ReadByte(s), dis.Remaining());
        if byte.Err? {
          return Err(byte.error);
        }
        size := size + 1;
        if size == 10 && Low7(byte.value) > 1 {
          return Err(Leb128Overflow);
        }
        var value := Low7(byte.value);
        if shift >= 63 && value > 0 {
          return Err(Leb128Overflow);
        }
        result := Or(result, Shl64(value, shift));
        shift := shift + 7;
        if !TopBit(byte.value) {
          return Ok(Wrap64(result));
        }
      }
    }

    /** `readCompressedReplayData()`: a marker byte, and for `0x0b` a
        ULEB128 length checked against 0..512000 and that many bytes. */
    method ReadCompressedReplayData() returns (r: Result<Option<seq<byte>>, DecodeError>)
      requires dis.Valid()
      modifies dis
      ensures dis.Valid()
      ensures ReadsOptString(r, old(dis.Remaining()), dis.Remaining())
    {
      var marker := dis.ReadByte();
      if marker.Err? {
        return Err(marker.error);
      }
      if marker.value != STRING_PRESENT {
        return Ok(None);
      }
      var length := ReadULEB128();
      if length.Err? {
        return Err(length.error);
      }
      if !(0 <= length.value <= MAX_STRING_LENGTH) {
        return Err(StringLengthOutOfBounds);
      }
      var bytes := dis.ReadFully(length.value);
      if bytes.Err? {
        return Err(bytes.error);
      }
      return Ok(Some(bytes.value));
    }

    /** `readCompressedReplayData(length)`: `ByteArray(length)`, filled by
        `readFully`, then normalised. */
    method ReadCompressedReplayBlob(length: int32) returns (r: Result<string, DecodeError>)
      requires dis.Valid()
      modifies dis
      ensures dis.Valid()
      ensures ReadsBlob(r, old(dis.Remaining()), length, normalise, dis.Remaining())
    {
      if length < 0 {
        return Err(NegativeArraySize);
      }
      var bytes := dis.ReadFully(length);
      if bytes.Err? {
        return Err(bytes.error);
      }
      match normalise(bytes.value)
      case None => return Err(ReplayDataUnreadable);
      case Some(text) => return Ok(text);
    }

    /** Decoding has reached field `f` with nothing thrown, and `goal` is
        what the rest of it yields. */
    ghost predicate Pending(goal: Outcome, f: Field)
      reads this, dis
    {
      dis.Valid() && failure.None? && Yields(goal, f, dis.Remaining(), Snapshot(), normalise)
    }

    /** Decoding is over, and `goal` is what it left behind. */
    ghost predicate Settled(goal: Outcome)
      reads this, dis
    {
      dis.Valid() && goal == Outcome(Snapshot(), failure)
    }

    /** `decode()`: the fields in their fixed order, the trailing double only
        when the mods call for it; the first read that throws ends it, its
        exception recorded in `failure`. Its lines are the `Decode` methods
        below, one per field, taken here in four groups. */
    method Decode()
      requires dis.Valid() && failure.None?
      modifies this, dis
      ensures dis.Valid()
      ensures Outcome(Snapshot(), failure) == Run(GameMode, old(dis.Remaining()), old(Snapshot()), normalise)
    {
      ghost var goal := Run(GameMode, dis.Remaining(), Snapshot(), normalise);
      YieldsRun(GameMode, dis.Remaining(), Snapshot(), normalise);
      DecodeHeader(goal);
      if failure.Some? {
        return;
      }
      DecodeHits(goal);
      if failure.Some? {
        return;
      }
      DecodeScore(goal);
      if failure.Some? {
        return;
      }
      DecodeTail(goal);
    }

    /** The lines of `decode()` reading the game mode, the game version and the three strings naming the beatmap, the player and the replay. */
    method DecodeHeader(ghost goal: Outcome)
      requires Pending(goal, GameMode)
      modifies this, dis
      ensures failure.Some? ==> Settled(goal)
      ensures failure.None? ==> Pending(goal, NumberOf300s)
    {
      DecodeGameMode(goal);
      if failure.Some? {
        return;
      }
      DecodeGameVersion(goal);
      if failure.Some? {
        return;
      }
      DecodeBeatmapHash(goal);
      if failure.Some? {
        return;
      }
      DecodePlayerName(goal);
      if failure.Some? {
        return;
      }
      DecodeReplayHash(goal);
    }

    /** The lines of `decode()` reading the six hit counts. */
    method DecodeHits(ghost goal: Outcome)
      requires Pending(goal, NumberOf300s)
      modifies this, dis
      ensures failure.Some? ==> Settled(goal)
      ensures failure.None? ==> Pending(goal, TotalScore)
    {
      DecodeNumberOf300s(goal);
      if failure.Some? {
        return;
      }
      DecodeNumberOf100s(goal);
      if failure.Some? {
        return;
      }
      DecodeNumberOf50s(goal);
      if failure.Some? {
        return;
      }
      DecodeNumberOfGekis(goal);
      if failure.Some? {
        return;
      }
      DecodeNumberOfKatus(goal);
      if failure.Some? {
        return;
      }
      DecodeNumberOfMisses(goal);
    }

    /** The lines of `decode()` reading the total score, the greatest combo, the full-combo flag and the mods. */
    method DecodeScore(ghost goal: Outcome)
      requires Pending(goal, TotalScore)
      modifies this, dis
      ensures failure.Some? ==> Settled(goal)
      ensures failure.None? ==> Pending(goal, LifeBarGraph)
    {
      DecodeTotalScore(goal);
      if failure.Some? {
        return;
      }
      DecodeGreatestCombo(goal);
      if failure.Some? {
        return;
      }
      DecodePerfectCombo(goal);
      if failure.Some? {
        return;
      }
      DecodeModsUsed(goal);
    }

    /** The lines of `decode()` reading the life bar graph, the time stamp, the replay data, the online score id and the trailing double. */
    method DecodeTail(ghost goal: Outcome)
      requires Pending(goal, LifeBarGraph)
      modifies this, dis
      ensures Settled(goal)
    {
      DecodeLifeBarGraph(goal);
      if failure.Some? {
        return;
      }
      DecodeTimestamp(goal);
      if failure.Some? {
        return;
      }
      DecodeReplayLength(goal);
      if failure.Some? {
        return;
      }
      DecodeReplayData(goal);
      if failure.Some? {
        return;
      }
      DecodeOnlineScoreID(goal);
      if failure.None? && HasModInfo(modsUsed) {
        DecodeAdditionalModInfo(goal);
      }
    }

    /** The line of `decode()` reading the game mode, one signed byte. */
    method DecodeGameMode(ghost goal: Outcome)
      requires Pending(goal, GameMode)
      modifies this, dis
      ensures Snapshot() == old(Snapshot()).(gameMode := gameMode)
      ensures failure.Some? ==> Settled(goal)
      ensures failure.None? ==> Pending(goal, GameVersion)
    {
      var b := dis.ReadByte();
      ByteLine(goal, GameMode, old(dis.Remaining()), old(Snapshot()), normalise, b, dis.Remaining());
      if b.Err? {
        failure := Some(Failure(GameMode, b.error));
        return;
      }
      gameMode := b.value;
    }

    /** The line of `decode()` reading the game version. */
    method DecodeGameVersion(ghost goal: Outcome)
      requires Pending(goal, GameVersion)
      modifies this, dis
      ensures Snapshot() == old(Snapshot()).(gameVersion := gameVersion)
      ensures failure.Some? ==> Settled(goal)
      ensures failure.None? ==> Pending(goal, BeatmapHash)
    {
      var i := ReadIntLittleEndian();
      IntLine(goal, GameVersion, old(dis.Remaining()), old(Snapshot()), normalise, i, dis.Remaining());
      if i.Err? {
        failure := Some(Failure(GameVersion, i.error));
        return;
      }
      gameVersion := i.value;
    }

    /** The line of `decode()` reading the beatmap hash. */
    method DecodeBeatmapHash(ghost goal: Outcome)
      requires Pending(goal, BeatmapHash)
      modifies this, dis
      ensures Snapshot() == old(Snapshot()).(beatmapHash := beatmapHash)
      ensures failure.Some? ==> Settled(goal)
      ensures failure.None? ==> Pending(goal, PlayerName)
    {
      var o := ReadCompressedReplayData();
      StringLine(goal, BeatmapHash, old(dis.Remaining()), old(Snapshot()), normalise, o, dis.Remaining());
      if o.Err? {
        failure := Some(Failure(BeatmapHash, o.error));
        return;
      }
      beatmapHash := o.value;
    }

    /** The line of `decode()` reading the player name. */
    method DecodePlayerName(ghost goal: Outcome)
      requires Pending(goal, PlayerName)
      modifies this, dis
      ensures Snapshot() == old(Snapshot()).(playerName := playerName)
      ensures failure.Some? ==> Settled(goal)
      ensures failure.None? ==> Pending(goal, ReplayHash)
    {
      var o := ReadCompressedReplayData();
      StringLine(goal, PlayerName, old(dis.Remaining()), old(Snapshot()), normalise, o, dis.Remaining());
      if o.Err? {
        failure := Some(Failure(PlayerName, o.error));
        return;
      }
      playerName := o.value;
    }

    /** The line of `decode()` reading the replay hash. */
    method DecodeReplayHash(ghost goal: Outcome)
      requires Pending(goal, ReplayHash)
      modifies this, dis
      ensures Snapshot() == old(Snapshot()).(replayHash := replayHash)
      ensures failure.Some? ==> Settled(goal)
      ensures failure.None? ==> Pending(goal, NumberOf300s)
    {
      var o := ReadCompressedReplayData();
      StringLine(goal, ReplayHash, old(dis.Remaining()), old(Snapshot()), normalise, o, dis.Remaining());
      if o.Err? {
        failure := Some(Failure(ReplayHash, o.error));
        return;
      }
      replayHash := o.value;
    }

    /** The line of `decode()` reading the count of 300s. */
    method DecodeNumberOf300s(ghost goal: Outcome)
      requires Pending(goal, NumberOf300s)
      modifies this, dis
      ensures Snapshot() == old(Snapshot()).(numberOf300s := numberOf300s)
      ensures failure.Some? ==> Settled(goal)
      ensures failure.None? ==> Pending(goal, NumberOf100s)
    {
      var h := ReadShortLittleEndian();
      ShortLine(goal, NumberOf300s, old(dis.Remaining()), old(Snapshot()), normalise, h, dis.Remaining());
      if h.Err? {
        failure := Some(Failure(NumberOf300s, h.error));
        return;
      }
      numberOf300s := h.value;
    }

    /** The line of `decode()` reading the count of 100s. */
    method DecodeNumberOf100s(ghost goal: Outcome)
      requires Pending(goal, NumberOf100s)
      modifies this, dis
      ensures Snapshot() == old(Snapshot()).(numberOf100s := numberOf100s)
      ensures failure.Some? ==> Settled(goal)
      ensures failure.None? ==> Pending(goal, NumberOf50s)
    {
      var h := ReadShortLittleEndian();
      ShortLine(goal, NumberOf100s, old(dis.Remaining()), old(Snapshot()), normalise, h, dis.Remaining());
      if h.Err? {
        failure := Some(Failure(NumberOf100s, h.error));
        return;
      }
      numberOf100s := h.value;
    }

    /** The line of `decode()` reading the count of 50s. */
    method DecodeNumberOf50s(ghost goal: Outcome)
      requires Pending(goal, NumberOf50s)
      modifies this, dis
      ensures Snapshot() == old(Snapshot()).(numberOf50s := numberOf50s)
      ensures failure.Some? ==> Settled(goal)
      ensures failure.None? ==> Pending(goal, NumberOfGekis)
    {
      var h := ReadShortLittleEndian();
      ShortLine(goal, NumberOf50s, old(dis.Remaining()), old(Snapshot()), normalise, h, dis.Remaining());
      if h.Err? {
        failure := Some(Failure(NumberOf50s, h.error));
        return;
      }
      numberOf50s := h.value;
    }

    /** The line of `decode()` reading the count of gekis. */
    method DecodeNumberOfGekis(ghost goal: Outcome)
      requires Pending(goal, NumberOfGekis)
      modifies this, dis
      ensures Snapshot() == old(Snapshot()).(numberOfGekis := numberOfGekis)
      ensures failure.Some? ==> Settled(goal)
      ensures failure.None? ==> Pending(goal, NumberOfKatus)
    {
      var h := ReadShortLittleEndian();
      ShortLine(goal, NumberOfGekis, old(dis.Remaining()), old(Snapshot()), normalise, h, dis.Remaining());
      if h.Err? {
        failure := Some(Failure(NumberOfGekis, h.error));
        return;
      }
      numberOfGekis := h.value;
    }

    /** The line of `decode()` reading the count of katus. */
    method DecodeNumberOfKatus(ghost goal: Outcome)
      requires Pending(goal, NumberOfKatus)
      modifies this, dis
      ensures Snapshot() == old(Snapshot()).(numberOfKatus := numberOfKatus)
      ensures failure.Some? ==> Settled(goal)
      ensures failure.None? ==> Pending(goal, NumberOfMisses)
    {
      var h := ReadShortLittleEndian();
      ShortLine(goal, NumberOfKatus, old(dis.Remaining()), old(Snapshot()), normalise, h, dis.Remaining());
      if h.Err? {
        failure := Some(Failure(NumberOfKatus, h.error));
        return;
      }
      numberOfKatus := h.value;
    }

    /** The line of `decode()` reading the count of misses. */
    method DecodeNumberOfMisses(ghost goal: Outcome)
      requires Pending(goal, NumberOfMisses)
      modifies this, dis
      ensures Snapshot() == old(Snapshot()).(numberOfMisses := numberOfMisses)
      ensures failure.Some? ==> Settled(goal)
      ensures failure.None? ==> Pending(goal, TotalScore)
    {
      var h := ReadShortLittleEndian();
      ShortLine(goal, NumberOfMisses, old(dis.Remaining()), old(Snapshot()), normalise, h, dis.Remaining());
      if h.Err? {
        failure := Some(Failure(NumberOfMisses, h.error));
        return;
      }
      numberOfMisses := h.value;
    }

    /** The line of `decode()` reading the total score. */
    method DecodeTotalScore(ghost goal: Outcome)
      requires Pending(goal, TotalScore)
      modifies this, dis
      ensures Snapshot() == old(Snapshot()).(totalScore := totalScore)
      ensures failure.Some? ==> Settled(goal)
      ensures failure.None? ==> Pending(goal, GreatestCombo)
    {
      var i := ReadIntLittleEndian();
      IntLine(goal, TotalScore, old(dis.Remaining()), old(Snapshot()), normalise, i, dis.Remaining());
      if i.Err? {
        failure := Some(Failure(TotalScore, i.error));
        return;
      }
      totalScore := i.value;
    }

    /** The line of `decode()` reading the greatest combo. */
    method DecodeGreatestCombo(ghost goal: Outcome)
      requires Pending(goal, GreatestCombo)
      modifies this, dis
      ensures Snapshot() == old(Snapshot()).(greatestCombo := greatestCombo)
      ensures failure.Some? ==> Settled(goal)
      ensures failure.None? ==> Pending(goal, PerfectCombo)
    {
      var h := ReadShortLittleEndian();
      ShortLine(goal, GreatestCombo, old(dis.Remaining()), old(Snapshot()), normalise, h, dis.Remaining());
      if h.Err? {
        failure := Some(Failure(GreatestCombo, h.error));
        return;
      }
      greatestCombo := h.value;
    }

    /** The line of `decode()` reading the full-combo flag, a byte that is true unless zero. */
    method DecodePerfectCombo(ghost goal: Outcome)
      requires Pending(goal, PerfectCombo)
      modifies this, dis
      ensures Snapshot() == old(Snapshot()).(perfectCombo := perfectCombo)
      ensures failure.Some? ==> Settled(goal)
      ensures failure.None? ==> Pending(goal, ModsUsed)
    {
      var b := dis.ReadByte();
      ByteLine(goal, PerfectCombo, old(dis.Remaining()), old(Snapshot()), normalise, b, dis.Remaining());
      if b.Err? {
        failure := Some(Failure(PerfectCombo, b.error));
        return;
      }
      perfectCombo := b.value != 0;
    }

    /** The line of `decode()` reading the mods. */
    method DecodeModsUsed(ghost goal: Outcome)
      requires Pending(goal, ModsUsed)
      modifies this, dis
      ensures Snapshot() == old(Snapshot()).(modsUsed := modsUsed)
      ensures failure.Some? ==> Settled(goal)
      ensures failure.None? ==> Pending(goal, LifeBarGraph)
    {
      var i := ReadIntLittleEndian();
      IntLine(goal, ModsUsed, old(dis.Remaining()), old(Snapshot()), normalise, i, dis.Remaining());
      if i.Err? {
        failure := Some(Failure(ModsUsed, i.error));
        return;
      }
      modsUsed := i.value;
    }

    /** The line of `decode()` reading the life bar graph. */
    method DecodeLifeBarGraph(ghost goal: Outcome)
      requires Pending(goal, LifeBarGraph)
      modifies this, dis
      ensures Snapshot() == old(Snapshot()).(lifeBarGraph := lifeBarGraph)
      ensures failure.Some? ==> Settled(goal)
      ensures failure.None? ==> Pending(goal, Timestamp)
    {
      var o := ReadCompressedReplayData();
      StringLine(goal, LifeBarGraph, old(dis.Remaining()), old(Snapshot()), normalise, o, dis.Remaining());
      if o.Err? {
        failure := Some(Failure(LifeBarGraph, o.error));
        return;
      }
      lifeBarGraph := o.value;
    }

    /** The line of `decode()` reading the time stamp. */
    method DecodeTimestamp(ghost goal: Outcome)
      requires Pending(goal, Timestamp)
      modifies this, dis
      ensures Snapshot() == old(Snapshot()).(timestamp := timestamp)
      ensures failure.Some? ==> Settled(goal)
      ensures failure.None? ==> Pending(goal, ReplayLength)
    {
      var l := ReadLongLittleEndian();
      LongLine(goal, Timestamp, old(dis.Remaining()), old(Snapshot()), normalise, l, dis.Remaining());
      if l.Err? {
        failure := Some(Failure(Timestamp, l.error));
        return;
      }
      timestamp := l.value;
    }

    /** The line of `decode()` reading the length of the replay data. */
    method DecodeReplayLength(ghost goal: Outcome)
      requires Pending(goal, ReplayLength)
      modifies this, dis
      ensures Snapshot() == old(Snapshot()).(replayLength := replayLength)
      ensures failure.Some? ==> Settled(goal)
      ensures failure.None? ==> Pending(goal, ReplayData)
    {
      var i := ReadIntLittleEndian();
      IntLine(goal, ReplayLength, old(dis.Remaining()), old(Snapshot()), normalise, i, dis.Remaining());
      if i.Err? {
        failure := Some(Failure(ReplayLength, i.error));
        return;
      }
      replayLength := i.value;
    }

    /** The line of `decode()` reading the replay data, `replayLength` bytes. */
    method DecodeReplayData(ghost goal: Outcome)
      requires Pending(goal, ReplayData)
      modifies this, dis
      ensures Snapshot() == old(Snapshot()).(replayData := replayData)
      ensures failure.Some? ==> Settled(goal)
      ensures failure.None? ==> Pending(goal, OnlineScoreID)
    {
      var t := ReadCompressedReplayBlob(replayLength);
      BlobLine(goal, old(dis.Remaining()), old(Snapshot()), normalise, t, dis.Remaining());
      if t.Err? {
        failure := Some(Failure(ReplayData, t.error));
        return;
      }
      replayData := Some(t.value);
    }

    /** The line of `decode()` reading the online score id. */
    method DecodeOnlineScoreID(ghost goal: Outcome)
      requires Pending(goal, OnlineScoreID)
      modifies this, dis
      ensures Snapshot() == old(Snapshot()).(onlineScoreID := onlineScoreID)
      ensures failure.Some? || !HasModInfo(modsUsed) ==> Settled(goal)
      ensures failure.None? && HasModInfo(modsUsed) ==> Pending(goal, AdditionalModInfo)
    {
      var l := ReadLongLittleEndian();
      LongLine(goal, OnlineScoreID, old(dis.Remaining()), old(Snapshot()), normalise, l, dis.Remaining());
      if l.Err? {
        failure := Some(Failure(OnlineScoreID, l.error));
        return;
      }
      onlineScoreID := Some(l.value);
    }

    /** The line of `decode()` reading the double that follows when bit 24 of the mods is set. */
    method DecodeAdditionalModInfo(ghost goal: Outcome)
      requires Pending(goal, AdditionalModInfo)
      modifies this, dis
      ensures Snapshot() == old(Snapshot()).(additionalModInfo := additionalModInfo)
      ensures Settled(goal)
    {
      var d := ReadDoubleLittleEndian();
      DoubleLine(goal, old(dis.Remaining()), old(Snapshot()), normalise, d, dis.Remaining());
      if d.Err? {
        failure := Some(Failure(AdditionalModInfo, d.error));
        return;
      }
      additionalModInfo := d.value;
    }
  }

  /** `OsuReplay(fileContent)`: a file larger than 4194304 bytes is refused
      with a `SecurityException` before any field is read; any other is
      decoded. */
  method Open(fileContent: array<byte>, normalise: seq<byte> -> Option<string>)
    returns (r: Result<OsuReplay, OpenError>)
    ensures r.Err? <==> fileContent.Length > MAX_FILE_SIZE
    ensures r.Ok? ==> fresh(r.value) && Outcome(r.value.Snapshot(), r.value.failure)
                                         == ReplayFormat.Decode(fileContent[..], normalise)
  {
    if !(0 <= fileContent.Length <= MAX_FILE_SIZE) {
      return Err(FileSizeOutOfBounds);
    }
    var replay := new OsuReplay(fileContent, normalise);
    return Ok(replay);
  }
}
