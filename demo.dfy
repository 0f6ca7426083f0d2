/**
 * The demo recorder (`arcgame/utils/demo_recorder.py`): recording numbered
 * frames and events, the `.demo` byte layout it writes and reads back, and
 * the playback cursor over the loaded frames.
 *
 * The clock is the `now` parameter of the operations that read it; the
 * bytes written are returned by `StopRecording` and the bytes read are the
 * parameter of `LoadDemo`. Map names are kept as their UTF-8 bytes and a
 * frame's game state as the bytes of its text form.
 */
module Demo {
  import opened Wrappers
  import opened Bytes

  /** The four bytes every demo file starts with: `DEMO`. */
  const Magic: seq<byte> := [0x44, 0x45, 0x4D, 0x4F]

  /** One entry of `demo_data`. A frame read back from a file has no timestamp. */
  datatype Entry =
    | Header(tick: int, mapName: seq<byte>, gameType: string, tickRate: int)
    | Frame(tick: int, timestamp: Option<real>, gameState: seq<byte>)
    | Event(tick: int, eventType: string, eventData: seq<byte>, timestamp: Option<real>)

  /** A frame as the file stores it: its tick and the bytes of its game state. */
  datatype StoredFrame = StoredFrame(tick: int, payload: seq<byte>)

  /** The frames among the entries, in order, as the file stores them. */
  function FramesOf(entries: seq<Entry>): (r: seq<StoredFrame>)
    ensures |r| <= |entries|
  {
    if entries == [] then []
    else FramesOf(entries[..|entries| - 1])
         + (var e := entries[|entries| - 1]; if e.Frame? then [StoredFrame(e.tick, e.gameState)] else [])
  }

  /** A frame's tick and payload length fit the unsigned 32-bit fields they are written to. */
  predicate Fits(f: StoredFrame)
  {
    IsU32(f.tick) && IsU32(|f.payload|)
  }

  /** Every frame fits its fields. */
  predicate FramesFit(frames: seq<StoredFrame>)
  {
    forall f :: f in frames ==> Fits(f)
  }

  /** The bytes of the frames: per frame, its tick, its payload length and the payload. */
  function FramesBytes(frames: seq<StoredFrame>): seq<byte>
    requires FramesFit(frames)
  {
    if frames == [] then []
    else
      var f := frames[|frames| - 1];
      FramesBytes(frames[..|frames| - 1]) + FrameBytes(f)
  }

  /** The bytes of one frame. */
  function FrameBytes(f: StoredFrame): (b: seq<byte>)
    requires Fits(f)
    ensures |b| == 8 + |f.payload|
  {
    EncodeU32(f.tick) + EncodeU32(|f.payload|) + f.payload
  }

  /**
   * `_write_demo_file`'s layout: the magic, the version, the tick rate, the
   * NUL-terminated map name, the number of frames, then the frames.
   */
  function DemoBytes(version: int, tickRate: int, mapName: seq<byte>, frames: seq<StoredFrame>): seq<byte>
    requires IsU32(version) && IsU32(tickRate) && IsU32(|frames|) && FramesFit(frames)
  {
    Magic + EncodeU32(version) + EncodeU32(tickRate) + mapName + [0] + EncodeU32(|frames|) + FramesBytes(frames)
  }

  /** Python's `f.read(n)` at position `pos`: up to `n` bytes, fewer at the end of the file. */
  function Chunk(data: seq<byte>, pos: int, n: nat): (r: seq<byte>)
    requires 0 <= pos <= |data|
    ensures |r| <= n && pos + |r| <= |data|
    ensures pos + n <= |data| ==> |r| == n
    ensures r == data[pos..pos + |r|]
  {
    if pos + n <= |data| then data[pos..pos + n] else data[pos..]
  }

  /**
   * The frames `load_demo` reads for a count of `count` from the bytes that
   * remain: each has a tick, a length and up to that many payload bytes.
   * The flag is false when a tick or a length is cut short; the frames are
   * those read before.
   */
  function ReadFrames(rest: seq<byte>, count: nat): (r: (seq<Entry>, bool))
    decreases count
  {
    if count == 0 then ([], true)
    else if |rest| < 8 then ([], false)
    else
      var payload := Chunk(rest, 8, DecodeU32(rest[4..8]));
      var more := ReadFrames(rest[8 + |payload|..], count - 1);
      ([Frame(DecodeU32(rest[..4]), None, payload)] + more.0, more.1)
  }

  /** What reading a file gives: a rejection, frames cut short, or a complete demo. */
  datatype LoadResult =
    | Rejected
    | FramesCut(frames: seq<Entry>)
    | Loaded(tickRate: int, mapName: seq<byte>, frames: seq<Entry>)

  /**
   * `load_demo`'s reading of a file: the magic must be `DEMO`; the version
   * and the tick rate follow; the map name runs to a NUL or the end of the
   * file; then the frame count and the frames.
   */
  function ReadDemo(data: seq<byte>): LoadResult
  {
    if Chunk(data, 0, 4) != Magic || |data| < 12 then Rejected
    else
      var k := NulFrom(data, 12);
      var p := if k < |data| then k + 1 else k;
      if p + 4 > |data| then Rejected
      else
        var frames := ReadFrames(data[p + 4..], DecodeU32(data[p..p + 4]));
        if frames.1 then Loaded(DecodeU32(data[8..12]), data[12..k], frames.0) else FramesCut(frames.0)
  }

  /** Frames as read back from the file: tick and game state, without a timestamp. */
  function AsLoaded(frames: seq<StoredFrame>): (r: seq<Entry>)
    ensures |r| == |frames|
    ensures forall i :: 0 <= i < |frames| ==> r[i] == Frame(frames[i].tick, None, frames[i].payload)
  {
    if frames == [] then [] else [Frame(frames[0].tick, None, frames[0].payload)] + AsLoaded(frames[1..])
  }

  /** Appending a frame appends its bytes. */
  lemma FramesBytesSnoc(frames: seq<StoredFrame>, f: StoredFrame)
    requires FramesFit(frames) && Fits(f)
    ensures FramesFit(frames + [f])
    ensures FramesBytes(frames + [f]) == FramesBytes(frames) + FrameBytes(f)
  {
    assert (frames + [f])[..|frames|] == frames;
  }

  /** The bytes of two runs of frames are the bytes of the first followed by those of the second. */
  lemma {:induction false} FramesBytesAppend(a: seq<StoredFrame>, b: seq<StoredFrame>)
    requires FramesFit(a + b)
    ensures FramesFit(a) && FramesFit(b)
    ensures FramesBytes(a + b) == FramesBytes(a) + FramesBytes(b)
    decreases |b|
  {
    FitAppend(a, b);
    if b == [] {
      assert a + b == a;
    } else {
      var init, last := b[..|b| - 1], b[|b| - 1];
      assert b == init + [last];
      assert a + b == (a + init) + [last];
      FitAppend(a + init, [last]);
      FitAppend(init, [last]);
      FramesBytesAppend(a, init);
      FramesBytesSnoc(a + init, last);
      FramesBytesSnoc(init, last);
      var x, y, z := FramesBytes(a), FramesBytes(init), FrameBytes(last);
      calc {
        FramesBytes(a + b);
        FramesBytes((a + init) + [last]);
        (x + y) + z;
        { assert (x + y) + z == x + (y + z); }
        x + (y + z);
        FramesBytes(a) + FramesBytes(b);
      }
    }
  }

  /** Two runs of frames fit exactly when each does. */
  lemma FitAppend(a: seq<StoredFrame>, b: seq<StoredFrame>)
    ensures FramesFit(a + b) <==> FramesFit(a) && FramesFit(b)
  {
    assert forall f :: f in a + b <==> f in a || f in b;
  }

  /** Reading the frame bytes of `frames` followed by anything gives back those frames. */
  lemma {:induction false} ReadFramesBytes(frames: seq<StoredFrame>, post: seq<byte>)
    requires FramesFit(frames)
    ensures ReadFrames(FramesBytes(frames) + post, |frames|) == (AsLoaded(frames), true)
    decreases |frames|
  {
    if frames != [] {
      var f := frames[0];
      var rest := frames[1..];
      assert frames == [f] + rest;
      FramesBytesAppend([f], rest);
      FramesBytesSnoc([], f);
      assert [] + [f] == [f];
      var more := FramesBytes(rest) + post;
      assert FramesBytes(frames) + post == FrameBytes(f) + more;
      ReadOneFrame(f, more);
      ReadFramesBytes(rest, post);
    }
  }

  /** The fields of one frame are read back from its bytes, and reading goes on after them. */
  lemma ReadOneFrame(f: StoredFrame, more: seq<byte>)
    requires Fits(f)
    ensures var data := FrameBytes(f) + more;
      8 <= |data| && DecodeU32(data[..4]) == f.tick
      && var payload := Chunk(data, 8, DecodeU32(data[4..8]));
      payload == f.payload && data[8 + |payload|..] == more
  {
    var data := FrameBytes(f) + more;
    assert data[..4] == EncodeU32(f.tick);
    assert data[4..8] == EncodeU32(|f.payload|);
    assert data[8..8 + |f.payload|] == f.payload;
    assert data[8 + |f.payload|..] == more;
    DecodeEncodeU32(f.tick);
    DecodeEncodeU32(|f.payload|);
  }

  /**
   * Round trip: reading the bytes written for a map name without NUL bytes
   * gives back the tick rate, the map name and the frames, in order, each
   * without its timestamp.
   */
  lemma LoadWritten(version: int, tickRate: int, mapName: seq<byte>, frames: seq<StoredFrame>)
    requires IsU32(version) && IsU32(tickRate) && IsU32(|frames|) && FramesFit(frames)
    requires forall i :: 0 <= i < |mapName| ==> mapName[i] != 0
    ensures ReadDemo(DemoBytes(version, tickRate, mapName, frames)) == Loaded(tickRate, mapName, AsLoaded(frames))
  {
    DecodeEncodeU32(tickRate);
    DecodeEncodeU32(|frames|);
    ReadFramesBytes(frames, []);
    assert FramesBytes(frames) + [] == FramesBytes(frames);
    ReadLayout(EncodeU32(version), EncodeU32(tickRate), mapName, EncodeU32(|frames|), FramesBytes(frames), AsLoaded(frames));
  }

  /** Reading a file laid out as `_write_demo_file` lays it out, whatever the field values. */
  lemma ReadLayout(version: seq<byte>, rate: seq<byte>, name: seq<byte>, count: seq<byte>, rest: seq<byte>,
                   frames: seq<Entry>)
    requires |version| == 4 && |rate| == 4 && |count| == 4
    requires forall i :: 0 <= i < |name| ==> name[i] != 0
    requires ReadFrames(rest, DecodeU32(count)) == (frames, true)
    ensures ReadDemo(Magic + version + rate + name + [0] + count + rest) == Loaded(DecodeU32(rate), name, frames)
  {
    var data := Magic + version + rate + name + [0] + count + rest;
    var k := 12 + |name|;
    Fields(Magic, version, rate, name, count, rest);
    NulAt(data, 12, k);
  }

  /**
   * Where each field of a demo file lies: the magic, the version, the tick
   * rate, the name, its NUL, the count and the frames.
   */
  lemma Fields(magic: seq<byte>, version: seq<byte>, rate: seq<byte>, name: seq<byte>, count: seq<byte>, frames: seq<byte>)
    requires |magic| == 4 && |version| == 4 && |rate| == 4 && |count| == 4
    ensures var data := magic + version + rate + name + [0] + count + frames; var k := 12 + |name|;
      |data| == k + 5 + |frames| && data[..4] == magic && data[8..12] == rate
      && data[12..k] == name && data[k] == 0 && data[k + 1..k + 5] == count && data[k + 5..] == frames
      && forall i :: 12 <= i < k ==> data[i] == name[i - 12]
  {
  }

  /** With no NUL from `o` up to a NUL at `k`, the first NUL from `o` is at `k`. */
  lemma {:induction false} NulAt(data: seq<byte>, o: int, k: int)
    requires 0 <= o <= k < |data| && data[k] == 0
    requires forall i :: o <= i < k ==> data[i] != 0
    ensures NulFrom(data, o) == k
    decreases k - o
  {
    if o < k {
      NulAt(data, o + 1, k);
    }
  }

  /** Ticks strictly increase along the entries. */
  predicate Chronological(entries: seq<Entry>)
  {
    forall i, j :: 0 <= i < j < |entries| ==> entries[i].tick < entries[j].tick
  }

  /** The largest tick among the frames, if there is a frame. */
  function MaxTick(frames: seq<StoredFrame>): Option<int>
  {
    if frames == [] then None
    else
      var m := MaxTick(frames[..|frames| - 1]);
      var t := frames[|frames| - 1].tick;
      if m.Some? && m.value >= t then m else Some(t)
  }

  /** `MaxTick` is the tick of one of the frames and no frame's tick exceeds it; it is absent exactly without frames. */
  lemma {:induction false} MaxTickIsMax(frames: seq<StoredFrame>)
    ensures MaxTick(frames).None? <==> frames == []
    ensures MaxTick(frames).Some? ==> exists i :: 0 <= i < |frames| && frames[i].tick == MaxTick(frames).value
    ensures MaxTick(frames).Some? ==> forall i :: 0 <= i < |frames| ==> frames[i].tick <= MaxTick(frames).value
  {
    if frames != [] {
      var init := frames[..|frames| - 1];
      MaxTickIsMax(init);
      var m := MaxTick(frames).value;
      if MaxTick(init).Some? && MaxTick(init).value >= frames[|frames| - 1].tick {
        var j :| 0 <= j < |init| && init[j].tick == m;
        assert frames[j].tick == m;
        assert forall i :: 0 <= i < |init| ==> init[i] == frames[i];
      } else {
        assert frames[|frames| - 1].tick == m;
        assert forall i :: 0 <= i < |init| ==> init[i] == frames[i];
      }
    }
  }

  /** What `get_demo_info` reports about loaded or recorded data. */
  datatype DemoInfo = DemoInfo(filename: string, mapName: seq<byte>, gameType: string, tickRate: int,
                               totalTicks: int, duration: real, frameCount: int)

  /** What `stop_recording` saved: nothing when not recording, the file's bytes, or a failed pack. */
  datatype Saved = NothingSaved | Written(bytes: seq<byte>) | PackFailed

  /** `DemoRecorder`. */
  class DemoRecorder {
    var recording: bool
    var playing: bool
    var demoData: seq<Entry>
    var currentTick: int
    var startTime: real
    var filename: string
    const demoVersion: int
    var mapName: seq<byte>
    var gameType: string
    var tickRate: int

    /** The cursor is never negative. */
    ghost predicate Valid()
      reads this
    {
      0 <= currentTick && demoVersion == 3
    }

    /** A recorder with nothing recorded, version 3 and 50 ticks per second. */
    constructor ()
      ensures Valid() && !recording && !playing && demoData == [] && currentTick == 0
      ensures startTime == 0.0 && filename == "" && mapName == [] && gameType == "DM" && tickRate == 50
    {
      recording, playing, demoData, currentTick := false, false, [], 0;
      startTime, filename := 0.0, "";
      demoVersion := 3;
      mapName, gameType, tickRate := [], "DM", 50;
    }

    /** `start_recording`: the data restarts with one header entry at tick 0. */
    method StartRecording(filename: string, mapName: seq<byte>, gameType: string, now: real)
      requires Valid()
      modifies this
      ensures Valid() && recording && currentTick == 0 && startTime == now
      ensures this.filename == filename && this.mapName == mapName && this.gameType == gameType
      ensures demoData == [Header(0, mapName, gameType, tickRate)] && Chronological(demoData)
      ensures playing == old(playing) && tickRate == old(tickRate)
    {
      this.filename, this.mapName, this.gameType := filename, mapName, gameType;
      recording := true;
      demoData := [];
      startTime := now;
      currentTick := 0;
      demoData := demoData + [Header(0, mapName, gameType, tickRate)];
    }

    /**
     * `record_frame`: while recording, the tick advances by one and a frame
     * with that tick is appended; otherwise nothing happens. Data whose
     * ticks increase up to the current tick keeps increasing.
     */
    method RecordFrame(gameState: seq<byte>, now: real)
      requires Valid()
      modifies this
      ensures Valid()
      ensures !old(recording) ==> demoData == old(demoData) && currentTick == old(currentTick)
      ensures old(recording) ==> currentTick == old(currentTick) + 1
      ensures old(recording) ==> demoData == old(demoData) + [Frame(currentTick, Some(now - startTime), gameState)]
      ensures old(Chronological(demoData) && (demoData != [] ==> demoData[|demoData| - 1].tick <= currentTick))
        ==> Chronological(demoData) && (demoData != [] ==> demoData[|demoData| - 1].tick <= currentTick)
      ensures recording == old(recording) && playing == old(playing) && startTime == old(startTime)
    {
      if recording {
        AppendKeepsOrder(demoData, currentTick, Frame(currentTick + 1, Some(now - startTime), gameState));
        currentTick := currentTick + 1;
        demoData := demoData + [Frame(currentTick, Some(now - startTime), gameState)];
      }
    }

    /** `record_event`: like `record_frame`, with an event entry. */
    method RecordEvent(eventType: string, eventData: seq<byte>, now: real)
      requires Valid()
      modifies this
      ensures Valid()
      ensures !old(recording) ==> demoData == old(demoData) && currentTick == old(currentTick)
      ensures old(recording) ==> currentTick == old(currentTick) + 1
      ensures old(recording) ==> demoData == old(demoData) + [Event(currentTick, eventType, eventData, Some(now - startTime))]
      ensures old(Chronological(demoData) && (demoData != [] ==> demoData[|demoData| - 1].tick <= currentTick))
        ==> Chronological(demoData) && (demoData != [] ==> demoData[|demoData| - 1].tick <= currentTick)
      ensures recording == old(recording) && playing == old(playing) && startTime == old(startTime)
    {
      if recording {
        AppendKeepsOrder(demoData, currentTick, Event(currentTick + 1, eventType, eventData, Some(now - startTime)));
        currentTick := currentTick + 1;
        demoData := demoData + [Event(currentTick, eventType, eventData, Some(now - startTime))];
      }
    }

    /** `stop_recording`: while recording, recording stops and the file is written. */
    method StopRecording() returns (saved: Saved)
      requires Valid()
      modifies this
      ensures Valid() && !recording && demoData == old(demoData) && currentTick == old(currentTick)
      ensures playing == old(playing) && tickRate == old(tickRate) && mapName == old(mapName)
      ensures !old(recording) <==> saved.NothingSaved?
      ensures old(recording) ==> saved == WriteDemo(demoVersion, tickRate, mapName, demoData)
    {
      if !recording {
        return NothingSaved;
      }
      recording := false;
      saved := WriteDemoFile(demoVersion, tickRate, mapName, demoData);
    }

    /**
     * `_write_demo_file`: the header, the frame count and every frame in
     * order; a value too large for its 32-bit field makes the write fail.
     */
    static method WriteDemoFile(version: int, tickRate: int, mapName: seq<byte>, entries: seq<Entry>)
      returns (saved: Saved)
      requires IsU32(version)
      ensures saved == WriteDemo(version, tickRate, mapName, entries)
    {
      if !IsU32(tickRate) {
        return PackFailed;
      }
      var frameCount := |FramesOf(entries)|;
      if !IsU32(frameCount) {
        return PackFailed;
      }
      var out := Magic + EncodeU32(version) + EncodeU32(tickRate) + mapName + [0] + EncodeU32(frameCount);
      var written := WriteFrames(entries);
      if written.None? {
        return PackFailed;
      }
      return Written(out + written.value);
    }

    /** The frame part of the file: each frame's tick, length and payload, in order. */
    static method WriteFrames(entries: seq<Entry>) returns (r: Option<seq<byte>>)
      ensures r.Some? <==> FramesFit(FramesOf(entries))
      ensures r.Some? ==> r.value == FramesBytes(FramesOf(entries))
    {
      var out: seq<byte> := [];
      for i := 0 to |entries|
        invariant FramesFit(FramesOf(entries[..i]))
        invariant out == FramesBytes(FramesOf(entries[..i]))
      {
        var e := entries[i];
        if e.Frame? && !(IsU32(e.tick) && IsU32(|e.gameState|)) {
          FrameIsStored(entries, i);
          return None;
        }
        WriteStep(entries, i);
        if e.Frame? {
          out := out + FrameBytes(StoredFrame(e.tick, e.gameState));
        }
      }
      assert entries[..|entries|] == entries;
      return Some(out);
    }

    /**
     * `load_demo`: a file that cannot be opened is refused and changes
     * nothing; so is one rejected before its frames; frames cut short are
     * refused after the data was already replaced by the frames read
     * before; a complete file replaces the data, the name, the map name and
     * the tick rate and rewinds the cursor.
     */
    method LoadDemo(filename: string, file: Option<seq<byte>>) returns (ok: bool)
      requires Valid()
      modifies this
      ensures Valid() && recording == old(recording) && playing == old(playing) && gameType == old(gameType)
      ensures file.None? ==> (!ok && demoData == old(demoData) && mapName == old(mapName) && tickRate == old(tickRate)
                              && currentTick == old(currentTick))
      ensures file.Some? ==> match ReadDemo(file.value)
        case Rejected => (!ok && demoData == old(demoData) && mapName == old(mapName) && tickRate == old(tickRate)
                          && currentTick == old(currentTick) && this.filename == old(this.filename))
        case FramesCut(frames) => (!ok && demoData == frames && mapName == old(mapName) && tickRate == old(tickRate)
                                   && currentTick == old(currentTick) && this.filename == old(this.filename))
        case Loaded(rate, name, frames) => (ok && demoData == frames && mapName == name && tickRate == rate
                                            && this.filename == filename && currentTick == 0)
    {
      if file.None? {
        return false;
      }
      var r := ParseDemo(file.value);
      if r.Rejected? {
        return false;
      }
      demoData := r.frames;
      if r.FramesCut? {
        return false;
      }
      this.filename, mapName, tickRate, currentTick := filename, r.mapName, r.tickRate, 0;
      return true;
    }

    /** `start_playback`: with data, playing starts from the first entry. */
    method StartPlayback()
      requires Valid()
      modifies this
      ensures Valid() && demoData == old(demoData) && recording == old(recording)
      ensures demoData != [] ==> playing && currentTick == 0
      ensures demoData == [] ==> playing == old(playing) && currentTick == old(currentTick)
    {
      if demoData != [] {
        playing, currentTick := true, 0;
      }
    }

    /** `stop_playback`. */
    method StopPlayback()
      requires Valid()
      modifies this
      ensures Valid() && !playing && demoData == old(demoData) && currentTick == old(currentTick)
    {
      playing := false;
    }

    /** `get_next_frame`: while playing and not past the end, the entry at the cursor, which moves on by one. */
    method GetNextFrame() returns (r: Option<Entry>)
      requires Valid()
      modifies this
      ensures Valid() && demoData == old(demoData) && playing == old(playing)
      ensures r.Some? <==> old(playing) && old(currentTick) < |demoData|
      ensures r.Some? ==> r.value == demoData[old(currentTick)] && currentTick == old(currentTick) + 1
      ensures r.None? ==> currentTick == old(currentTick)
    {
      if playing && currentTick < |demoData| {
        r := Some(demoData[currentTick]);
        currentTick := currentTick + 1;
        return;
      }
      return None;
    }

    /**
     * `seek_to_tick`: the cursor moves to the first frame at or after
     * `tick`; without such a frame it stays.
     */
    method SeekToTick(tick: int)
      requires Valid()
      modifies this
      ensures Valid() && demoData == old(demoData) && playing == old(playing)
      ensures (forall i :: 0 <= i < |demoData| ==> !AtOrAfter(demoData[i], tick)) ==> currentTick == old(currentTick)
      ensures (exists i :: 0 <= i < |demoData| && AtOrAfter(demoData[i], tick)) ==>
        currentTick < |demoData| && AtOrAfter(demoData[currentTick], tick)
        && forall j :: 0 <= j < currentTick ==> !AtOrAfter(demoData[j], tick)
    {
      for i := 0 to |demoData|
        invariant forall j :: 0 <= j < i ==> !AtOrAfter(demoData[j], tick)
        invariant currentTick == old(currentTick)
      {
        if AtOrAfter(demoData[i], tick) {
          currentTick := i;
          return;
        }
      }
    }

    /**
     * `get_demo_info`: nothing without data; otherwise the largest frame
     * tick, the number of frames, and the duration in seconds, which is 0
     * for a tick rate that is not positive.
     */
    function GetDemoInfo(): (r: Option<DemoInfo>)
      reads this
      ensures r.None? <==> demoData == []
      ensures r.Some? ==> r.value.totalTicks == MaxTick(FramesOf(demoData)).GetOr(0)
      ensures r.Some? ==> r.value.frameCount == |FramesOf(demoData)|
      ensures r.Some? ==> r.value.tickRate == tickRate && r.value.mapName == mapName && r.value.filename == filename
      ensures r.Some? ==> r.value.gameType == gameType
      ensures r.Some? && tickRate > 0 ==> r.value.duration * tickRate as real == r.value.totalTicks as real
      ensures r.Some? && tickRate <= 0 ==> r.value.duration == 0.0
    {
      if demoData == [] then None
      else
        var total := MaxTick(FramesOf(demoData)).GetOr(0);
        Some(DemoInfo(filename, mapName, gameType, tickRate, total,
                      if tickRate > 0 then total as real / tickRate as real else 0.0, |FramesOf(demoData)|))
    }
  }

  /** What `_write_demo_file` produces for the recorded entries. */
  function WriteDemo(version: int, tickRate: int, mapName: seq<byte>, entries: seq<Entry>): (r: Saved)
    requires IsU32(version)
    ensures !r.NothingSaved?
    ensures r.Written? <==> IsU32(tickRate) && IsU32(|FramesOf(entries)|) && FramesFit(FramesOf(entries))
  {
    var frames := FramesOf(entries);
    if IsU32(tickRate) && IsU32(|frames|) && FramesFit(frames)
    then Written(DemoBytes(version, tickRate, mapName, frames))
    else PackFailed
  }

  /**
   * Round trip of a recording: the file written for entries whose map name
   * has no NUL byte reads back as its tick rate, its map name and its
   * frames, in order, without their timestamps.
   */
  lemma LoadRecorded(version: int, tickRate: int, mapName: seq<byte>, entries: seq<Entry>)
    requires IsU32(version)
    requires forall i :: 0 <= i < |mapName| ==> mapName[i] != 0
    ensures var r := WriteDemo(version, tickRate, mapName, entries);
      r.Written? ==> ReadDemo(r.bytes) == Loaded(tickRate, mapName, AsLoaded(FramesOf(entries)))
  {
    if WriteDemo(version, tickRate, mapName, entries).Written? {
      LoadWritten(version, tickRate, mapName, FramesOf(entries));
    }
  }

  /** The reading of `load_demo`, step by step as the file is read. */
  method ParseDemo(data: seq<byte>) returns (r: LoadResult)
    ensures r == ReadDemo(data)
  {
    var magic := Chunk(data, 0, 4);
    var pos := |magic|;
    if magic != Magic {
      return Rejected;
    }
    var versionBytes := Chunk(data, pos, 4);
    if |versionBytes| != 4 {
      return Rejected;
    }
    pos := pos + 4;
    var rateBytes := Chunk(data, pos, 4);
    if |rateBytes| != 4 {
      return Rejected;
    }
    pos := pos + 4;
    assert rateBytes == data[8..12];
    var name;
    name, pos := ReadName(data, pos);
    var countBytes := Chunk(data, pos, 4);
    if |countBytes| != 4 {
      return Rejected;
    }
    pos := pos + 4;
    var frames, complete := ReadFramesLoop(data[pos..], DecodeU32(countBytes));
    if !complete {
      return FramesCut(frames);
    }
    return Loaded(DecodeU32(rateBytes), name, frames);
  }

  /** The map name loop of `load_demo`: bytes up to a NUL, which is consumed, or to the end of the file. */
  method ReadName(data: seq<byte>, start: int) returns (name: seq<byte>, pos: int)
    requires 0 <= start <= |data|
    ensures var k := NulFrom(data, start); name == data[start..k] && pos == (if k < |data| then k + 1 else k)
  {
    name, pos := [], start;
    while true
      invariant start <= pos <= |data| && NulFrom(data, start) == NulFrom(data, pos) && name == data[start..pos]
      decreases |data| - pos
    {
      var b := Chunk(data, pos, 1);
      if b == [] || b == [0] {
        pos := pos + |b|;
        return;
      }
      pos := pos + 1;
      name := name + b;
    }
  }

  /** The frame loop of `load_demo`: `count` frames read one after another. */
  method ReadFramesLoop(data: seq<byte>, count: nat) returns (frames: seq<Entry>, complete: bool)
    ensures (frames, complete) == ReadFrames(data, count)
  {
    frames := [];
    var pos := 0;
    assert data[pos..] == data;
    for i := 0 to count
      invariant 0 <= pos <= |data|
      invariant ReadFrames(data, count) == Joined(frames, ReadFrames(data[pos..], count - i))
    {
      var rest := data[pos..];
      if |Chunk(rest, 0, 4)| != 4 || |Chunk(rest, 4, 4)| != 4 {
        assert ReadFrames(rest, count - i) == ([], false);
        assert frames + [] == frames;
        return frames, false;
      }
      var payload := Chunk(rest, 8, DecodeU32(Chunk(rest, 4, 4)));
      JoinedStep(frames, Frame(DecodeU32(Chunk(rest, 0, 4)), None, payload), ReadFrames(rest[8 + |payload|..], count - i - 1));
      frames := frames + [Frame(DecodeU32(Chunk(rest, 0, 4)), None, payload)];
      assert rest[8 + |payload|..] == data[pos + 8 + |payload|..];
      pos := pos + 8 + |payload|;
    }
    assert ReadFrames(data[pos..], 0) == ([], true);
    assert frames + [] == frames;
    return frames, true;
  }

  /** Frames already read followed by what reading the rest gives. */
  function Joined(frames: seq<Entry>, rest: (seq<Entry>, bool)): (r: (seq<Entry>, bool))
    ensures |r.0| == |frames| + |rest.0| && r.0[..|frames|] == frames && r.1 == rest.1
  {
    (frames + rest.0, rest.1)
  }

  /** Moving one frame from the rest to the frames read keeps the join. */
  lemma JoinedStep(frames: seq<Entry>, e: Entry, rest: (seq<Entry>, bool))
    ensures Joined(frames, ([e] + rest.0, rest.1)) == Joined(frames + [e], rest)
  {
    assert frames + ([e] + rest.0) == frames + [e] + rest.0;
  }

  /** The entry is a frame at or after `tick`. */
  predicate AtOrAfter(e: Entry, tick: int)
  {
    e.Frame? && e.tick >= tick
  }

  /** Appending an entry one tick after the current one keeps the ticks increasing. */
  lemma AppendKeepsOrder(entries: seq<Entry>, current: int, e: Entry)
    requires e.tick == current + 1
    ensures Chronological(entries) && (entries != [] ==> entries[|entries| - 1].tick <= current)
      ==> Chronological(entries + [e])
  {
    if Chronological(entries) && (entries != [] ==> entries[|entries| - 1].tick <= current) {
      var s := entries + [e];
      forall i, j | 0 <= i < j < |s| ensures s[i].tick < s[j].tick {
        if j == |entries| && i < |entries| - 1 {
          assert entries[i].tick < entries[|entries| - 1].tick;
        }
      }
    }
  }

  /** Writing one more entry appends that entry's frame bytes, if it is a frame. */
  lemma WriteStep(entries: seq<Entry>, i: int)
    requires 0 <= i < |entries| && FramesFit(FramesOf(entries[..i]))
    requires entries[i].Frame? ==> IsU32(entries[i].tick) && IsU32(|entries[i].gameState|)
    ensures FramesFit(FramesOf(entries[..i + 1]))
    ensures var e := entries[i];
      FramesBytes(FramesOf(entries[..i + 1]))
      == FramesBytes(FramesOf(entries[..i])) + (if e.Frame? then FrameBytes(StoredFrame(e.tick, e.gameState)) else [])
  {
    FramesOfStep(entries, i);
    var e := entries[i];
    if e.Frame? {
      FramesBytesSnoc(FramesOf(entries[..i]), StoredFrame(e.tick, e.gameState));
    } else {
      assert FramesOf(entries[..i + 1]) == FramesOf(entries[..i]);
    }
  }

  /** The frames of one more entry: that entry's frame, if it is one, after the others. */
  lemma FramesOfStep(entries: seq<Entry>, i: int)
    requires 0 <= i < |entries|
    ensures var e := entries[i];
      FramesOf(entries[..i + 1]) == FramesOf(entries[..i]) + (if e.Frame? then [StoredFrame(e.tick, e.gameState)] else [])
  {
    assert entries[..i + 1][..i] == entries[..i];
  }

  /** Every frame entry appears among the stored frames. */
  lemma {:induction false} FrameIsStored(entries: seq<Entry>, k: int)
    requires 0 <= k < |entries| && entries[k].Frame?
    ensures StoredFrame(entries[k].tick, entries[k].gameState) in FramesOf(entries)
    decreases |entries|
  {
    if k < |entries| - 1 {
      var init := entries[..|entries| - 1];
      assert init[k] == entries[k];
      FrameIsStored(init, k);
    }
  }
}
