/**
 * Saved files cut short: include/trxreg/snapshot.hpp:38 promises the longest valid prefix, src/snapshot.cpp:706-714
 * does less.
 */
module SnapshotCuts {
  import opened Bytes
  import opened RegistryState
  import opened RegistryInvariant
  import opened Runs
  import opened RecordStream
  import opened SnapshotState
  import opened SnapshotRecovery
  import opened Snapshot
  import opened SnapshotTheorems

  // ----- The frames a cut leaves whole -----

  /** How many frames of a stream lie entirely in its first m bytes. */
  function WholeFrames(frames: seq<Frame>, m: int): (k: nat)
    ensures k <= |frames|
  {
    if frames == [] || m < |frames[0].payload| + 9 then 0
    else 1 + WholeFrames(frames[1..], m - (|frames[0].payload| + 9))
  }

  lemma {:induction false} WholeFramesExact(frames: seq<Frame>, m: nat)
    ensures var k := WholeFrames(frames, m);
      SizeOf(frames[..k]) <= m && (k < |frames| ==> m < SizeOf(frames[..k + 1]))
  {
    var k := WholeFrames(frames, m);
    if k > 0 {
      var f, rest := frames[0], frames[1..];
      WholeFramesExact(rest, m - (|f.payload| + 9));
      assert frames[..k] == [f] + rest[..k - 1];
      SizeFirst(f, rest[..k - 1]);
      if k < |frames| {
        assert frames[..k + 1] == [f] + rest[..k];
        SizeFirst(f, rest[..k]);
      }
    } else if frames != [] {
      assert frames[..1] == [frames[0]] + [];
      SizeFirst(frames[0], []);
    }
  }

  lemma WholeFramesAll(frames: seq<Frame>, m: nat)
    requires SizeOf(frames) <= m
    ensures WholeFrames(frames, m) == |frames|
  {
    var k := WholeFrames(frames, m);
    SizePrefix(frames, if k < |frames| then k + 1 else k);
    WholeFramesExact(frames, m);
  }

  lemma {:induction false} SizeSplit(a: seq<Frame>, b: seq<Frame>)
    ensures SizeOf(a + b) == SizeOf(a) + SizeOf(b)
  {
    if a == [] {
      assert a + b == b;
    } else {
      SizeSplit(a[1..], b);
      assert a + b == [a[0]] + (a[1..] + b);
      SizeFirst(a[0], a[1..] + b);
    }
  }

  lemma SizePrefix(frames: seq<Frame>, k: nat)
    requires k <= |frames|
    ensures SizeOf(frames[..k]) <= SizeOf(frames)
  {
    SizeSplit(frames[..k], frames[k..]);
    assert frames == frames[..k] + frames[k..];
  }

  /** A frame that is not all there is no frame. */
  lemma TruncatedFrame(before: seq<Byte>, f: Frame, m: nat, crc: Checksum)
    requires Fits(f) && m < |f.payload| + 9
    ensures m <= |FrameBytes(f, crc)|
    ensures NextFrame(before + FrameBytes(f, crc)[..m], |before|, crc) == None
  {
    var n := |f.payload| + 1;
    var region := before + FrameBytes(f, crc)[..m];
    if m >= 4 {
      assert FrameBytes(f, crc)[..4] == LittleEndian(|[f.kind] + f.payload|, 4);
      assert region[|before|..|before| + 4] == LittleEndian(n, 4);
      ScaleValues();
      LittleEndianRoundTrip(n, 4);
    }
  }

  lemma CutShape(frames: seq<Frame>, k: nat, m: nat, crc: Checksum)
    requires k < |frames| && SizeOf(frames[..k]) <= m < SizeOf(frames[..k + 1])
    ensures m <= |StreamBytes(frames, crc)|
    ensures var rest := m - SizeOf(frames[..k]);
      && rest < |frames[k].payload| + 9 && rest <= |FrameBytes(frames[k], crc)|
      && StreamBytes(frames, crc)[..m] == StreamBytes(frames[..k], crc) + FrameBytes(frames[k], crc)[..rest]
  {
    hide *;
    var a, f, b := frames[..k], frames[k], frames[k + 1..];
    assert frames == (a + [f]) + b && frames[..k + 1] == a + [f];
    SizeSplit(a, [f]);
    assert [f] + [] == [f];
    SizeFirst(f, []);
    FrameLength(f, crc);
    StreamSize(a, crc);
    StreamAppend(a + [f], b, crc);
    StreamLast(a, f, crc);
    PrefixOfJoined(StreamBytes(a, crc), FrameBytes(f, crc), StreamBytes(b, crc), m);
  }

  lemma PrefixOfJoined<T>(a: seq<T>, b: seq<T>, c: seq<T>, m: nat)
    requires |a| <= m <= |a| + |b|
    ensures (a + b + c)[..m] == a + b[..m - |a|]
  {
  }

  /** The frames that survive a cut of the stream are exactly those left whole. */
  lemma CutSurvivors(frames: seq<Frame>, m: nat, crc: Checksum)
    requires forall f :: f in frames ==> Fits(f)
    requires m <= |StreamBytes(frames, crc)|
    ensures GoodFrames(StreamBytes(frames, crc)[..m], 0, crc) == frames[..WholeFrames(frames, m)]
  {
    hide *;
    var k := WholeFrames(frames, m);
    WholeFramesExact(frames, m);
    StreamSize(frames, crc);
    if k == |frames| {
      assert frames[..k] == frames;
      assert StreamBytes(frames, crc)[..m] == StreamBytes(frames, crc);
      StreamRoundTrip(frames, crc);
    } else {
      CutShape(frames, k, m, crc);
      var rest := m - SizeOf(frames[..k]);
      var tail := FrameBytes(frames[k], crc)[..rest];
      var region := StreamBytes(frames[..k], crc) + tail;
      assert frames[k] in frames;
      TruncatedFrame(StreamBytes(frames[..k], crc), frames[k], rest, crc);
      StreamSize(frames[..k], crc);
      IntactPrefix([], frames[..k], tail, crc);
      assert [] + StreamBytes(frames[..k], crc) + tail == region;
      GoodStops(region, SizeOf(frames[..k]), crc);
      assert frames[..k] + [] == frames[..k];
    }
  }

  // ----- What parsing a cut file gives -----

  /** The parse handed over these frames, no more and no fewer. */
  ghost predicate Recovers(r: Result<Parsed>, frames: seq<Frame>, crc: Checksum) {
    r.Ok? && r.value.records == |frames| && r.value.accepted == StreamBytes(frames, crc)
  }

  /** A file shorter than its header declares gives back nothing at all. */
  lemma ShortFile(region: seq<Byte>, g: nat, nextSequence: nat, n: nat, o: Options, codec: Codec, crc: Checksum)
    requires |region| <= MAX_SNAPSHOT_BYTES - HEADER_BYTES && g < 0x1_0000_0000_0000_0000
    requires HEADER_BYTES + TRAILER_BYTES <= n < HEADER_BYTES + |region|
    ensures n <= |FileBytes(region, g, nextSequence, crc)|
    ensures ParseSnapshot(FileBytes(region, g, nextSequence, crc)[..n], o, codec, crc) ==
            if o.allowTailRecovery then Ok(Parsed(EMPTY_STATE, true, n - HEADER_BYTES, 0, [])) else Err(Corrupt)
  {
    hide FileBytes, FileHeader, ParseFrom, CheckTrailer;
    TrailerFields(region, g, nextSequence, crc);
    var file := FileBytes(region, g, nextSequence, crc);
    assert file[..n][..HEADER_BYTES] == file[..HEADER_BYTES];
    HeaderFields(file[..n], |region|, g);
  }

  /**
   * The documented promise broken: whole, intact frames are present in the cut file, and the parse reports every byte
   * behind the header as dropped and an empty registry.
   */
  lemma WholeFramesLost(frames: seq<Frame>, g: nat, nextSequence: nat, n: nat, o: Options, codec: Codec, crc: Checksum)
    requires forall f :: f in frames ==> Fits(f)
    requires |StreamBytes(frames, crc)| <= MAX_SNAPSHOT_BYTES - HEADER_BYTES && g < 0x1_0000_0000_0000_0000
    requires HEADER_BYTES + TRAILER_BYTES <= n < HEADER_BYTES + |StreamBytes(frames, crc)| && o.allowTailRecovery
    requires frames != [] && SizeOf(frames[..1]) <= n - HEADER_BYTES
    ensures var stream := StreamBytes(frames, crc);
      var file := FileBytes(stream, g, nextSequence, crc);
      && n <= |file|
      && ParseSnapshot(file[..n], o, codec, crc) == Ok(Parsed(EMPTY_STATE, true, n - HEADER_BYTES, 0, []))
      && GoodFrames(file[..n][HEADER_BYTES..], 0, crc) == frames[..WholeFrames(frames, n - HEADER_BYTES)] != []
  {
    hide Fits, StreamBytes, SizeOf, FileBytes, ParseSnapshot, GoodFrames, WholeFrames;
    var stream := StreamBytes(frames, crc);
    var m := n - HEADER_BYTES;
    ShortFile(stream, g, nextSequence, n, o, codec, crc);
    TrailerFields(stream, g, nextSequence, crc);
    CutRegion(FileBytes(stream, g, nextSequence, crc), stream, n);
    CutSurvivors(frames, m, crc);
    FirstIsWhole(frames, m);
  }

  /** One byte short inside the region: all frames but the last are whole, and none comes back. */
  lemma OneByteShort(frames: seq<Frame>, g: nat, nextSequence: nat, o: Options, codec: Codec, crc: Checksum)
    requires forall f :: f in frames ==> Fits(f)
    requires frames != [] && TRAILER_BYTES < |StreamBytes(frames, crc)| <= MAX_SNAPSHOT_BYTES - HEADER_BYTES
    requires g < 0x1_0000_0000_0000_0000 && o.allowTailRecovery
    ensures var stream := StreamBytes(frames, crc);
      var m := |stream| - 1;
      && WholeFrames(frames, m) == |frames| - 1
      && HEADER_BYTES + m <= |FileBytes(stream, g, nextSequence, crc)|
      && ParseSnapshot(FileBytes(stream, g, nextSequence, crc)[..HEADER_BYTES + m], o, codec, crc)
         == Ok(Parsed(EMPTY_STATE, true, m, 0, []))
  {
    hide FrameBytes, StreamBytes, SizeOf, WholeFrames, FileBytes, ParseSnapshot, Fits;
    var stream := StreamBytes(frames, crc);
    var m := |stream| - 1;
    ShortFile(stream, g, nextSequence, HEADER_BYTES + m, o, codec, crc);
    StreamSize(frames, crc);
    WholeFramesExact(frames, m);
    var k := WholeFrames(frames, m);
    assert frames[..|frames|] == frames;
    if k < |frames| - 1 {
      var a, f := frames[..|frames| - 1], frames[|frames| - 1];
      assert frames == a + [f];
      SizeSplit(a, [f]);
      OneFrameSize(f);
      assert a[..k + 1] == frames[..k + 1];
      SizePrefix(a, k + 1);
    }
  }

  lemma OneFrameSize(f: Frame)
    ensures SizeOf([f]) == |f.payload| + 9
  {
    assert [f] == [f] + [];
    SizeFirst(f, []);
  }

  lemma FirstIsWhole(frames: seq<Frame>, m: nat)
    requires frames != []
    ensures SizeOf(frames[..1]) <= m <==> WholeFrames(frames, m) > 0
  {
    assert frames[..1] == [frames[0]] + [];
    SizeFirst(frames[0], []);
  }

  lemma CutRegion(file: seq<Byte>, stream: seq<Byte>, n: nat)
    requires |file| >= HEADER_BYTES + |stream| && file[HEADER_BYTES..HEADER_BYTES + |stream|] == stream
    requires HEADER_BYTES <= n <= HEADER_BYTES + |stream|
    ensures file[..n][HEADER_BYTES..] == stream[..n - HEADER_BYTES]
  {
  }

  /** With the region whole the records all come back; only the trailer can be missing. */
  lemma CutBehindRegion(st: State, l: Listing, n: nat, o: Options, codec: Codec, crc: Checksum)
    requires Good(st) && st.nextSequence >= 1 && ListingOf(l, st) && o.allowTailRecovery
    requires Readable(codec, StateRecords(st, l)) && st.generation < 0x1_0000_0000_0000_0000
    requires var stream := StreamBytes(FramesOf(StateRecords(st, l), codec), crc);
      && |stream| <= MAX_SNAPSHOT_BYTES - HEADER_BYTES
      && HEADER_BYTES + TRAILER_BYTES <= n && HEADER_BYTES + |stream| <= n < HEADER_BYTES + |stream| + TRAILER_BYTES
    ensures var stream := StreamBytes(FramesOf(StateRecords(st, l), codec), crc);
      var file := FileBytes(stream, st.generation, st.nextSequence, crc);
      && n <= |file|
      && ParseSnapshot(file[..n], o, codec, crc)
         == Ok(Parsed(st, true, n - HEADER_BYTES - |stream|, 1 + Total(st, l), stream))
  {
    hide *;
    RecordsShape(st, l);
    GoodMeans(st);
    TargetsOf(st, st.nextSequence);
    var stream := StreamBytes(FramesOf(StateRecords(st, l), codec), crc);
    StrictParse(stream, st, l, true, codec, crc);
    TrailerFields(stream, st.generation, st.nextSequence, crc);
    var file := FileBytes(stream, st.generation, st.nextSequence, crc);
    TrailerCut(file[..n], stream, o, codec, crc, Parsed(st, false, 0, 1 + Total(st, l), stream));
  }

  lemma TrailerCut(file: seq<Byte>, region: seq<Byte>, o: Options, codec: Codec, crc: Checksum, p: Parsed)
    requires |region| <= MAX_SNAPSHOT_BYTES - HEADER_BYTES && p.state.generation < 0x1_0000_0000_0000_0000
    requires |file| >= HEADER_BYTES + TRAILER_BYTES && o.allowTailRecovery
    requires HEADER_BYTES + |region| <= |file| < HEADER_BYTES + |region| + TRAILER_BYTES
    requires file[..HEADER_BYTES] == FileHeader(|region|, p.state.generation)
    requires file[HEADER_BYTES..HEADER_BYTES + |region|] == region
    requires ParseFrom(region, 0, Parsed(EMPTY_STATE.(generation := p.state.generation), false, 0, 0, []),
                       p.state.generation, true, codec, crc) == Ok(p)
    requires !p.recovered
    ensures ParseSnapshot(file, o, codec, crc) == Ok(p.(recovered := true, dropped := |file| - HEADER_BYTES - |region|))
  {
    hide ParseFrom, FileHeader;
    HeaderFields(file, |region|, p.state.generation);
  }

  /**
   * When a cut file does give back the frames it still holds, tail recovery on: exactly when the record region is at
   * its declared length, or no frame is left whole anyway. Anything shorter than header and trailer together is
   * refused.
   */
  lemma CutRecoversExactly(st: State, l: Listing, n: nat, o: Options, codec: Codec, crc: Checksum)
    requires Good(st) && st.nextSequence >= 1 && ListingOf(l, st) && o.allowTailRecovery
    requires Readable(codec, StateRecords(st, l)) && st.generation < 0x1_0000_0000_0000_0000
    requires |StreamBytes(FramesOf(StateRecords(st, l), codec), crc)| <= MAX_SNAPSHOT_BYTES - HEADER_BYTES
    requires n <= |FileBytes(StreamBytes(FramesOf(StateRecords(st, l), codec), crc), st.generation, st.nextSequence,
                             crc)|
    ensures var frames := FramesOf(StateRecords(st, l), codec);
      var stream := StreamBytes(frames, crc);
      var whole := frames[..WholeFrames(frames, n - HEADER_BYTES)];
      var r := ParseSnapshot(FileBytes(stream, st.generation, st.nextSequence, crc)[..n], o, codec, crc);
      && (Recovers(r, whole, crc) <==>
          n >= HEADER_BYTES + TRAILER_BYTES && (n >= HEADER_BYTES + |stream| || whole == []))
      && (r.Ok? && n >= HEADER_BYTES + |stream| ==> r.value.state == st)
  {
    hide *;
    var records := StateRecords(st, l);
    var frames := FramesOf(records, codec);
    var stream := StreamBytes(frames, crc);
    var file := FileBytes(stream, st.generation, st.nextSequence, crc);
    var m := n - HEADER_BYTES;
    TrailerFields(stream, st.generation, st.nextSequence, crc);
    RecordsShape(st, l);
    FramesLength(records, codec);
    StreamSize(frames, crc);
    if n < HEADER_BYTES + TRAILER_BYTES {
      TooShort(file[..n], o, codec, crc);
      RefusedRecoversNothing(frames[..WholeFrames(frames, m)], crc);
    } else if n < HEADER_BYTES + |stream| {
      ShortFile(stream, st.generation, st.nextSequence, n, o, codec, crc);
      EmptiedRecovers(frames[..WholeFrames(frames, m)], m, crc);
    } else {
      WholeFramesAll(frames, m);
      assert frames[..|frames|] == frames;
      if n < |file| {
        CutBehindRegion(st, l, n, o, codec, crc);
      } else {
        assert file[..n] == file;
        SaveParseRoundTrip(st, l, o, codec, crc);
      }
      WholeRecovers(ParseSnapshot(file[..n], o, codec, crc), frames, crc);
    }
  }

  lemma TooShort(file: seq<Byte>, o: Options, codec: Codec, crc: Checksum)
    requires |file| < HEADER_BYTES + TRAILER_BYTES
    ensures ParseSnapshot(file, o, codec, crc) == Err(Corrupt)
  {
  }

  lemma RefusedRecoversNothing(frames: seq<Frame>, crc: Checksum)
    ensures !Recovers(Err(Corrupt), frames, crc)
  {
  }

  lemma EmptiedRecovers(frames: seq<Frame>, m: nat, crc: Checksum)
    ensures Recovers(Ok(Parsed(EMPTY_STATE, true, m, 0, [])), frames, crc) <==> frames == []
  {
  }

  lemma WholeRecovers(r: Result<Parsed>, frames: seq<Frame>, crc: Checksum)
    requires r.Ok? && r.value.records == |frames| && r.value.accepted == StreamBytes(frames, crc)
    ensures Recovers(r, frames, crc)
  {
  }
}
