/** The framed record stream of src/snapshot.cpp:137-146, 718-820: length, kind, payload, checksum. */
module RecordStream {
  // The checksum is a parameter; what a record means is left to the caller.

  import opened Bytes

  type Checksum = seq<Byte> -> U32

  datatype Frame = Frame(kind: Byte, payload: seq<Byte>)

  const MAX_RECORD_BYTES := 0x100_0000

  /** append_record. */
  function FrameBytes(f: Frame, crc: Checksum): seq<Byte> {
    var body := [f.kind] + f.payload;
    LittleEndian(|body|, 4) + body + LittleEndian(crc(body), 4)
  }

  /** The reader accepts what it is prepared to hold. */
  predicate Fits(f: Frame) { |f.payload| + 1 <= MAX_RECORD_BYTES }

  function StreamBytes(frames: seq<Frame>, crc: Checksum): seq<Byte> {
    if frames == [] then [] else StreamBytes(frames[..|frames| - 1], crc) + FrameBytes(frames[|frames| - 1], crc)
  }

  method AppendRecord(out: seq<Byte>, f: Frame, crc: Checksum) returns (r: seq<Byte>)
    ensures r == out + FrameBytes(f, crc)
  {
    r := out + LittleEndian(|f.payload| + 1, 4);
    var body := [f.kind];
    body := body + f.payload;
    r := r + body;
    r := r + LittleEndian(crc(body), 4);
  }

  // ----- Reading one frame -----

  /** The four tests of the parse loop at a position: room, length, bounds, checksum. */
  function NextFrame(region: seq<Byte>, position: nat, crc: Checksum): Option<Frame>
    requires position <= |region|
  {
    if |region| - position < 4 then None
    else
      var length := FromLittleEndian(region[position..position + 4]);
      if length == 0 || length > MAX_RECORD_BYTES then None
      else
        var start := position + 4;
        if start + length + 4 > |region| then None
        else
          var body := region[start..start + length];
          if crc(body) != FromLittleEndian(region[start + length..start + length + 4]) then None
          else Some(Frame(body[0], body[1..]))
  }

  lemma FrameLength(f: Frame, crc: Checksum)
    ensures |FrameBytes(f, crc)| == |f.payload| + 9
  {
  }

  lemma NextFrameBytes(region: seq<Byte>, position: nat, crc: Checksum)
    requires position <= |region| && NextFrame(region, position, crc).Some?
    ensures var f := NextFrame(region, position, crc).value;
      && Fits(f) && position + |f.payload| + 9 <= |region|
      && region[position..position + |f.payload| + 9] == FrameBytes(f, crc)
  {
    var length := FromLittleEndian(region[position..position + 4]);
    var start := position + 4;
    var body := region[start..start + length];
    LittleEndianUnique(region[position..position + 4]);
    LittleEndianUnique(region[start + length..start + length + 4]);
    HeadAndTail(body);
    InThree(region, position, start, start + length, start + length + 4);
    assert region[position..start] == LittleEndian(length, 4);
  }

  lemma HeadAndTail<T>(s: seq<T>)
    requires s != []
    ensures s == [s[0]] + s[1..]
  {
  }

  lemma InThree<T>(s: seq<T>, a: nat, b: nat, c: nat, d: nat)
    requires a <= b <= c <= d <= |s|
    ensures s[a..d] == s[a..b] + s[b..c] + s[c..d]
  {
  }

  lemma InTwo<T>(s: seq<T>, a: nat, b: nat, c: nat)
    requires a <= b <= c <= |s|
    ensures s[a..c] == s[a..b] + s[b..c]
  {
  }

  lemma Associative<T>(a: seq<T>, b: seq<T>, c: seq<T>)
    ensures (a + b) + c == a + (b + c)
  {
  }

  /** A frame is read back exactly where it was written, whatever follows, if it is not too long. */
  lemma FrameRoundTrip(before: seq<Byte>, f: Frame, after: seq<Byte>, crc: Checksum)
    requires Fits(f)
    ensures NextFrame(before + FrameBytes(f, crc) + after, |before|, crc) == Some(f)
  {
    var body := [f.kind] + f.payload;
    var n := |body|;
    var region := before + FrameBytes(f, crc) + after;
    var p := |before|;
    assert region[p..p + 4] == LittleEndian(n, 4);
    assert region[p + 4..p + 4 + n] == body;
    assert region[p + 4 + n..p + 8 + n] == LittleEndian(crc(body), 4);
    ScaleValues();
    LittleEndianRoundTrip(n, 4);
    LittleEndianRoundTrip(crc(body), 4);
    assert body[1..] == f.payload;
  }

  // ----- The prefix that survives -----

  /** The frames from a position on, up to the first that fails a test. */
  function GoodFrames(region: seq<Byte>, position: nat, crc: Checksum): seq<Frame>
    requires position <= |region|
    decreases |region| - position
  {
    var next := NextFrame(region, position, crc);
    if next == None then []
    else
      NextFrameBytes(region, position, crc);
      [next.value] + GoodFrames(region, position + |next.value.payload| + 9, crc)
  }

  function SizeOf(frames: seq<Frame>): nat {
    if frames == [] then 0 else |frames[0].payload| + 9 + SizeOf(frames[1..])
  }

  lemma StreamLast(front: seq<Frame>, f: Frame, crc: Checksum)
    ensures StreamBytes(front + [f], crc) == StreamBytes(front, crc) + FrameBytes(f, crc)
    ensures StreamBytes([], crc) == []
  {
    hide FrameBytes;
    assert (front + [f])[..|front|] == front;
  }

  lemma {:induction false} StreamAppend(a: seq<Frame>, b: seq<Frame>, crc: Checksum)
    ensures StreamBytes(a + b, crc) == StreamBytes(a, crc) + StreamBytes(b, crc)
  {
    hide *;
    if b == [] {
      assert a + b == a;
      StreamLast([], Frame(0, []), crc);
    } else {
      var front, f := b[..|b| - 1], b[|b| - 1];
      assert b == front + [f];
      StreamAppend(a, front, crc);
      Associative(a, front, [f]);
      StreamLast(a + front, f, crc);
      StreamLast(front, f, crc);
      Associative(StreamBytes(a, crc), StreamBytes(front, crc), FrameBytes(f, crc));
    }
  }

  lemma StreamOne(f: Frame, crc: Checksum)
    ensures StreamBytes([f], crc) == FrameBytes(f, crc)
  {
    hide *;
    StreamLast([], f, crc);
    assert [] + [f] == [f];
  }

  lemma StreamFirst(f: Frame, rest: seq<Frame>, crc: Checksum)
    ensures StreamBytes([f] + rest, crc) == FrameBytes(f, crc) + StreamBytes(rest, crc)
  {
    hide *;
    StreamAppend([f], rest, crc);
    StreamOne(f, crc);
  }

  lemma SizeFirst(f: Frame, rest: seq<Frame>)
    ensures SizeOf([f] + rest) == |f.payload| + 9 + SizeOf(rest)
    ensures SizeOf([]) == 0
  {
    assert ([f] + rest)[1..] == rest;
  }

  lemma {:induction false} StreamSize(frames: seq<Frame>, crc: Checksum)
    ensures |StreamBytes(frames, crc)| == SizeOf(frames)
  {
    hide *;
    if frames == [] {
      StreamLast([], Frame(0, []), crc);
      SizeFirst(Frame(0, []), []);
    } else {
      HeadAndTail(frames);
      StreamSize(frames[1..], crc);
      StreamFirst(frames[0], frames[1..], crc);
      SizeFirst(frames[0], frames[1..]);
      FrameLength(frames[0], crc);
    }
  }

  lemma GoodStops(region: seq<Byte>, position: nat, crc: Checksum)
    requires position <= |region| && NextFrame(region, position, crc) == None
    ensures GoodFrames(region, position, crc) == []
  {
    hide NextFrame;
  }

  lemma GoodGoesOn(region: seq<Byte>, position: nat, crc: Checksum)
    requires position <= |region| && NextFrame(region, position, crc).Some?
    ensures var f := NextFrame(region, position, crc).value;
      && position + |f.payload| + 9 <= |region|
      && GoodFrames(region, position, crc) == [f] + GoodFrames(region, position + |f.payload| + 9, crc)
  {
    hide NextFrame, FrameBytes, Fits;
    NextFrameBytes(region, position, crc);
  }

  /** The surviving frames are exactly the accepted bytes, with no gap, and the next frame fails. */
  lemma {:induction false} GoodFramesExact(region: seq<Byte>, position: nat, crc: Checksum)
    requires position <= |region|
    ensures var good := GoodFrames(region, position, crc);
      var stop := position + SizeOf(good);
      && stop <= |region|
      && region[position..stop] == StreamBytes(good, crc)
      && NextFrame(region, stop, crc) == None
    decreases |region| - position
  {
    hide *;
    var next := NextFrame(region, position, crc);
    if next == None {
      GoodStops(region, position, crc);
      SizeFirst(Frame(0, []), []);
      StreamLast([], Frame(0, []), crc);
    } else {
      var f := next.value;
      var size := |f.payload| + 9;
      GoodGoesOn(region, position, crc);
      NextFrameBytes(region, position, crc);
      GoodFramesExact(region, position + size, crc);
      var rest := GoodFrames(region, position + size, crc);
      SizeFirst(f, rest);
      StreamFirst(f, rest, crc);
      InTwo(region, position, position + size, position + size + SizeOf(rest));
    }
  }

  /** Whatever follows an intact run of frames, the run is recovered and reading resumes behind it. */
  lemma {:induction false} IntactPrefix(before: seq<Byte>, frames: seq<Frame>, after: seq<Byte>, crc: Checksum)
    requires forall f :: f in frames ==> Fits(f)
    ensures var region := before + StreamBytes(frames, crc) + after;
      && |before| + SizeOf(frames) <= |region|
      && GoodFrames(region, |before|, crc) == frames + GoodFrames(region, |before| + SizeOf(frames), crc)
    decreases |frames|
  {
    hide *;
    var region := before + StreamBytes(frames, crc) + after;
    StreamSize(frames, crc);
    if frames == [] {
      SizeFirst(Frame(0, []), []);
    } else {
      var f, rest := frames[0], frames[1..];
      HeadAndTail(frames);
      assert f in frames;
      StreamFirst(f, rest, crc);
      SizeFirst(f, rest);
      FrameLength(f, crc);
      var frame, tail := FrameBytes(f, crc), StreamBytes(rest, crc);
      Associative(before, frame, tail);
      Associative(before + frame, tail, after);
      assert region == before + frame + (tail + after);
      FrameRoundTrip(before, f, tail + after, crc);
      GoodGoesOn(region, |before|, crc);
      IntactPrefix(before + frame, rest, after, crc);
      Associative([f], rest, GoodFrames(region, |before| + SizeOf(frames), crc));
    }
  }

  /** A whole saved stream is read back frame for frame. */
  lemma StreamRoundTrip(frames: seq<Frame>, crc: Checksum)
    requires forall f :: f in frames ==> Fits(f)
    ensures GoodFrames(StreamBytes(frames, crc), 0, crc) == frames
  {
    hide NextFrame, FrameBytes, Fits;
    IntactPrefix([], frames, [], crc);
    StreamSize(frames, crc);
    var region := StreamBytes(frames, crc);
    assert [] + region + [] == region;
    NothingMore(region, crc);
    assert frames + [] == frames;
  }

  lemma NothingMore(region: seq<Byte>, crc: Checksum)
    ensures GoodFrames(region, |region|, crc) == []
  {
  }

  /** A frame longer than the reader accepts is written but never read back: it ends the recovered stream. */
  lemma OversizedFrameEndsStream(before: seq<Byte>, f: Frame, after: seq<Byte>, crc: Checksum)
    requires MAX_RECORD_BYTES < |f.payload| + 1 < 0x1_0000_0000
    ensures NextFrame(before + FrameBytes(f, crc) + after, |before|, crc) == None
  {
    var region := before + FrameBytes(f, crc) + after;
    assert region[|before|..|before| + 4] == LittleEndian(|f.payload| + 1, 4);
    ScaleValues();
    LittleEndianRoundTrip(|f.payload| + 1, 4);
  }
}
