/** Round trip, crash recovery, and what a load may start from. */
module SnapshotTheorems {
  import opened Bytes
  import opened Ordering
  import A = Authority
  import opened Consensus
  import opened Lifecycle
  import opened Latch
  import opened Health
  import opened HealthReport
  import opened Trim
  import opened TrimAnswers
  import opened Samples
  import opened RegistryState
  import opened Mutations
  import opened RegistryInvariant
  import opened InvariantSteps
  import opened Runs
  import Reachable
  import opened RecordStream
  import opened SnapshotState
  import opened SnapshotRecovery
  import opened Snapshot

  // ----- The parse loop is a fold over the frames that survive -----

  lemma {:induction false} FoldFront(st: State, r: Record, rest: seq<Record>, g: nat)
    ensures Fold(st, [r] + rest, g) ==
            match Absorb(st, r, g)
            case Ok(next) => Fold(next, rest, g)
            case Err(code) => Err(code)
  {
    hide Absorb;
    if rest == [] {
      assert [r] + rest == [r];
      assert [r][..0] == [];
      assert Fold(st, [], g) == Ok(st);
      assert Fold(st, [r], g) == Absorb(st, r, g);
    } else {
      var front, last := rest[..|rest| - 1], rest[|rest| - 1];
      FoldFront(st, r, front, g);
      assert ([r] + rest)[..|rest|] == [r] + front;
    }
  }

  ghost predicate Decodes(codec: Codec, frames: seq<Frame>, records: seq<Record>) {
    && |records| == |frames|
    && forall i :: 0 <= i < |frames| ==> codec.decode(frames[i].kind, frames[i].payload) == Ok(records[i])
  }

  /** What the loop must answer once the surviving frames and their fold are known. */
  function Outcome(region: seq<Byte>, position: nat, stop: nat, p: Parsed, final: State, count: nat,
                   allowTail: bool): Result<Parsed>
    requires position <= stop <= |region|
  {
    var q := p.(state := final, records := p.records + count, accepted := p.accepted + region[position..stop]);
    if stop == |region| then Ok(q)
    else if allowTail then Ok(q.(recovered := true, dropped := |region| - stop))
    else Err(Corrupt)
  }

  lemma ParseStops(region: seq<Byte>, position: nat, p: Parsed, g: nat, allowTail: bool, codec: Codec, crc: Checksum)
    requires position <= |region| && NextFrame(region, position, crc) == None
    ensures ParseFrom(region, position, p, g, allowTail, codec, crc) ==
            Outcome(region, position, position, p, p.state, 0, allowTail)
  {
    hide NextFrame;
    assert p.accepted + region[position..position] == p.accepted;
  }

  /** The running result after one more frame. */
  function Taken(region: seq<Byte>, position: nat, size: nat, p: Parsed, state: State): Parsed
    requires position + size <= |region|
  {
    p.(state := state, records := p.records + 1, accepted := p.accepted + region[position..position + size])
  }

  lemma ParseGoesOn(region: seq<Byte>, position: nat, p: Parsed, g: nat, allowTail: bool, codec: Codec, crc: Checksum,
                    r: Record)
    requires position <= |region| && NextFrame(region, position, crc).Some?
    requires var f := NextFrame(region, position, crc).value; codec.decode(f.kind, f.payload) == Ok(r)
    requires Absorb(p.state, r, g).Ok?
    ensures var size := |NextFrame(region, position, crc).value.payload| + 9;
      && position + size <= |region|
      && ParseFrom(region, position, p, g, allowTail, codec, crc) ==
         ParseFrom(region, position + size, Taken(region, position, size, p, Absorb(p.state, r, g).value), g, allowTail,
                   codec, crc)
  {
    hide Absorb, FrameBytes, Fits;
    if position == |region| {
      AtTheEnd(region, crc);
    }
    hide NextFrame;
    NextFrameBytes(region, position, crc);
  }

  lemma OutcomeGoesOn(region: seq<Byte>, position: nat, size: nat, stop: nat, p: Parsed, state: State, final: State,
                      count: nat, allowTail: bool)
    requires position + size <= stop <= |region|
    ensures Outcome(region, position + size, stop, Taken(region, position, size, p, state), final, count, allowTail)
         == Outcome(region, position, stop, p, final, count + 1, allowTail)
  {
    assert region[position..stop] == region[position..position + size] + region[position + size..stop];
    var a, b, c := p.accepted, region[position..position + size], region[position + size..stop];
    assert (a + b) + c == a + (b + c);
  }

  lemma {:induction false} ParseIsFold(region: seq<Byte>, position: nat, p: Parsed, g: nat, allowTail: bool,
                                       codec: Codec, crc: Checksum, records: seq<Record>, final: State)
    requires position <= |region|
    requires Decodes(codec, GoodFrames(region, position, crc), records)
    requires Fold(p.state, records, g) == Ok(final)
    ensures position + SizeOf(GoodFrames(region, position, crc)) <= |region|
    ensures ParseFrom(region, position, p, g, allowTail, codec, crc) ==
            Outcome(region, position, position + SizeOf(GoodFrames(region, position, crc)), p, final, |records|,
                    allowTail)
    decreases |region| - position
  {
    hide NextFrame, Absorb, ParseFrom, Outcome, GoodFrames, SizeOf, Fold, Taken;
    var next := NextFrame(region, position, crc);
    if next == None {
      GoodStops(region, position, crc);
      SizeFirst(Frame(0, []), []);
      ParseStops(region, position, p, g, allowTail, codec, crc);
      FoldNothing(p.state, g);
    } else {
      GoodGoesOn(region, position, crc);
      var size := |next.value.payload| + 9;
      var rest := GoodFrames(region, position + size, crc);
      SizeFirst(next.value, rest);
      GoodFramesExact(region, position, crc);
      var good := GoodFrames(region, position, crc);
      assert good[0] == next.value && good[1..] == rest;
      var r, tail := records[0], records[1..];
      assert records == [r] + tail;
      FoldFront(p.state, r, tail, g);
      ParseGoesOn(region, position, p, g, allowTail, codec, crc, r);
      var state := Absorb(p.state, r, g).value;
      var q := Taken(region, position, size, p, state);
      assert q.state == state by { TakenState(region, position, size, p, state); }
      ParseIsFold(region, position + size, q, g, allowTail, codec, crc, tail, final);
      OutcomeGoesOn(region, position, size, position + SizeOf(good), p, state, final, |tail|, allowTail);
    }
  }

  lemma ParseRejects(region: seq<Byte>, position: nat, p: Parsed, g: nat, allowTail: bool, codec: Codec, crc: Checksum,
                     code: StatusCode)
    requires position <= |region| && NextFrame(region, position, crc).Some?
    requires var f := NextFrame(region, position, crc).value; codec.decode(f.kind, f.payload) == Err(code)
    ensures ParseFrom(region, position, p, g, allowTail, codec, crc) == Err(code)
  {
    hide FrameBytes, Fits;
    if position == |region| {
      AtTheEnd(region, crc);
    }
    hide NextFrame;
    NextFrameBytes(region, position, crc);
  }

  /** An intact frame whose payload does not decode fails the whole parse: no tail recovery helps. */
  lemma {:induction false} ParseFails(region: seq<Byte>, position: nat, p: Parsed, g: nat, allowTail: bool,
                                      codec: Codec, crc: Checksum, records: seq<Record>, code: StatusCode)
    requires position <= |region|
    requires var good := GoodFrames(region, position, crc);
      && |records| < |good| && Decodes(codec, good[..|records|], records)
      && codec.decode(good[|records|].kind, good[|records|].payload) == Err(code)
    requires Fold(p.state, records, g).Ok?
    ensures ParseFrom(region, position, p, g, allowTail, codec, crc) == Err(code)
    decreases |records|
  {
    hide NextFrame, Absorb, ParseFrom, GoodFrames, Fold, Taken;
    var next := NextFrame(region, position, crc);
    if next == None {
      GoodStops(region, position, crc);
      assert false;
    }
    GoodGoesOn(region, position, crc);
    var good := GoodFrames(region, position, crc);
    var size := |next.value.payload| + 9;
    if records == [] {
      ParseRejects(region, position, p, g, allowTail, codec, crc, code);
    } else {
      var r, tail := records[0], records[1..];
      assert records == [r] + tail;
      assert good[..|records|][0] == next.value && good[1..][..|tail|] == good[..|records|][1..];
      FoldFront(p.state, r, tail, g);
      ParseGoesOn(region, position, p, g, allowTail, codec, crc, r);
      var state := Absorb(p.state, r, g).value;
      TakenState(region, position, size, p, state);
      ParseFails(region, position + size, Taken(region, position, size, p, state), g, allowTail, codec, crc, tail,
                 code);
    }
  }

  lemma TakenState(region: seq<Byte>, position: nat, size: nat, p: Parsed, state: State)
    requires position + size <= |region|
    ensures Taken(region, position, size, p, state).state == state
  {
  }

  lemma FoldNothing(st: State, g: nat)
    ensures Fold(st, [], g) == Ok(st)
  {
  }

  lemma AtTheEnd(region: seq<Byte>, crc: Checksum)
    ensures NextFrame(region, |region|, crc) == None
  {
  }

  // ----- A saved stream -----

  /** The codec reproduces every record of this stream, and no record is longer than the reader accepts. */
  ghost predicate Readable(codec: Codec, records: seq<Record>) {
    forall r :: r in records ==>
      codec.decode(TagOf(r), codec.encode(r)) == Ok(r) && |codec.encode(r)| + 1 <= MAX_RECORD_BYTES
  }

  lemma ReadableFrames(codec: Codec, records: seq<Record>, k: nat)
    requires Readable(codec, records) && k <= |records|
    ensures var frames := FramesOf(records, codec)[..k];
      Decodes(codec, frames, records[..k]) && forall f :: f in frames ==> Fits(f)
  {
    var frames := FramesOf(records, codec)[..k];
    forall i | 0 <= i < k ensures codec.decode(frames[i].kind, frames[i].payload) == Ok(records[..k][i])
      && Fits(frames[i]) {
      assert records[i] in records;
      assert frames[i] == FrameOf(records[i], codec);
    }
  }

  /** The region begins with the first k frames, and what stands there next fails a frame test. */
  ghost predicate TornAfter(region: seq<Byte>, frames: seq<Frame>, k: nat, crc: Checksum)
    requires k <= |frames|
  {
    var size := SizeOf(frames[..k]);
    size <= |region| && region[..size] == StreamBytes(frames[..k], crc) && NextFrame(region, size, crc) == None
  }

  lemma TornFrames(region: seq<Byte>, frames: seq<Frame>, k: nat, crc: Checksum)
    requires k <= |frames| && TornAfter(region, frames, k, crc) && forall f :: f in frames[..k] ==> Fits(f)
    ensures GoodFrames(region, 0, crc) == frames[..k]
  {
    hide NextFrame, FrameBytes, Fits;
    var size := SizeOf(frames[..k]);
    IntactPrefix([], frames[..k], region[size..], crc);
    assert [] + StreamBytes(frames[..k], crc) + region[size..] == region;
    assert GoodFrames(region, size, crc) == [];
    assert frames[..k] + [] == frames[..k];
  }

  /** The state after the first k records of the stream; before the header it is an empty registry. */
  ghost function StateAfter(st: State, l: Listing, k: nat, g: nat): State
    requires ListingOf(l, st) && k <= 1 + Total(st, l)
  {
    if k == 0 then EMPTY_STATE.(generation := g)
    else
      ProgressIsOrdered(st, l, k - 1);
      Arrived(st, l, ProgressAt(st, l, k - 1), g)
  }

  lemma StateAfterFold(st: State, l: Listing, k: nat, g: nat, n: nat)
    requires Inv(st, n) && ListingOf(l, st) && k <= 1 + Total(st, l)
    ensures k <= |StateRecords(st, l)|
    ensures Fold(EMPTY_STATE.(generation := g), StateRecords(st, l)[..k], g) == Ok(StateAfter(st, l, k, g))
  {
    hide *;
    RecordsShape(st, l);
    if k == 0 {
      NothingFolded(st, l, g);
    } else {
      PrefixFold(EMPTY_STATE.(generation := g), st, l, g, n, k - 1);
      StateAfterSome(st, l, k, g);
    }
  }

  lemma NothingFolded(st: State, l: Listing, g: nat)
    requires ListingOf(l, st)
    ensures Fold(EMPTY_STATE.(generation := g), StateRecords(st, l)[..0], g) == Ok(StateAfter(st, l, 0, g))
  {
    hide ListingOf, StateRecords, Absorb;
    assert StateRecords(st, l)[..0] == [];
    FoldNothing(EMPTY_STATE.(generation := g), g);
  }

  lemma StateAfterSome(st: State, l: Listing, k: nat, g: nat)
    requires ListingOf(l, st) && 1 <= k <= 1 + Total(st, l)
    ensures Within(ProgressAt(st, l, k - 1), st, l)
    ensures StateAfter(st, l, k, g) == Arrived(st, l, ProgressAt(st, l, k - 1), g)
  {
    hide ListingOf, ProgressAt, Arrived, Total;
    ProgressIsOrdered(st, l, k - 1);
  }

  /**
   * Crash recovery of the record region: the parse is exactly the fold of the frames before the first bad one, the
   * accepted and dropped bytes cover the region, and the result satisfies the invariant with no dangling attachment.
   */
  lemma RegionRecovery(region: seq<Byte>, st: State, l: Listing, k: nat, g: nat, codec: Codec, crc: Checksum)
    requires Good(st) && st.nextSequence >= 1 && ListingOf(l, st) && k <= 1 + Total(st, l)
    requires Readable(codec, StateRecords(st, l))
    requires |StateRecords(st, l)| == 1 + Total(st, l)
    requires TornAfter(region, FramesOf(StateRecords(st, l), codec), k, crc)
    ensures var size := SizeOf(FramesOf(StateRecords(st, l), codec)[..k]);
      var recovered := StateAfter(st, l, k, g);
      && size <= |region|
      && ParseFrom(region, 0, Parsed(EMPTY_STATE.(generation := g), false, 0, 0, []), g, true, codec, crc)
         == Ok(Parsed(recovered, size < |region|, |region| - size, k, region[..size]))
      && Good(recovered) && SweepAttachments(recovered) == recovered
  {
    hide *;
    var records := StateRecords(st, l);
    var frames := FramesOf(records, codec);
    FramesLength(records, codec);
    ReadableFrames(codec, records, k);
    TornFrames(region, frames, k, crc);
    GoodMeans(st);
    StateAfterFold(st, l, k, g, st.nextSequence);
    var start := Parsed(EMPTY_STATE.(generation := g), false, 0, 0, []);
    ParseIsFold(region, 0, start, g, true, codec, crc, records[..k], StateAfter(st, l, k, g));
    OutcomeFromStart(region, SizeOf(frames[..k]), g, StateAfter(st, l, k, g), k);
    StateAfterGood(st, l, k, g);
  }

  lemma OutcomeFromStart(region: seq<Byte>, size: nat, g: nat, final: State, k: nat)
    requires size <= |region|
    ensures Outcome(region, 0, size, Parsed(EMPTY_STATE.(generation := g), false, 0, 0, []), final, k, true)
         == Ok(Parsed(final, size < |region|, |region| - size, k, region[..size]))
  {
    assert [] + region[0..size] == region[..size];
  }

  lemma FramesLength(records: seq<Record>, codec: Codec)
    ensures |FramesOf(records, codec)| == |records|
  {
  }

  lemma GoodMeans(st: State)
    requires Good(st)
    ensures Inv(st, st.nextSequence)
  {
  }

  lemma StateAfterGood(st: State, l: Listing, k: nat, g: nat)
    requires Good(st) && st.nextSequence >= 1 && ListingOf(l, st) && k <= 1 + Total(st, l)
    ensures Good(StateAfter(st, l, k, g)) && SweepAttachments(StateAfter(st, l, k, g)) == StateAfter(st, l, k, g)
    ensures StateAfter(st, l, k, g).nextSequence >= 1 && StateAfter(st, l, k, g).generation == g
  {
    hide Inv, ListingOf;
    if k == 0 {
      EmptyIsGood();
      InvIgnoresCounters(EMPTY_STATE, EMPTY_STATE.(generation := g), 1);
    } else {
      ProgressIsOrdered(st, l, k - 1);
      PartialKeepsInvariant(st, l, ProgressAt(st, l, k - 1), g, st.nextSequence);
    }
    SweepNothing(StateAfter(st, l, k, g), StateAfter(st, l, k, g).nextSequence);
  }

  /** Under the invariant no attachment dangles, so the sweep of a load removes nothing. */
  lemma SweepNothing(st: State, n: nat)
    requires Inv(st, n)
    ensures SweepAttachments(st) == st
  {
    hide RecordsOk, PortsOk, ThresholdsOk, RulesOk, SourcesOk, ModuleIndexOk;
    assert SweepAttachments(st).attachments == st.attachments;
  }

  // ----- The whole file -----

  lemma HeaderSlices(recordBytes: nat, g: nat)
    ensures var h := FileHeader(recordBytes, g);
      && h[0..8] == SNAPSHOT_MAGIC && h[8..10] == LittleEndian(FORMAT_VERSION, 2)
      && h[10..12] == LittleEndian(0, 2) && h[12..16] == LittleEndian(0, 4)
      && h[16..24] == LittleEndian(recordBytes, 8) && h[24..32] == LittleEndian(g, 8)
  {
    hide LittleEndian;
  }

  lemma PrefixSlice<T>(file: seq<T>, n: nat, i: nat, j: nat)
    requires i <= j <= n <= |file|
    ensures file[i..j] == file[..n][i..j]
  {
  }

  lemma HeaderFields(file: seq<Byte>, recordBytes: nat, g: nat)
    requires |file| >= HEADER_BYTES && file[..HEADER_BYTES] == FileHeader(recordBytes, g)
    requires recordBytes < 0x1_0000_0000_0000_0000 && g < 0x1_0000_0000_0000_0000
    ensures file[..8] == SNAPSHOT_MAGIC && FromLittleEndian(file[8..10]) == FORMAT_VERSION
    ensures FromLittleEndian(file[10..12]) == 0 && FromLittleEndian(file[12..16]) == 0
    ensures FromLittleEndian(file[16..24]) == recordBytes && FromLittleEndian(file[24..32]) == g
  {
    HeaderSlices(recordBytes, g);
    ScaleValues();
    LittleEndianRoundTrip(FORMAT_VERSION, 2);
    LittleEndianRoundTrip(0, 2);
    LittleEndianRoundTrip(0, 4);
    LittleEndianRoundTrip(recordBytes, 8);
    LittleEndianRoundTrip(g, 8);
    hide FileHeader, LittleEndian, FromLittleEndian, Scale;
    PrefixSlice(file, HEADER_BYTES, 0, 8);
    PrefixSlice(file, HEADER_BYTES, 8, 10);
    PrefixSlice(file, HEADER_BYTES, 10, 12);
    PrefixSlice(file, HEADER_BYTES, 12, 16);
    PrefixSlice(file, HEADER_BYTES, 16, 24);
    PrefixSlice(file, HEADER_BYTES, 24, 32);
    assert file[..8] == file[0..8];
  }

  /** A saved file, header whole and record region at full length, torn after the first k records. */
  ghost predicate TornFile(file: seq<Byte>, st: State, l: Listing, k: nat, codec: Codec, crc: Checksum)
    requires ListingOf(l, st)
  {
    var frames := FramesOf(StateRecords(st, l), codec);
    var stream := StreamBytes(frames, crc);
    && k <= |frames| && |stream| <= MAX_SNAPSHOT_BYTES - HEADER_BYTES
    && |file| >= HEADER_BYTES + |stream| && |file| >= HEADER_BYTES + TRAILER_BYTES
    && file[..HEADER_BYTES] == FileHeader(|stream|, st.generation)
    && TornAfter(file[HEADER_BYTES..HEADER_BYTES + |stream|], frames, k, crc)
    && SizeOf(frames[..k]) < |stream|
  }

  /**
   * A saved file torn inside its record region, header intact and region at full length: exactly the records before the
   * first bad frame are recovered, every dropped byte is reported, and the registry that results is well formed.
   */
  lemma CrashRecovery(file: seq<Byte>, st: State, l: Listing, k: nat, o: Options, codec: Codec, crc: Checksum)
    requires Good(st) && st.nextSequence >= 1 && ListingOf(l, st)
    requires Readable(codec, StateRecords(st, l))
    requires st.generation < 0x1_0000_0000_0000_0000 && o.allowTailRecovery
    requires TornFile(file, st, l, k, codec, crc)
    ensures k <= 1 + Total(st, l)
    ensures var frames := FramesOf(StateRecords(st, l), codec);
      var region := file[HEADER_BYTES..HEADER_BYTES + |StreamBytes(frames, crc)|];
      var size := SizeOf(frames[..k]);
      var recovered := StateAfter(st, l, k, st.generation);
      && ParseSnapshot(file, o, codec, crc) == Ok(Parsed(recovered, true, |region| - size, k, region[..size]))
      && Good(recovered) && SweepAttachments(recovered) == recovered
  {
    hide Good, ListingOf, StateRecords, NextFrame, FramesOf, Fold, ParseFrom, SweepAttachments, Readable, TornAfter,
         StateAfter, FileHeader;
    RecordsShape(st, l);
    FramesLength(StateRecords(st, l), codec);
    var stream := StreamBytes(FramesOf(StateRecords(st, l), codec), crc);
    HeaderFields(file, |stream|, st.generation);
    RegionRecovery(file[HEADER_BYTES..HEADER_BYTES + |stream|], st, l, k, st.generation, codec, crc);
  }

  lemma FullProgress(st: State, l: Listing)
    requires ListingOf(l, st) && IndexTargets(st)
    ensures StateAfter(st, l, 1 + Total(st, l), st.generation) == st
  {
    var p := ProgressAt(st, l, Total(st, l));
    ProgressIsOrdered(st, l, Total(st, l));
    assert l.sources[..p.sources] == l.sources && l.modules[..p.modules] == l.modules && l.ports[..p.ports] == l.ports;
    assert l.slots[..p.slots] == l.slots && l.rules[..p.rules] == l.rules;
    assert st.thresholds[..p.thresholds] == st.thresholds;
    RestrictAll(st.sources, l.sources);
    RestrictAll(st.modules, l.modules);
    RestrictAll(st.ports, l.ports);
    RestrictAll(st.attachments, l.slots);
    RestrictAll(st.rules, l.rules);
    IndexesFull(st, l);
  }

  ghost predicate IndexTargets(st: State) {
    && (forall name :: name in st.sourceIdByName ==> st.sourceIdByName[name] in st.sources)
    && (forall key :: key in st.moduleUidByKey ==> st.moduleUidByKey[key] in st.modules)
  }

  lemma IndexesFull(st: State, l: Listing)
    requires ListingOf(l, st) && IndexTargets(st)
    ensures RestrictIndex(st.sourceIdByName, l.sources) == st.sourceIdByName
    ensures RestrictIndex(st.moduleUidByKey, l.modules) == st.moduleUidByKey
  {
  }

  lemma TargetsOf(st: State, n: nat)
    requires Inv(st, n)
    ensures IndexTargets(st)
  {
    hide RecordsOk, PortsOk, ThresholdsOk, RulesOk, AttachmentsOk;
  }

  lemma TrailerFields(region: seq<Byte>, g: nat, nextSequence: nat, crc: Checksum)
    ensures var file := FileBytes(region, g, nextSequence, crc);
      var end := HEADER_BYTES + |region|;
      && |file| == end + TRAILER_BYTES
      && file[..HEADER_BYTES] == FileHeader(|region|, g) && file[HEADER_BYTES..end] == region
      && file[end..end + 8] == TRAILER_MAGIC && FromLittleEndian(file[|file| - 4..]) == crc(region)
  {
    hide FileHeader;
    var file := FileBytes(region, g, nextSequence, crc);
    var end := HEADER_BYTES + |region|;
    var tail := FileTrailer(region, nextSequence, crc);
    assert file[end..] == tail;
    assert file[end..end + 8] == tail[..8];
    assert file[|file| - 4..] == tail[16..] == LittleEndian(crc(region), 4);
    ScaleValues();
    LittleEndianRoundTrip(crc(region), 4);
  }

  /** With header and trailer intact the file parses to whatever its region parses to. */
  lemma ParseIntact(region: seq<Byte>, g: nat, nextSequence: nat, o: Options, codec: Codec, crc: Checksum, p: Parsed)
    requires |region| <= MAX_SNAPSHOT_BYTES - HEADER_BYTES && g < 0x1_0000_0000_0000_0000
    requires ParseFrom(region, 0, Parsed(EMPTY_STATE.(generation := g), false, 0, 0, []), g, o.allowTailRecovery, codec,
                       crc)
          == Ok(p)
    requires !p.recovered && p.accepted == region
    ensures ParseSnapshot(FileBytes(region, g, nextSequence, crc), o, codec, crc) == Ok(p)
  {
    hide ParseFrom, FileHeader, FileBytes;
    TrailerFields(region, g, nextSequence, crc);
    HeaderFields(FileBytes(region, g, nextSequence, crc), |region|, g);
  }

  /** A file written and read back intact gives the very state that was written. */
  lemma SaveParseRoundTrip(st: State, l: Listing, o: Options, codec: Codec, crc: Checksum)
    requires Good(st) && st.nextSequence >= 1 && ListingOf(l, st)
    requires Readable(codec, StateRecords(st, l))
    requires st.generation < 0x1_0000_0000_0000_0000
    requires |StreamBytes(FramesOf(StateRecords(st, l), codec), crc)| <= MAX_SNAPSHOT_BYTES - HEADER_BYTES
    ensures var stream := StreamBytes(FramesOf(StateRecords(st, l), codec), crc);
      ParseSnapshot(FileBytes(stream, st.generation, st.nextSequence, crc), o, codec, crc)
      == Ok(Parsed(st, false, 0, 1 + Total(st, l), stream))
  {
    hide *;
    RecordsShape(st, l);
    GoodMeans(st);
    TargetsOf(st, st.nextSequence);
    var stream := StreamBytes(FramesOf(StateRecords(st, l), codec), crc);
    StrictParse(stream, st, l, o.allowTailRecovery, codec, crc);
    ParseIntact(stream, st.generation, st.nextSequence, o, codec, crc, Parsed(st, false, 0, 1 + Total(st, l), stream));
  }

  /** A saved file as it was written, or torn inside its region: k records survive. */
  ghost predicate SurvivingFile(file: seq<Byte>, st: State, l: Listing, k: nat, codec: Codec, crc: Checksum)
    requires ListingOf(l, st)
  {
    TornFile(file, st, l, k, codec, crc) || IntactFile(file, st, l, k, codec, crc)
  }

  ghost predicate IntactFile(file: seq<Byte>, st: State, l: Listing, k: nat, codec: Codec, crc: Checksum)
    requires ListingOf(l, st)
  {
    var stream := StreamBytes(FramesOf(StateRecords(st, l), codec), crc);
    && k == 1 + Total(st, l) && |stream| <= MAX_SNAPSHOT_BYTES - HEADER_BYTES
    && file == FileBytes(stream, st.generation, st.nextSequence, crc)
  }

  /** Either way the parse succeeds with the state after the surviving records. */
  lemma SurvivorsParse(file: seq<Byte>, st: State, l: Listing, k: nat, o: Options, codec: Codec, crc: Checksum)
    requires Good(st) && st.nextSequence >= 1 && ListingOf(l, st)
    requires Readable(codec, StateRecords(st, l))
    requires st.generation < 0x1_0000_0000_0000_0000 && o.allowTailRecovery
    requires SurvivingFile(file, st, l, k, codec, crc)
    ensures k <= 1 + Total(st, l)
    ensures var p := ParseSnapshot(file, o, codec, crc);
      p.Ok? && p.value.state == StateAfter(st, l, k, st.generation) && p.value.records == k
  {
    hide Good, ListingOf, StateRecords, FramesOf, StreamBytes, FileBytes, ParseSnapshot, Readable, TornFile, StateAfter,
         Total, SweepAttachments, SizeOf, IndexTargets;
    if TornFile(file, st, l, k, codec, crc) {
      CrashRecovery(file, st, l, k, o, codec, crc);
    } else {
      GoodMeans(st);
      TargetsOf(st, st.nextSequence);
      FullProgress(st, l);
      SaveParseRoundTrip(st, l, o, codec, crc);
    }
  }

  /** An undamaged region parses the same whether or not tails may be dropped. */
  lemma StrictParse(stream: seq<Byte>, st: State, l: Listing, allowTail: bool, codec: Codec, crc: Checksum)
    requires Good(st) && st.nextSequence >= 1 && ListingOf(l, st) && IndexTargets(st)
    requires Readable(codec, StateRecords(st, l)) && |StateRecords(st, l)| == 1 + Total(st, l)
    requires stream == StreamBytes(FramesOf(StateRecords(st, l), codec), crc)
    ensures ParseFrom(stream, 0, Parsed(EMPTY_STATE.(generation := st.generation), false, 0, 0, []), st.generation,
                      allowTail, codec, crc)
         == Ok(Parsed(st, false, 0, 1 + Total(st, l), stream))
  {
    hide Good, Inv, ListingOf, StateRecords, NextFrame, FramesOf, ParseFrom, Readable, GoodFrames, Fold, SizeOf,
         FrameBytes, StateAfter, IndexTargets, Decodes;
    var records := StateRecords(st, l);
    var frames := FramesOf(records, codec);
    FramesLength(records, codec);
    ReadableFrames(codec, records, |records|);
    assert records[..|records|] == records && frames[..|frames|] == frames;
    StreamRoundTrip(frames, crc);
    StreamSize(frames, crc);
    GoodMeans(st);
    StateAfterFold(st, l, |records|, st.generation, st.nextSequence);
    FullProgress(st, l);
    var start := Parsed(EMPTY_STATE.(generation := st.generation), false, 0, 0, []);
    ParseIsFold(stream, 0, start, st.generation, allowTail, codec, crc, records, st);
    assert [] + stream[0..|stream|] == stream;
  }

  // ----- Loading -----

  lemma RevalidateKeeps(st: State, now: int, n: nat)
    requires Inv(st, n)
    ensures Inv(RevalidateEvidence(st, now), n)
  {
    hide PortsOk, ThresholdsOk, RulesOk, SourcesOk, RecordOk, Known, Revalidated, LiveThresholds, Epochs;
    var next := RevalidateEvidence(st, now);
    forall uid | uid in next.modules ensures RecordOk(next.modules[uid], uid, Epochs(st.sources), n) {
      RecordAt(st, uid, n);
      LatchesApart(st.modules[uid], next.modules[uid], uid, Epochs(st.sources), n);
    }
  }

  lemma LatchesApart(r: ModuleRecord, t: ModuleRecord, uid: nat, e: map<nat, nat>, n: nat)
    requires RecordOk(r, uid, e, n) && t == r.(latches := t.latches)
    ensures RecordOk(t, uid, e, n)
  {
    hide ClaimsOk, SamplesOk, EventsOk;
  }

  /** What a load publishes is again a state every whole-run theorem starts from. */
  lemma LoadedIsGood(p: Parsed, now: int)
    requires Good(p.state) && p.state.nextSequence >= 1
    ensures Good(Loaded(p, now))
    ensures Loaded(p, now).generation == p.state.generation + 1
    ensures Loaded(p, now).attachments == p.state.attachments
    ensures Loaded(p, now).registryIncarnation != p.state.registryIncarnation
  {
    hide Inv, RevalidateEvidence, SweepAttachments;
    var n := p.state.nextSequence;
    RevalidateKeeps(p.state, now, n);
    RevalidateFrame(p.state, now);
    SweepNothing(RevalidateEvidence(p.state, now), n);
    InvIgnoresCounters(RevalidateEvidence(p.state, now), Loaded(p, now), n);
  }

  lemma RevalidateFrame(st: State, now: int)
    ensures RevalidateEvidence(st, now) == st.(modules := RevalidateEvidence(st, now).modules)
  {
  }

  /**
   * After a load a fenced call is refused as stale exactly when its fence is a valid generation other than the one the
   * load published, which is one more than the saved one.
   */
  lemma LoadFencesOldHandles(p: Parsed, now: int, call: Call, config: Config)
    requires Good(p.state) && p.state.nextSequence >= 1
    ensures Mutated(Loaded(p, now), call, config) == Err(StaleGeneration) <==>
            call.requireGeneration && ExpectedGeneration(call.op) !in {0, p.state.generation + 1}
  {
    hide Good, Body, Loaded;
    LoadedIsGood(p, now);
    FencedExactly(Loaded(p, now), call, config);
  }

  /** A latch the load keeps rests on a published threshold and on a live measurement within its age bound. */
  lemma KeptLatchHasEvidence(r: ModuleRecord, thresholds: seq<Threshold>, epochs: map<nat, nat>, now: int, i: nat)
    returns (t: Threshold, s: HealthSample)
    requires i < |r.latches| && Revalidated(r, thresholds, epochs, now)[i].latch != EMPTY_LATCH
    ensures Revalidated(r, thresholds, epochs, now)[i] == r.latches[i]
    ensures t in thresholds && t.live && t.metric == r.latches[i].metric
            && (t.lane == r.latches[i].lane || t.lane == MODULE_LANE)
    ensures s in r.samples && Backs(s, r.latches[i], r.incarnation, epochs) && s.presence == Present
    ensures Age(now, s.wallNs) <= t.maxAgeNs
    ensures forall o :: o in r.samples && Backs(o, r.latches[i], r.incarnation, epochs) ==> o.wallNs <= s.wallNs
  {
    hide LastFor, NewestFor, Backs;
    var latch := r.latches[i];
    LastForExact(thresholds, latch.metric, latch.lane);
    LastForExact(thresholds, latch.metric, MODULE_LANE);
    NewestForExact(r.samples, latch, r.incarnation, epochs);
    t := SelectedThreshold(thresholds, latch.metric, latch.lane).value;
    s := NewestFor(r.samples, latch, r.incarnation, epochs).value;
  }

  lemma {:induction false} NewestForExact(samples: seq<HealthSample>, latch: LatchRecord, incarnation: nat,
                                          epochs: map<nat, nat>)
    ensures match NewestFor(samples, latch, incarnation, epochs)
            case Some(s) => s in samples && Backs(s, latch, incarnation, epochs)
              && forall o :: o in samples && Backs(o, latch, incarnation, epochs) ==> o.wallNs <= s.wallNs
            case None => forall o :: o in samples ==> !Backs(o, latch, incarnation, epochs)
  {
    hide Backs;
    if samples != [] {
      NewestForExact(samples[..|samples| - 1], latch, incarnation, epochs);
      assert samples == samples[..|samples| - 1] + [samples[|samples| - 1]];
    }
  }
}
