/** Saving, parsing and loading a snapshot file, src/snapshot.cpp:482-549, 643-951. */
module Snapshot {
  import opened Bytes
  import opened Ordering
  import A = Authority
  import opened Latch
  import opened Health
  import opened HealthReport
  import opened RegistryState
  import opened Mutations
  import opened RecordStream
  import opened SnapshotState

  const SNAPSHOT_MAGIC: seq<Byte> := [0x54, 0x52, 0x58, 0x52, 0x53, 0x4E, 0x41, 0x50]
  const TRAILER_MAGIC: seq<Byte> := [0x54, 0x52, 0x58, 0x52, 0x45, 0x4F, 0x46, 0x31]
  const FORMAT_VERSION := 1
  const HEADER_BYTES := 32
  const TRAILER_BYTES := 20
  const MAX_SNAPSHOT_BYTES := 0x1000_0000

  /** How a record becomes a payload and back: the field copies of src/codec.cpp. */
  datatype Codec = Codec(encode: Record -> seq<Byte>, decode: (Byte, seq<Byte>) -> Result<Record>)

  function FrameOf(r: Record, codec: Codec): Frame { Frame(TagOf(r), codec.encode(r)) }

  function FramesOf(records: seq<Record>, codec: Codec): seq<Frame> {
    seq(|records|, i requires 0 <= i < |records| => FrameOf(records[i], codec))
  }

  // ----- The file -----

  function FileHeader(recordBytes: nat, generation: nat): (s: seq<Byte>)
    ensures |s| == HEADER_BYTES
  {
    SNAPSHOT_MAGIC + LittleEndian(FORMAT_VERSION, 2) + LittleEndian(0, 2) + LittleEndian(0, 4)
    + LittleEndian(recordBytes, 8) + LittleEndian(generation, 8)
  }

  function FileTrailer(region: seq<Byte>, nextSequence: nat, crc: Checksum): (s: seq<Byte>)
    ensures |s| == TRAILER_BYTES
  {
    TRAILER_MAGIC + LittleEndian(nextSequence, 8) + LittleEndian(crc(region), 4)
  }

  function FileBytes(region: seq<Byte>, generation: nat, nextSequence: nat, crc: Checksum): seq<Byte> {
    FileHeader(|region|, generation) + region + FileTrailer(region, nextSequence, crc)
  }

  method WriteSnapshot(records: seq<Record>, generation: nat, nextSequence: nat, codec: Codec, crc: Checksum)
    returns (file: seq<Byte>)
    ensures file == FileBytes(StreamBytes(FramesOf(records, codec), crc), generation, nextSequence, crc)
  {
    hide FrameBytes;
    var region: seq<Byte> := [];
    var frames := FramesOf(records, codec);
    for i := 0 to |records|
      invariant region == StreamBytes(frames[..i], crc)
    {
      assert frames[..i + 1][..i] == frames[..i];
      region := AppendRecord(region, FrameOf(records[i], codec), crc);
    }
    assert frames[..|records|] == frames;
    file := SNAPSHOT_MAGIC;
    file := file + LittleEndian(FORMAT_VERSION, 2);
    file := file + LittleEndian(0, 2);
    file := file + LittleEndian(0, 4);
    file := file + LittleEndian(|region|, 8);
    file := file + LittleEndian(generation, 8);
    file := file + region;
    file := file + TRAILER_MAGIC;
    file := file + LittleEndian(nextSequence, 8);
    file := file + LittleEndian(crc(region), 4);
  }

  // ----- Parsing -----

  datatype Options = Options(allowTailRecovery: bool, requireSupportedVersion: bool)

  datatype Parsed = Parsed(state: State, recovered: bool, dropped: nat, records: nat, accepted: seq<Byte>)

  /** The record loop from a position on. */
  function ParseFrom(region: seq<Byte>, position: nat, p: Parsed, generation: nat, allowTail: bool, codec: Codec,
                     crc: Checksum): Result<Parsed>
    requires position <= |region|
    decreases |region| - position
  {
    if position == |region| then Ok(p)
    else
      match NextFrame(region, position, crc)
      case None =>
        if allowTail then Ok(p.(recovered := true, dropped := |region| - position)) else Err(Corrupt)
      case Some(f) =>
        NextFrameBytes(region, position, crc);
        var size := |f.payload| + 9;
        var record :- codec.decode(f.kind, f.payload);
        var next :- Absorb(p.state, record, generation);
        ParseFrom(region, position + size,
                  p.(state := next, records := p.records + 1,
                     accepted := p.accepted + region[position..position + size]),
                  generation, allowTail, codec, crc)
  }

  method ParseRecords(region: seq<Byte>, start: State, generation: nat, allowTail: bool, codec: Codec, crc: Checksum)
    returns (r: Result<Parsed>)
    ensures r == ParseFrom(region, 0, Parsed(start, false, 0, 0, []), generation, allowTail, codec, crc)
  {
    hide NextFrame, Absorb;
    var p := Parsed(start, false, 0, 0, []);
    ghost var whole := ParseFrom(region, 0, p, generation, allowTail, codec, crc);
    var position := 0;
    while position < |region|
      invariant position <= |region|
      invariant whole == ParseFrom(region, position, p, generation, allowTail, codec, crc)
      decreases |region| - position
    {
      var next := NextFrame(region, position, crc);
      if next == None {
        if !allowTail {
          return Err(Corrupt);
        }
        return Ok(p.(recovered := true, dropped := |region| - position));
      }
      NextFrameBytes(region, position, crc);
      var f := next.value;
      var size := |f.payload| + 9;
      var accepted := p.accepted + region[position..position + size];
      var record :- codec.decode(f.kind, f.payload);
      var state :- Absorb(p.state, record, generation);
      p := p.(state := state, records := p.records + 1, accepted := accepted);
      position := position + size;
    }
    return Ok(p);
  }

  /** The trailer tests; a damaged trailer is only a lost tail, a wrong payload checksum is an error. */
  function CheckTrailer(file: seq<Byte>, trailerStart: nat, p: Parsed, allowTail: bool, crc: Checksum): Result<Parsed>
    requires trailerStart <= |file|
  {
    if p.recovered then Ok(p)
    else if |file| < trailerStart + TRAILER_BYTES || file[trailerStart..trailerStart + 8] != TRAILER_MAGIC then
      (if allowTail then Ok(p.(recovered := true, dropped := |file| - trailerStart)) else Err(Corrupt))
    else if crc(p.accepted) != FromLittleEndian(file[|file| - 4..]) then Err(Corrupt)
    else Ok(p)
  }

  function ParseSnapshot(file: seq<Byte>, o: Options, codec: Codec, crc: Checksum): Result<Parsed> {
    if |file| < HEADER_BYTES + TRAILER_BYTES then Err(Corrupt)
    else if file[..8] != SNAPSHOT_MAGIC then Err(Corrupt)
    else if FromLittleEndian(file[8..10]) != FORMAT_VERSION then
      (if o.requireSupportedVersion then Err(Unsupported) else Err(Corrupt))
    else if FromLittleEndian(file[10..12]) != 0 || FromLittleEndian(file[12..16]) != 0 then Err(Malformed)
    else
      var recordBytes := FromLittleEndian(file[16..24]);
      if recordBytes > MAX_SNAPSHOT_BYTES - HEADER_BYTES then Err(Corrupt)
      else if |file| < HEADER_BYTES + recordBytes then
        (if o.allowTailRecovery then Ok(Parsed(EMPTY_STATE, true, |file| - HEADER_BYTES, 0, [])) else Err(Corrupt))
      else
        var generation := FromLittleEndian(file[24..32]);
        var end := HEADER_BYTES + recordBytes;
        var p :- ParseFrom(file[HEADER_BYTES..end], 0,
                           Parsed(EMPTY_STATE.(generation := generation), false, 0, 0, []),
                           generation, o.allowTailRecovery, codec, crc);
        CheckTrailer(file, end, p, o.allowTailRecovery, crc)
  }

  /** parse_snapshot. */
  method ReadSnapshot(file: seq<Byte>, o: Options, codec: Codec, crc: Checksum) returns (r: Result<Parsed>)
    ensures r == ParseSnapshot(file, o, codec, crc)
  {
    hide ParseFrom;
    if |file| < HEADER_BYTES + TRAILER_BYTES || file[..8] != SNAPSHOT_MAGIC {
      return Err(Corrupt);
    }
    if FromLittleEndian(file[8..10]) != FORMAT_VERSION {
      return Err(if o.requireSupportedVersion then Unsupported else Corrupt);
    }
    if FromLittleEndian(file[10..12]) != 0 || FromLittleEndian(file[12..16]) != 0 {
      return Err(Malformed);
    }
    var recordBytes := FromLittleEndian(file[16..24]);
    if recordBytes > MAX_SNAPSHOT_BYTES - HEADER_BYTES {
      return Err(Corrupt);
    }
    if |file| < HEADER_BYTES + recordBytes {
      if !o.allowTailRecovery {
        return Err(Corrupt);
      }
      return Ok(Parsed(EMPTY_STATE, true, |file| - HEADER_BYTES, 0, []));
    }
    var generation := FromLittleEndian(file[24..32]);
    var end := HEADER_BYTES + recordBytes;
    var p :- ParseRecords(file[HEADER_BYTES..end], EMPTY_STATE.(generation := generation), generation,
                          o.allowTailRecovery, codec, crc);
    return CheckTrailer(file, end, p, o.allowTailRecovery, crc);
  }

  // ----- Loading -----

  /** The evidence a latch rests on: the newest live sample of its series, the first of equals. */
  function NewestFor(samples: seq<HealthSample>, latch: LatchRecord, incarnation: nat,
                     epochs: map<nat, nat>): Option<HealthSample>
  {
    if samples == [] then None
    else
      var s := samples[|samples| - 1];
      var newest := NewestFor(samples[..|samples| - 1], latch, incarnation, epochs);
      if Backs(s, latch, incarnation, epochs) && (newest == None || newest.value.wallNs < s.wallNs) then Some(s)
      else newest
  }

  predicate Backs(s: HealthSample, latch: LatchRecord, incarnation: nat, epochs: map<nat, nat>) {
    && s.metric == latch.metric && s.lane == latch.lane && s.incarnation == incarnation && s.live
    && A.SourceIsLive(epochs, s.source, s.epoch)
  }

  /** A latch survives a load only on a threshold and a measurement that is still fresh. */
  predicate StillHolds(latch: LatchRecord, newest: Option<HealthSample>, thresholds: seq<Threshold>, now: int) {
    && newest.Some? && newest.value.presence == Present
    && SelectedThreshold(thresholds, latch.metric, latch.lane).Some?
    && Age(now, newest.value.wallNs) <= SelectedThreshold(thresholds, latch.metric, latch.lane).value.maxAgeNs
  }

  function Revalidated(r: ModuleRecord, thresholds: seq<Threshold>, epochs: map<nat, nat>, now: int): seq<LatchRecord> {
    seq(|r.latches|, i requires 0 <= i < |r.latches| =>
      if StillHolds(r.latches[i], NewestFor(r.samples, r.latches[i], r.incarnation, epochs), thresholds, now)
      then r.latches[i] else r.latches[i].(latch := EMPTY_LATCH))
  }

  function RevalidateEvidence(st: State, now: int): State {
    st.(modules := map uid | uid in st.modules ::
      st.modules[uid].(latches := Revalidated(st.modules[uid], LiveThresholds(st.thresholds), Epochs(st.sources), now)))
  }

  /** Positions below n of the latches nothing backs any more. */
  function Unbacked(r: ModuleRecord, thresholds: seq<Threshold>, epochs: map<nat, nat>, now: int, n: nat): set<nat>
    requires n <= |r.latches|
  {
    set i: nat | 0 <= i < n
                 && !StillHolds(r.latches[i], NewestFor(r.samples, r.latches[i], r.incarnation, epochs), thresholds,
                                now)
  }

  lemma UnbackedNext(r: ModuleRecord, thresholds: seq<Threshold>, epochs: map<nat, nat>, now: int, n: nat)
    requires n < |r.latches|
    ensures var lost := !StillHolds(r.latches[n], NewestFor(r.samples, r.latches[n], r.incarnation, epochs), thresholds,
                                    now);
      |Unbacked(r, thresholds, epochs, now, n + 1)| ==
      |Unbacked(r, thresholds, epochs, now, n)| + if lost then 1 else 0
  {
    hide StillHolds, NewestFor;
    var before, after := Unbacked(r, thresholds, epochs, now, n), Unbacked(r, thresholds, epochs, now, n + 1);
    if n in after {
      assert after == before + {n};
    } else {
      assert after == before;
    }
  }

  lemma NoneUnbacked(r: ModuleRecord, thresholds: seq<Threshold>, epochs: map<nat, nat>, now: int)
    ensures Unbacked(r, thresholds, epochs, now, 0) == {}
  {
  }

  /** The inner loops of revalidate_evidence; the second result counts the latches they reset. */
  method RevalidateLatches(r: ModuleRecord, thresholds: seq<Threshold>, epochs: map<nat, nat>, now: int)
    returns (latches: seq<LatchRecord>, invalidated: nat)
    ensures latches == Revalidated(r, thresholds, epochs, now)
    ensures invalidated == |Unbacked(r, thresholds, epochs, now, |r.latches|)|
    ensures invalidated == 0 ==> latches == r.latches
  {
    hide SelectedThreshold, Unbacked;
    assert |Unbacked(r, thresholds, epochs, now, 0)| == 0 by { NoneUnbacked(r, thresholds, epochs, now); }
    latches, invalidated := r.latches, 0;
    for i := 0 to |r.latches|
      invariant |latches| == |r.latches| && invalidated == |Unbacked(r, thresholds, epochs, now, i)|
      invariant forall j :: 0 <= j < i ==> latches[j] == Revalidated(r, thresholds, epochs, now)[j]
      invariant forall j :: i <= j < |latches| ==> latches[j] == r.latches[j]
      invariant invalidated == 0 ==> latches == r.latches
    {
      UnbackedNext(r, thresholds, epochs, now, i);
      var latch := latches[i];
      var threshold := SelectThreshold(thresholds, latch.metric, latch.lane);
      var newest: Option<HealthSample> := None;
      for k := 0 to |r.samples|
        invariant newest == NewestFor(r.samples[..k], latch, r.incarnation, epochs)
      {
        assert r.samples[..k + 1][..k] == r.samples[..k];
        var s := r.samples[k];
        if Backs(s, latch, r.incarnation, epochs) && (newest == None || newest.value.wallNs < s.wallNs) {
          newest := Some(s);
        }
      }
      assert r.samples[..|r.samples|] == r.samples;
      if threshold == None || newest == None || newest.value.presence != Present
         || Age(now, newest.value.wallNs) > threshold.value.maxAgeNs {
        latches := latches[i := latch.(latch := EMPTY_LATCH)];
        invalidated := invalidated + 1;
      }
    }
  }

  /** Attachments whose module did not survive are removed. */
  function SweepAttachments(st: State): State {
    st.(attachments := map slot | slot in st.attachments && st.attachments[slot].uid in st.modules ::
        st.attachments[slot])
  }

  /** A load is a new registry incarnation, one generation on. */
  function Adopted(st: State): State {
    st.(registryIncarnation := if st.registryIncarnation == MAX_U32 then 1 else st.registryIncarnation + 1,
        generation := st.generation + 1,
        nextSequence := if st.nextSequence == 0 then 1 else st.nextSequence)
  }

  function Loaded(p: Parsed, now: int): State { Adopted(SweepAttachments(RevalidateEvidence(p.state, now))) }

  predicate NothingRegistered(st: State) {
    && st.modules == map[] && st.ports == map[] && st.rules == map[] && st.sources == map[]
    && st.attachments == map[] && st.thresholds == []
  }

  /** load_snapshot: only into an empty registry. */
  function Load(current: State, file: seq<Byte>, o: Options, now: int, codec: Codec, crc: Checksum): Result<State> {
    if !NothingRegistered(current) then Err(Conflict)
    else
      var p :- ParseSnapshot(file, o, codec, crc);
      Ok(Loaded(p, now))
  }
}
