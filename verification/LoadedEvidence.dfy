/** What a load leaves of the latches, and of everything else: src/snapshot.cpp:857-956. */
module LoadedEvidence {
  import opened Bytes
  import opened Ordering
  import opened Latch
  import opened Health
  import opened HealthReport
  import opened RegistryState
  import opened Mutations
  import opened RegistryInvariant
  import opened Runs
  import RecordStream
  import SnapshotState
  import opened Snapshot
  import opened SnapshotTheorems

  /** A live observation of the latch's series by the module's present incarnation. */
  predicate SpeaksFor(x: HealthSample, latch: LatchRecord, r: ModuleRecord, sources: map<nat, SourceRecord>) {
    && x.metric == latch.metric && x.lane == latch.lane && x.incarnation == r.incarnation && x.live
    && x.source in sources && sources[x.source].epoch == x.epoch
  }

  /** Observation k is the newest that speaks for the latch by wall clock, the first stored of equals. */
  ghost predicate NewestAt(r: ModuleRecord, latch: LatchRecord, sources: map<nat, SourceRecord>, k: nat) {
    && k < |r.samples| && SpeaksFor(r.samples[k], latch, r, sources)
    && (forall j :: 0 <= j < k && SpeaksFor(r.samples[j], latch, r, sources) ==>
          r.samples[j].wallNs < r.samples[k].wallNs)
    && (forall j :: k < j < |r.samples| && SpeaksFor(r.samples[j], latch, r, sources) ==>
          r.samples[j].wallNs <= r.samples[k].wallNs)
  }

  lemma {:induction false} NewestIsAt(r: ModuleRecord, latch: LatchRecord, sources: map<nat, SourceRecord>, n: nat)
    returns (k: nat)
    requires n <= |r.samples|
    ensures var newest := NewestFor(r.samples[..n], latch, r.incarnation, Epochs(sources));
      if k < n then
        && SpeaksFor(r.samples[k], latch, r, sources) && newest == Some(r.samples[k])
        && (forall j :: 0 <= j < k && SpeaksFor(r.samples[j], latch, r, sources) ==>
              r.samples[j].wallNs < r.samples[k].wallNs)
        && (forall j :: k < j < n && SpeaksFor(r.samples[j], latch, r, sources) ==>
              r.samples[j].wallNs <= r.samples[k].wallNs)
      else
        k == n && newest == None && forall j :: 0 <= j < n ==> !SpeaksFor(r.samples[j], latch, r, sources)
  {
    k := 0;
    if n > 0 {
      k := NewestIsAt(r, latch, sources, n - 1);
      assert r.samples[..n][..n - 1] == r.samples[..n - 1];
      SpeaksIsBacks(r.samples[n - 1], latch, r, sources);
      hide SpeaksFor, Backs;
      var x := r.samples[n - 1];
      if k == n - 1 {
        k := if SpeaksFor(x, latch, r, sources) then n - 1 else n;
      } else if SpeaksFor(x, latch, r, sources) && r.samples[k].wallNs < x.wallNs {
        k := n - 1;
      }
    }
  }

  lemma SpeaksIsBacks(x: HealthSample, latch: LatchRecord, r: ModuleRecord, sources: map<nat, SourceRecord>)
    ensures SpeaksFor(x, latch, r, sources) <==> Backs(x, latch, r.incarnation, Epochs(sources))
  {
  }

  /**
   * The load may keep the latch: a threshold governs its series and its newest observation is a measurement in time.
   */
  ghost predicate StillBacked(r: ModuleRecord, latch: LatchRecord, thresholds: seq<Threshold>,
                              sources: map<nat, SourceRecord>, now: int)
  {
    var t := SelectedThreshold(thresholds, latch.metric, latch.lane);
    && t.Some?
    && exists k: nat :: NewestAt(r, latch, sources, k) && r.samples[k].presence == Present
                   && (if now > r.samples[k].wallNs then now - r.samples[k].wallNs else 0) <= t.value.maxAgeNs
  }

  lemma OneNewest(r: ModuleRecord, latch: LatchRecord, sources: map<nat, SourceRecord>, k: nat, j: nat)
    requires NewestAt(r, latch, sources, k) && NewestAt(r, latch, sources, j)
    ensures j == k
  {
  }

  lemma BackedExactly(r: ModuleRecord, latch: LatchRecord, thresholds: seq<Threshold>,
                      sources: map<nat, SourceRecord>, now: int)
    ensures StillHolds(latch, NewestFor(r.samples, latch, r.incarnation, Epochs(sources)), thresholds, now) <==>
            StillBacked(r, latch, thresholds, sources, now)
  {
    hide SpeaksFor, SelectedThreshold, Epochs;
    var k := NewestIsAt(r, latch, sources, |r.samples|);
    assert r.samples[..|r.samples|] == r.samples;
    if k < |r.samples| {
      assert NewestAt(r, latch, sources, k);
      hide NewestFor;
      if j: nat :| NewestAt(r, latch, sources, j) && r.samples[j].presence == Present {
        OneNewest(r, latch, sources, k, j);
      }
    }
  }

  /**
   * After a load every module has the record it had, and every latch is as it was when its evidence still backs it and
   * empty otherwise; the registry is a new incarnation one generation on, and nothing else moved.
   */
  lemma LoadedExactly(p: Parsed, now: int, uid: nat, i: nat)
    requires Good(p.state) && p.state.nextSequence >= 1
    requires uid in p.state.modules && i < |p.state.modules[uid].latches|
    ensures var st, next := p.state, Loaded(p, now);
      && uid in next.modules
      && var r, t := st.modules[uid], next.modules[uid];
         && t == r.(latches := t.latches) && |t.latches| == |r.latches|
         && t.latches[i] == if StillBacked(r, r.latches[i], LiveThresholds(st.thresholds), st.sources, now)
                            then r.latches[i] else LatchRecord(r.latches[i].metric, r.latches[i].lane, EMPTY_LATCH)
  {
    hide Inv, LiveThresholds, StillBacked, NewestFor, StillHolds, Epochs;
    var st, r := p.state, p.state.modules[uid];
    BackedExactly(r, r.latches[i], LiveThresholds(st.thresholds), st.sources, now);
  }

  lemma LoadedElsewhere(p: Parsed, now: int)
    requires Good(p.state) && p.state.nextSequence >= 1
    ensures var st, next := p.state, Loaded(p, now);
      && next.modules.Keys == st.modules.Keys
      && next == st.(modules := next.modules, generation := st.generation + 1,
                     registryIncarnation := if st.registryIncarnation == MAX_U32 then 1
                                            else st.registryIncarnation + 1)
  {
    LoadedIsGood(p, now);
    hide Inv, Revalidated;
    assert Loaded(p, now).modules.Keys == p.state.modules.Keys;
  }

  // ----- What is not loaded -----

  /**
   * The header alone decides these answers, in this order: too short, another magic, another version, reserved bytes
   * set, a
   * region that cannot be. A file that ends before its region does gives an empty state, or nothing without recovery.
   */
  lemma HeaderDecides(file: seq<Byte>, o: Options, codec: Codec, crc: RecordStream.Checksum)
    ensures var answer := ParseSnapshot(file, o, codec, crc);
      if |file| < 52 then answer == Err(Corrupt)
      else if file[..8] != [0x54, 0x52, 0x58, 0x52, 0x53, 0x4E, 0x41, 0x50] then answer == Err(Corrupt)
      else if FromLittleEndian(file[8..10]) != 1 then
        answer == Err(if o.requireSupportedVersion then Unsupported else Corrupt)
      else if !(forall i :: 10 <= i < 16 ==> file[i] == 0) then answer == Err(Malformed)
      else
        var length := FromLittleEndian(file[16..24]);
        && (length > 0x1000_0000 - 32 ==> answer == Err(Corrupt))
        && (length <= 0x1000_0000 - 32 && |file| < 32 + length ==>
              answer == if o.allowTailRecovery then Ok(Parsed(EMPTY_STATE, true, |file| - 32, 0, []))
                        else Err(Corrupt))
  {
    hide ParseFrom, CheckTrailer, FromLittleEndian;
    if |file| >= 52 {
      NoBits(file[10..12]);
      NoBits(file[12..16]);
      if FromLittleEndian(file[10..12]) == 0 && FromLittleEndian(file[12..16]) == 0 {
        forall i | 10 <= i < 16 ensures file[i] == 0 {
          assert file[i] == if i < 12 then file[10..12][i - 10] else file[12..16][i - 12];
        }
      }
    }
  }

  /**
   * Once every record of a whole region is read, the trailer decides: cut short or with another magic it counts as a
   * lost tail, and a region that fails its checksum is corrupt even where tails may be lost.
   */
  lemma TrailerDecides(file: seq<Byte>, o: Options, codec: Codec, crc: RecordStream.Checksum, length: nat, p: Parsed)
    requires |file| >= 52 && file[..8] == SNAPSHOT_MAGIC && FromLittleEndian(file[8..10]) == 1
    requires forall i :: 10 <= i < 16 ==> file[i] == 0
    requires length == FromLittleEndian(file[16..24]) <= 0x1000_0000 - 32 && 32 + length <= |file|
    requires var generation := FromLittleEndian(file[24..32]);
      ParseFrom(file[32..32 + length], 0, Parsed(EMPTY_STATE.(generation := generation), false, 0, 0, []), generation,
                o.allowTailRecovery, codec, crc) == Ok(p)
    requires !p.recovered
    ensures var end := 32 + length;
      p.accepted == file[32..end]
      && ParseSnapshot(file, o, codec, crc)
         == if |file| < end + 20 || file[end..end + 8] != [0x54, 0x52, 0x58, 0x52, 0x45, 0x4F, 0x46, 0x31] then
              (if o.allowTailRecovery then Ok(p.(recovered := true, dropped := |file| - end)) else Err(Corrupt))
            else if crc(file[32..end]) != FromLittleEndian(file[|file| - 4..]) then Err(Corrupt)
            else Ok(p)
  {
    NoBits(file[10..12]);
    NoBits(file[12..16]);
    var generation := FromLittleEndian(file[24..32]);
    AllAccepted(file[32..32 + length], 0, Parsed(EMPTY_STATE.(generation := generation), false, 0, 0, []), generation,
                o.allowTailRecovery, codec, crc);
    hide ParseFrom, FromLittleEndian;
    assert [] + file[32..32 + length][0..] == file[32..32 + length];
  }

  /** A parse that lost no tail accepted the whole region. */
  lemma {:induction false} AllAccepted(region: seq<Byte>, position: nat, p: Parsed, generation: nat, allowTail: bool,
                                       codec: Codec, crc: RecordStream.Checksum)
    requires position <= |region| && !p.recovered
    ensures var r := ParseFrom(region, position, p, generation, allowTail, codec, crc);
      r.Ok? && !r.value.recovered ==> r.value.accepted == p.accepted + region[position..]
    decreases |region| - position
  {
    hide RecordStream.NextFrame, SnapshotState.Absorb;
    var next := RecordStream.NextFrame(region, position, crc);
    if position == |region| {
      assert p.accepted + region[position..] == p.accepted;
    } else if next.Some? {
      RecordStream.NextFrameBytes(region, position, crc);
      var f := next.value;
      var size := |f.payload| + 9;
      var record := codec.decode(f.kind, f.payload);
      if record.Ok? && SnapshotState.Absorb(p.state, record.value, generation).Ok? {
        var q := p.(state := SnapshotState.Absorb(p.state, record.value, generation).value, records := p.records + 1,
                    accepted := p.accepted + region[position..position + size]);
        AllAccepted(region, position + size, q, generation, allowTail, codec, crc);
        assert q.accepted + region[position + size..] == p.accepted + region[position..];
      }
    }
  }

  lemma {:induction false} NoBits(s: seq<Byte>)
    ensures FromLittleEndian(s) == 0 <==> forall i :: 0 <= i < |s| ==> s[i] == 0
  {
    if s != [] {
      NoBits(s[1..]);
      assert s == [s[0]] + s[1..];
    }
  }

  /** A registry that holds anything refuses every file, and is left alone. */
  lemma OnlyIntoEmpty(current: State, file: seq<Byte>, o: Options, now: int, codec: Codec, crc: RecordStream.Checksum)
    requires current.modules != map[] || current.ports != map[] || current.rules != map[] || current.sources != map[]
          || current.attachments != map[] || current.thresholds != []
    ensures Load(current, file, o, now, codec, crc) == Err(Conflict)
  {
    hide ParseSnapshot;
  }
}
