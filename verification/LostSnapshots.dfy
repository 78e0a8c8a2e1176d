/** Calls the registry accepts and saves whose file it never loads, and a file one byte short. */
module LostSnapshots {
  import opened Bytes
  import opened Provenances
  import Utf8
  import opened ObjectValue
  import opened Documents
  import opened Consensus
  import opened Capability
  import opened Lifecycle
  import opened Samples
  import opened RegistryState
  import opened Validation
  import opened Mutations
  import opened RegistryInvariant
  import opened Runs
  import opened Resurrection
  import Effects
  import opened RecordStream
  import opened SnapshotState
  import opened SnapshotRecovery
  import opened Snapshot
  import opened SnapshotTheorems
  import opened SnapshotCuts
  import opened SnapshotSaved
  import opened EvidenceDocuments
  import opened RecordDocuments
  import opened SnapshotDocuments
  import opened EvidenceRuns

  // ----- What registration lets in -----

  ghost predicate AllRegistered(st: State) { forall id :: id in st.sources ==> RegisteredForm(st.sources[id]) }

  /** The wall clock is a signed 64-bit count of nanoseconds. */
  predicate ClocksFit(calls: seq<Call>) { forall i :: 0 <= i < |calls| ==> Storable(calls[i].clock.wallNs) }

  lemma RegistrationForm(st: State, call: Call, config: Config)
    requires Good(st) && AllRegistered(st) && call.op.RegisterSource? && Storable(call.clock.wallNs)
    requires Attempt(st, call, config).Ok?
    ensures AllRegistered(Attempt(st, call, config).value)
  {
    hide Attempt, RegisterSourceBody, RegisteredForm, Utf8.Valid, Inv;
    CommitParts(st, call, config);
    NextSource(st, st.nextSequence);
    SourceBodyForm(st.(nextSequence := st.nextSequence + 1), call.op.name, call.op.instanceId, call.op.description,
                   config, StampOf(st, call));
  }

  lemma NextSource(st: State, n: nat)
    requires Inv(st, n)
    ensures st.nextSourceId >= 1
  {
    hide RecordsOk, PortsOk, AttachmentsOk, ThresholdsOk, RulesOk, ModuleIndexOk;
  }

  lemma SourceBodyForm(st: State, name: Text, instanceId: Text, description: Text, config: Config, s: Stamp)
    requires AllRegistered(st) && st.nextSourceId >= 1 && Storable(s.now)
    requires name != [] && |name| <= 128 && Utf8.Valid(name) && |instanceId| <= 128 && Utf8.Valid(instanceId)
    requires |description| <= 512 && RegisterSourceBody(st, name, instanceId, description, config, s).Ok?
    ensures AllRegistered(RegisterSourceBody(st, name, instanceId, description, config, s).value)
  {
    hide Utf8.Valid;
  }

  /** Every source of a run is in the form the record theorems ask for; its description may still be any bytes. */
  lemma {:induction false} SourcesAreRegistered(calls: seq<Call>, config: Config)
    requires ClocksFit(calls)
    ensures AllRegistered(RunCalls(EMPTY_STATE, calls, config))
  {
    hide Good, AllRegistered, Attempt;
    if calls == [] {
      NoSources();
    } else {
      var front, call := calls[..|calls| - 1], calls[|calls| - 1];
      SourcesAreRegistered(front, config);
      var before := RunCalls(EMPTY_STATE, front, config);
      EmptyIsGood();
      RunKeepsInvariant(EMPTY_STATE, front, config);
      if Attempt(before, call, config).Ok? {
        if call.op.RegisterSource? {
          RegistrationForm(before, call, config);
        } else {
          SourcesUntouched(before, call, config);
        }
      }
    }
  }

  lemma NoSources()
    ensures AllRegistered(EMPTY_STATE)
  {
  }

  lemma SourcesUntouched(st: State, call: Call, config: Config)
    requires AllRegistered(st) && !call.op.RegisterSource? && Attempt(st, call, config).Ok?
    ensures AllRegistered(Attempt(st, call, config).value)
  {
    hide Attempt, Body, RegisteredForm;
    CommitParts(st, call, config);
  }

  // ----- Texts no check looks at -----

  /** The call hands over a text that is stored unchecked and is not UTF-8. */
  predicate StoresIllFormed(op: RegistryState.Op) {
    match op
    case RegisterSource(_, _, description) => !Utf8.Valid(description)
    case Transition(_, _, _, reason) => !Utf8.Valid(reason)
    case PublishCapability(_, _, _, subkey, content, _, provenance) =>
      !Utf8.Valid(subkey) || !ValueTexts(content) || !Utf8.Valid(provenance.captureRef)
    case PublishPortCapability(_, _, _, subkey, content, _, provenance) =>
      !Utf8.Valid(subkey) || !ValueTexts(content) || !Utf8.Valid(provenance.captureRef)
    case _ => false
  }

  /** Some record of the state holds a text that is not UTF-8. */
  ghost predicate HoldsIllFormed(st: State) {
    || (exists id :: id in st.sources && !Utf8.Valid(st.sources[id].description))
    || (exists uid :: uid in st.modules && !ModuleTexts(st.modules[uid]))
    || (exists port :: port in st.ports && !PortTexts(st.ports[port]))
  }

  lemma SourceText(st: State, name: Text, instanceId: Text, description: Text, config: Config, s: Stamp)
    requires RegisterSourceBody(st, name, instanceId, description, config, s).Ok? && !Utf8.Valid(description)
    ensures HoldsIllFormed(RegisterSourceBody(st, name, instanceId, description, config, s).value)
  {
    hide Utf8.Valid, ModuleTexts, PortTexts;
    var next := RegisterSourceBody(st, name, instanceId, description, config, s).value;
    var id := next.sourceIdByName[name];
    if name in st.sourceIdByName {
      assert !Utf8.Valid(next.sources[st.sources[id].id].description);
    } else {
      assert !Utf8.Valid(next.sources[id].description);
    }
  }

  lemma ReasonText(st: State, a: RegistryState.Authority, h: Handle, to: LifecycleState, config: Config, s: Stamp)
    requires TransitionBody(st, a, h, to, config, s).Ok? && config.maxLifecycleHistory >= 1
    requires s.reason.Some? && !Utf8.Valid(s.reason.value)
    ensures HoldsIllFormed(TransitionBody(st, a, h, to, config, s).value)
  {
    hide Utf8.Valid, PortTexts, ClaimTexts, DeclarationTexts, SampleTexts, ModuleAt, TransitionAllowed;
    var record := ModuleAt(st, a, h).value;
    var moved := Capped(Advanced(record, to, a, s), config);
    var e := EventOf(record.state, to, record.incarnation, a, s);
    assert moved.lifecycle[|moved.lifecycle| - 1] == e;
    assert e in moved.lifecycle && !EventTexts(e);
    assert TransitionBody(st, a, h, to, config, s).value.modules[h.uid] == moved;
    assert !ModuleTexts(moved);
  }

  lemma DeclarationText(st: State, uid: nat, c: Declaration)
    requires DeclarationLive(st, uid, c) && !DeclarationTexts(c)
    ensures HoldsIllFormed(st)
  {
    hide DeclarationTexts, ClaimTexts, SampleTexts, EventTexts;
    assert !ModuleTexts(st.modules[uid]);
  }

  lemma PortDeclarationText(st: State, port: Text, c: Declaration)
    requires PortDeclarationLive(st, port, c) && !DeclarationTexts(c)
    ensures HoldsIllFormed(st)
  {
    hide DeclarationTexts;
    assert !PortTexts(st.ports[port]);
  }

  /** A committed call that stores an ill-formed text leaves it in the tables. */
  lemma IllFormedIsStored(st: State, call: Call, config: Config)
    requires Good(st) && Attempt(st, call, config).Ok? && StoresIllFormed(call.op)
    requires config.maxLifecycleHistory >= 1 && config.maxClaimHistory >= 1
    ensures HoldsIllFormed(Attempt(st, call, config).value)
  {
    hide Attempt, Utf8.Valid, HoldsIllFormed, RegisterSourceBody, PublishCapabilityBody, PublishPortCapabilityBody,
         TransitionBody, ValueTexts, DeclarationLive, PortDeclarationLive, Inv;
    CommitParts(st, call, config);
    var begun, s := st.(nextSequence := st.nextSequence + 1), StampOf(st, call);
    assert Inv(begun, s.sequence) by { BegunKeeps(st); }
    var next := Body(begun, call, config, s).value;
    assert HoldsIllFormed(next) by {
      match call.op
      case RegisterSource(name, instanceId, description) => SourceText(begun, name, instanceId, description, config, s);
      case Transition(a, h, to, _) => ReasonText(begun, a, h, to, config, s);
      case PublishCapability(a, h, key, subkey, value, _, _) =>
        var d := NewClaim(key, subkey, value, a, h.uid, h.incarnation, [], s);
        Effects.DeclarationIsLive(begun, a, h, key, subkey, value, config, s, d);
        DeclarationText(next, h.uid, d);
      case PublishPortCapability(a, port, key, subkey, value, _, _) =>
        var d := NewClaim(key, subkey, value, a, 0, 0, port, s);
        Effects.PortDeclarationIsLive(begun, a, port, key, subkey, value, config, s, d);
        PortDeclarationText(next, port, d);
    }
    SameTables(next, next.(generation := st.generation + 1, mutations := st.mutations + 1));
  }

  lemma BegunKeeps(st: State)
    requires Good(st)
    ensures Inv(st.(nextSequence := st.nextSequence + 1), st.nextSequence)
  {
  }

  lemma SameTables(st: State, t: State)
    requires HoldsIllFormed(st) && t.sources == st.sources && t.modules == st.modules && t.ports == st.ports
    ensures HoldsIllFormed(t)
  {
    hide Utf8.Valid, ModuleTexts, PortTexts;
  }

  lemma SavedModuleTexts(r: ModuleRecord, t: ModuleRecord)
    requires SavedModule(r, t) && !ModuleTexts(r)
    ensures !ModuleTexts(t)
  {
    hide ClaimTexts, DeclarationTexts, SampleTexts, EventTexts, Recount;
    SameMembers(t.claims, r.claims);
    SameMembers(t.declarations, r.declarations);
    SameMembers(t.samples, r.samples);
    SameMembers(t.lifecycle, r.lifecycle);
  }

  lemma SavedTexts(st: State, t: State)
    requires Saved(st, t) && HoldsIllFormed(st)
    ensures HoldsIllFormed(t)
  {
    hide ModuleTexts, PortTexts, Utf8.Valid, SavedModule;
    if uid :| uid in st.modules && !ModuleTexts(st.modules[uid]) {
      SavedModuleTexts(st.modules[uid], t.modules[uid]);
      assert uid in t.modules;
    }
  }

  lemma IllFormedRecord(st: State, l: Listing, d: Doubles)
    requires ListingOf(l, st) && HoldsIllFormed(st)
    ensures !AllReadBack(st, l, d)
  {
    hide ModuleTexts, PortTexts, Utf8.Valid, RangesOf, InLimits, DocOf;
    var records := StateRecords(st, l);
    var bad := IllFormedEntry(st, l);
    assert !ReadsBack(bad, d);
  }

  lemma IllFormedEntry(st: State, l: Listing) returns (bad: Record)
    requires ListingOf(l, st) && HoldsIllFormed(st)
    ensures bad in StateRecords(st, l) && !TextsOf(bad)
  {
    hide ModuleTexts, PortTexts, Utf8.Valid;
    if id :| id in st.sources && !Utf8.Valid(st.sources[id].description) {
      var i :| 0 <= i < |l.sources| && l.sources[i] == id;
      bad := SourceEntries(st, l.sources)[i];
    } else if uid :| uid in st.modules && !ModuleTexts(st.modules[uid]) {
      var i :| 0 <= i < |l.modules| && l.modules[i] == uid;
      bad := ModuleEntries(st, l.modules)[i];
    } else {
      var port :| port in st.ports && !PortTexts(st.ports[port]);
      var i :| 0 <= i < |l.ports| && l.ports[i] == port;
      bad := PortEntries(st, l.ports)[i];
    }
  }

  /**
   * One accepted call with an ill-formed text is enough: in whatever order the save breaks ties, the file is refused,
   * or gives up a tail, and never returns the state. With every record within the record bound it is refused outright.
   */
  lemma IllFormedNeverLoads(st: State, call: Call, config: Config, next: State, t: State, l: Listing, o: Options,
                            d: Doubles, crc: Checksum)
    requires Good(st) && st.nextSequence >= 1 && Attempt(st, call, config) == Ok(next) && StoresIllFormed(call.op)
    requires config.maxLifecycleHistory >= 1 && config.maxClaimHistory >= 1
    requires Saved(next, t) && ListingOf(l, t) && AllTyped(t, l, d)
    requires FileFits(t, l, d, crc)
    ensures var r := ParseSnapshot(FileOf(t, l, d, crc), o, DocumentCodec(d), crc);
      && (r.Err? || (r.value.recovered && r.value.dropped > 0))
      && (AllFit(t, l, d) ==> r.Err?)
  {
    hide *;
    IllFormedIsStored(st, call, config);
    CommitIsGood(st, call, config);
    SavedIsGood(next, t);
    SavedCounters(next, t);
    SavedTexts(next, t);
    IllFormedRecord(t, l, d);
    FileReadsBackExactly(t, l, o, d, crc);
  }

  lemma CommitIsGood(st: State, call: Call, config: Config)
    requires Good(st) && Attempt(st, call, config).Ok?
    ensures Good(Attempt(st, call, config).value)
    ensures Attempt(st, call, config).value.nextSequence == st.nextSequence + 1
  {
    hide Good, Attempt, Body;
    AttemptKeeps(st, call, config);
    CommitParts(st, call, config);
  }

  // ----- One source, saved -----

  /** The first call an empty registry sees: a source with the name "a" and this description. */
  function FirstCall(description: Text, clock: Clock): Call {
    Call(RegisterSource([97], [], description), false, clock)
  }

  function OneSource(description: Text, clock: Clock): State {
    EMPTY_STATE.(generation := 1, mutations := 1, nextSequence := 2, nextSourceId := 2,
                 sources := map[1 := SourceRecord(1, [97], 1, [], description, 1, 1, clock.wallNs)],
                 sourceIdByName := map[[97] := 1])
  }

  const ONE_SOURCE := Listing([1], [], [], [], [])

  lemma FirstCallCommits(description: Text, clock: Clock, config: Config)
    requires config.maxSources >= 1 && |description| <= 512
    ensures Attempt(EMPTY_STATE, FirstCall(description, clock), config) == Ok(OneSource(description, clock))
  {
    AsciiIsUtf8([97]);
  }

  lemma OneSourceIsGood(description: Text, clock: Clock)
    ensures Good(OneSource(description, clock))
  {
  }

  lemma OneSourceListed(description: Text, clock: Clock)
    ensures ListingOf(ONE_SOURCE, OneSource(description, clock))
  {
  }

  lemma OneSourceIsReached(description: Text, clock: Clock, config: Config)
    requires config.maxSources >= 1 && |description| <= 512
    ensures Attempt(EMPTY_STATE, FirstCall(description, clock), config) == Ok(OneSource(description, clock))
    ensures Good(OneSource(description, clock)) && ListingOf(ONE_SOURCE, OneSource(description, clock))
  {
    hide *;
    FirstCallCommits(description, clock, config);
    OneSourceIsGood(description, clock);
    OneSourceListed(description, clock);
  }

  lemma OneSourceRecords(description: Text, clock: Clock)
    ensures var st := OneSource(description, clock);
      && ListingOf(ONE_SOURCE, st)
      && StateRecords(st, ONE_SOURCE) == [HeaderEntry(HeaderOf(st)), SourceEntry(st.sources[1])]
  {
  }

  lemma OneSourceRegistered(description: Text, clock: Clock)
    requires |description| <= 512 && Storable(clock.wallNs)
    ensures RegisteredForm(OneSource(description, clock).sources[1])
  {
    AsciiIsUtf8([97]);
    hide Utf8.Valid;
  }

  lemma OneSourceTyped(description: Text, clock: Clock, d: Doubles)
    requires |description| <= 512 && Storable(clock.wallNs)
    ensures var st := OneSource(description, clock); ListingOf(ONE_SOURCE, st) && AllTyped(st, ONE_SOURCE, d)
  {
    hide ListingOf, StateRecords, RegisteredForm;
    OneSourceRecords(description, clock);
    OneSourceRegistered(description, clock);
  }

  /** Header records always come back; source records exactly with a UTF-8 description. */
  lemma ShortRecords(h: StateHeader, s: SourceRecord, d: Doubles)
    requires HeaderStorable(h) && RegisteredForm(s) && Storable(s.generation) && Storable(s.sequence)
    ensures |EncodeRecord(HeaderEntry(h), d)| <= 0x1000 && |EncodeRecord(SourceEntry(s), d)| <= 0x8_0000
    ensures ReadsBack(HeaderEntry(h), d) && (ReadsBack(SourceEntry(s), d) <==> Utf8.Valid(s.description))
  {
    hide MakeObject, HeaderMembers, SourceMembers, DecodeHeader, DecodeSource, HeaderStorable, RegisteredForm,
         EncodeDocument, DecodeDocument, ReadsBack, Utf8.Valid;
    HeaderRoundTrip(h);
    SourceRoundTrip(s);
    RecordReadsExactly(HeaderEntry(h), d);
    RecordReadsExactly(SourceEntry(s), d);
  }

  lemma OneSourceSize(description: Text, clock: Clock, d: Doubles, crc: Checksum)
    requires |description| <= 512 && Storable(clock.wallNs)
    ensures var st := OneSource(description, clock);
      && ListingOf(ONE_SOURCE, st) && AllFit(st, ONE_SOURCE, d)
      && (AllReadBack(st, ONE_SOURCE, d) <==> Utf8.Valid(description))
      && FileFits(st, ONE_SOURCE, d, crc)
  {
    hide StateRecords, ListingOf, StreamBytes, EncodeRecord, DecodeRecord, ReadsBack, Utf8.Valid, RegisteredForm,
         HeaderStorable;
    var st := OneSource(description, clock);
    OneSourceRecords(description, clock);
    OneSourceRegistered(description, clock);
    OneSourceHeader(description, clock);
    ShortRecords(HeaderOf(st), st.sources[1], d);
    var frames := FramesOf(StateRecords(st, ONE_SOURCE), DocumentCodec(d));
    StreamSize(frames, crc);
    TwoFrames(frames);
  }

  lemma OneSourceHeader(description: Text, clock: Clock)
    ensures HeaderStorable(HeaderOf(OneSource(description, clock)))
  {
  }

  lemma TwoFrames(frames: seq<Frame>)
    requires |frames| == 2
    ensures SizeOf(frames) == |frames[0].payload| + |frames[1].payload| + 18
  {
    assert frames == [frames[0]] + [frames[1]];
    SizeFirst(frames[0], [frames[1]]);
    OneFrameSize(frames[1]);
  }

  lemma NotUtf8()
    ensures !Utf8.Valid([0xFF])
  {
  }

  /**
   * A registration the code accepts, a save it completes, and a file it never loads: the description is the single byte
   * 0xFF.
   */
  lemma AcceptedButNeverLoaded(clock: Clock, config: Config, o: Options, d: Doubles, crc: Checksum)
    requires config.maxSources >= 1 && Storable(clock.wallNs)
    ensures var st := OneSource([0xFF], clock);
      && Attempt(EMPTY_STATE, FirstCall([0xFF], clock), config) == Ok(st)
      && ListingOf(ONE_SOURCE, st)
      && ParseSnapshot(FileOf(st, ONE_SOURCE, d, crc), o, DocumentCodec(d), crc).Err?
  {
    hide OneSource, FirstCall, Attempt, ListingOf, StateRecords, DocumentCodec, FramesOf, StreamBytes, FileBytes,
         ParseSnapshot, Good, AllTyped, AllFit, AllReadBack, Utf8.Valid;
    var st := OneSource([0xFF], clock);
    NotUtf8();
    OneSourceIsReached([0xFF], clock, config);
    OneSourceTyped([0xFF], clock, d);
    OneSourceSize([0xFF], clock, d, crc);
    OneSourceCounters([0xFF], clock);
    FileReadsBackExactly(st, ONE_SOURCE, o, d, crc);
  }

  /**
   * The same registry with an empty description saves a file that reads back. One byte short inside its region, the
   * header record is still there whole, and the parse gives it up with everything else.
   */
  lemma OneByteShortLosesAll(clock: Clock, config: Config, o: Options, d: Doubles, crc: Checksum)
    requires config.maxSources >= 1 && Storable(clock.wallNs) && o.allowTailRecovery
    ensures var st := OneSource([], clock);
      && Attempt(EMPTY_STATE, FirstCall([], clock), config) == Ok(st)
      && ListingOf(ONE_SOURCE, st)
      && var frames := FramesOf(StateRecords(st, ONE_SOURCE), DocumentCodec(d));
         var stream, file := StreamOf(st, ONE_SOURCE, d, crc), FileOf(st, ONE_SOURCE, d, crc);
         var n := HEADER_BYTES + |stream| - 1;
         && |frames| == 2 && 0 <= n <= |file|
         && ParseSnapshot(file, o, DocumentCodec(d), crc) == Ok(Parsed(st, false, 0, 2, stream))
         && WholeFrames(frames, n - HEADER_BYTES) == 1
         && ParseSnapshot(file[..n], o, DocumentCodec(d), crc) == Ok(Parsed(EMPTY_STATE, true, n - HEADER_BYTES, 0, []))
  {
    hide OneSource, FirstCall, Attempt, ListingOf, StateRecords, DocumentCodec, FramesOf, StreamBytes, FrameBytes,
         FileBytes, ParseSnapshot, WholeFrames, Good, AllTyped, AllFit, AllReadBack, Fits, SizeOf, Total, Utf8.Valid;
    var st, codec := OneSource([], clock), DocumentCodec(d);
    EmptyIsUtf8();
    OneSourceIsReached([], clock, config);
    OneSourceTyped([], clock, d);
    OneSourceSize([], clock, d, crc);
    OneSourceFrames(clock, d);
    OneSourceCounters([], clock);
    FileReadsBackExactly(st, ONE_SOURCE, o, d, crc);
    TotalOfOne([], clock);
    var frames := FramesOf(StateRecords(st, ONE_SOURCE), codec);
    StreamSize(frames, crc);
    TwoFrames(frames);
    OneByteShort(frames, st.generation, st.nextSequence, o, codec, crc);
  }

  lemma EmptyIsUtf8()
    ensures Utf8.Valid([])
  {
  }

  lemma OneSourceCounters(description: Text, clock: Clock)
    ensures var st := OneSource(description, clock); st.nextSequence == 2 && st.generation == 1
  {
  }

  lemma TotalOfOne(description: Text, clock: Clock)
    ensures Total(OneSource(description, clock), ONE_SOURCE) == 1
  {
  }

  /** A record that reads back has at least the tag and the count of its object. */
  lemma TwoBytesAtLeast(r: Record, d: Doubles)
    requires TypedOf(r, d) && ReadsBack(r, d) && DocOf(r, d).Object?
    ensures |EncodeRecord(r, d)| >= 2
  {
    hide DocOf, TypedOf, RangesOf, InLimits, TextsOf;
    RecordShape(r, d);
  }

  lemma OneSourceFrames(clock: Clock, d: Doubles)
    requires Storable(clock.wallNs)
    ensures var st := OneSource([], clock);
      && ListingOf(ONE_SOURCE, st)
      && var frames := FramesOf(StateRecords(st, ONE_SOURCE), DocumentCodec(d));
         && |frames| == 2 && |frames[0].payload| >= 2 && |frames[1].payload| >= 2
         && forall f :: f in frames ==> Fits(f)
  {
    hide StateRecords, ListingOf, EncodeRecord, DecodeRecord, ReadsBack, Utf8.Valid, RegisteredForm, HeaderStorable,
         MakeObject, HeaderMembers, SourceMembers;
    var st := OneSource([], clock);
    EmptyIsUtf8();
    OneSourceRecords([], clock);
    OneSourceRegistered([], clock);
    OneSourceHeader([], clock);
    ShortRecords(HeaderOf(st), st.sources[1], d);
    MadeIsObject(HeaderMembers(HeaderOf(st)));
    MadeIsObject(SourceMembers(st.sources[1]));
    TwoBytesAtLeast(HeaderEntry(HeaderOf(st)), d);
    TwoBytesAtLeast(SourceEntry(st.sources[1]), d);
  }

  // ----- One module, quarantined -----

  const QUARANTINE := Call(Transition(OWNER, Handle(1, 1, 0), Quarantined, [0xFF]), false, CLOCK)

  const QUARANTINED_MODULE := NEW_MODULE.(state := Quarantined, stateGeneration := 3, stateSequence := 3,
    lifecycle := NEW_MODULE.lifecycle + [LifecycleEvent(Registered, Quarantined, 1, 1, 1, 3, 3, 1000, [0xFF])])

  const QUARANTINED := WITH_MODULE.(generation := 3, mutations := 3, nextSequence := 4,
                                    modules := map[1 := QUARANTINED_MODULE])

  const ONE_MODULE := Listing([1], [1], [], [], [])

  lemma Quarantines(config: Config)
    requires Roomy(config) && config.maxLifecycleHistory >= 3
    ensures Attempt(WITH_MODULE, QUARANTINE, config) == Ok(QUARANTINED)
  {
    var st, s := WITH_MODULE.(nextSequence := 4), StampOf(WITH_MODULE, QUARANTINE);
    assert ModuleAt(st, OWNER, Handle(1, 1, 0)) == Ok(NEW_MODULE);
    assert Capped(Advanced(NEW_MODULE, Quarantined, OWNER, s), config) == QUARANTINED_MODULE;
    assert map[1 := NEW_MODULE][1 := QUARANTINED_MODULE] == map[1 := QUARANTINED_MODULE];
  }

  lemma QuarantinedListed()
    ensures ListingOf(ONE_MODULE, QUARANTINED)
    ensures StateRecords(QUARANTINED, ONE_MODULE)
         == [HeaderEntry(HeaderOf(QUARANTINED)), SourceEntry(QUARANTINED.sources[1]), ModuleEntry(QUARANTINED_MODULE)]
  {
  }

  lemma QuarantinedSaved()
    ensures Saved(QUARANTINED, QUARANTINED)
  {
  }

  lemma QuarantinedTyped(d: Doubles)
    ensures ListingOf(ONE_MODULE, QUARANTINED) && AllTyped(QUARANTINED, ONE_MODULE, d)
  {
    hide ListingOf, StateRecords;
    QuarantinedListed();
    AsciiIsUtf8([97]);
    hide Utf8.Valid;
  }

  lemma WithModuleIsReached(config: Config)
    requires Roomy(config)
    ensures RunCalls(EMPTY_STATE, [REGISTER, ADD_MODULE], config) == WITH_MODULE && Good(WITH_MODULE)
  {
    hide Attempt, Good, WITH_MODULE, WITH_SOURCE, REGISTER, ADD_MODULE;
    FirstStep(config);
    SecondStep(config);
    assert [REGISTER, ADD_MODULE][..1] == [REGISTER];
    OneCall(EMPTY_STATE, REGISTER, config, WITH_SOURCE);
    EmptyIsGood();
    RunKeepsInvariant(EMPTY_STATE, [REGISTER, ADD_MODULE], config);
  }

  lemma ThreeFrames(frames: seq<Frame>)
    requires |frames| == 3
    ensures SizeOf(frames) == |frames[0].payload| + |frames[1].payload| + |frames[2].payload| + 27
  {
    assert frames == [frames[0]] + frames[1..];
    SizeFirst(frames[0], frames[1..]);
    TwoFrames(frames[1..]);
  }

  lemma QuarantinedIsUnwritable(d: Doubles)
    ensures EncodeRecord(ModuleEntry(QUARANTINED_MODULE), d) == []
  {
    QuarantinedTyped(d);
    QuarantinedListed();
    NotUtf8();
    hide Utf8.Valid, ClaimTexts, DeclarationTexts, SampleTexts, ModuleDoc, TypedOf, ListingOf;
    var e := QUARANTINED_MODULE.lifecycle[2];
    assert !EventTexts(e) && e in QUARANTINED_MODULE.lifecycle;
    assert StateRecords(QUARANTINED, ONE_MODULE)[2] == ModuleEntry(QUARANTINED_MODULE);
    assert TypedOf(ModuleEntry(QUARANTINED_MODULE), d);
    RecordShape(ModuleEntry(QUARANTINED_MODULE), d);
  }

  /** Header, source and an unwritable module: a short file. */
  lemma ThreeRecords(h: StateHeader, s: SourceRecord, m: ModuleRecord, d: Doubles, crc: Checksum)
    requires HeaderStorable(h) && RegisteredForm(s) && Storable(s.generation) && Storable(s.sequence)
    requires EncodeRecord(ModuleEntry(m), d) == []
    ensures var records := [HeaderEntry(h), SourceEntry(s), ModuleEntry(m)];
      && (forall r :: r in records ==> FitsFrame(r, d))
      && |StreamBytes(FramesOf(records, DocumentCodec(d)), crc)| <= MAX_SNAPSHOT_BYTES - HEADER_BYTES
  {
    hide StreamBytes, EncodeRecord, DecodeRecord, ReadsBack, Utf8.Valid, RegisteredForm, HeaderStorable;
    ShortRecords(h, s, d);
    var frames := FramesOf([HeaderEntry(h), SourceEntry(s), ModuleEntry(m)], DocumentCodec(d));
    StreamSize(frames, crc);
    ThreeFrames(frames);
  }

  lemma QuarantinedParts()
    ensures HeaderStorable(HeaderOf(QUARANTINED)) && 1 in QUARANTINED.sources
    ensures var s := QUARANTINED.sources[1]; RegisteredForm(s) && Storable(s.generation) && Storable(s.sequence)
  {
    AsciiIsUtf8([97]);
    hide Utf8.Valid;
  }

  lemma QuarantinedSize(d: Doubles, crc: Checksum)
    ensures ListingOf(ONE_MODULE, QUARANTINED) && AllFit(QUARANTINED, ONE_MODULE, d)
    ensures FileFits(QUARANTINED, ONE_MODULE, d, crc)
  {
    hide ListingOf, StateRecords, StreamBytes, FramesOf, DocumentCodec, EncodeRecord, FitsFrame, RegisteredForm,
         HeaderOf, HeaderStorable, QUARANTINED_MODULE, QUARANTINED, ONE_MODULE;
    QuarantinedListed();
    QuarantinedParts();
    QuarantinedIsUnwritable(d);
    ThreeRecords(HeaderOf(QUARANTINED), QUARANTINED.sources[1], QUARANTINED_MODULE, d, crc);
  }

  lemma ReasonIsIllFormed()
    ensures WITH_MODULE.nextSequence >= 1 && StoresIllFormed(QUARANTINE.op)
  {
    NotUtf8();
  }

  /**
   * Three calls on an empty registry, all accepted; the reason of the last is the byte 0xFF, and the save never loads.
   */
  lemma ReasonNeverLoaded(config: Config, o: Options, d: Doubles, crc: Checksum)
    requires Roomy(config) && config.maxLifecycleHistory >= 3
    ensures RunCalls(EMPTY_STATE, [REGISTER, ADD_MODULE], config) == WITH_MODULE
    ensures Attempt(WITH_MODULE, QUARANTINE, config) == Ok(QUARANTINED) && Saved(QUARANTINED, QUARANTINED)
    ensures ListingOf(ONE_MODULE, QUARANTINED)
    ensures ParseSnapshot(FileOf(QUARANTINED, ONE_MODULE, d, crc), o, DocumentCodec(d), crc).Err?
  {
    hide *;
    ReasonIsIllFormed();
    RoomForOne(config);
    WithModuleIsReached(config);
    Quarantines(config);
    QuarantinedSaved();
    QuarantinedTyped(d);
    QuarantinedSize(d, crc);
    IllFormedNeverLoads(WITH_MODULE, QUARANTINE, config, QUARANTINED, QUARANTINED, ONE_MODULE, o, d, crc);
  }

  lemma RoomForOne(config: Config)
    requires Roomy(config)
    ensures config.maxLifecycleHistory >= 1 && config.maxClaimHistory >= 1
  {
  }
}
