/**
 * Health evidence over whole runs in which a module gets no new sample: it only shrinks, and exactly when Stale stays
 * Stale.
 */
module EvidenceRuns {
  import opened Bytes
  import opened Provenances
  import opened Ordering
  import A = Authority
  import opened Lifecycle
  import opened Latch
  import opened Health
  import opened HealthReport
  import opened Trim
  import opened Samples
  import opened RegistryState
  import opened Validation
  import opened Mutations
  import opened RegistryInvariant
  import opened InvariantSteps
  import opened Runs
  import opened Resurrection
  import opened SampleRuns
  import opened Reachable

  // ----- What a run without ingestion leaves alone -----

  /** No sample is sent to this module; every other call is allowed, to any module. */
  ghost predicate NoSampleFor(calls: seq<Call>, uid: nat) {
    forall i :: 0 <= i < |calls| ==> calls[i].op.IngestHealth? ==> calls[i].op.target.uid != uid
  }

  /** The same samples, under incarnations and epochs that only grew. */
  ghost predicate SameSamples(st: State, next: State, uid: nat) {
    && uid in st.modules && uid in next.modules && next.modules[uid].samples == st.modules[uid].samples
    && st.modules[uid].incarnation <= next.modules[uid].incarnation
    && Later(Epochs(st.sources), Epochs(next.sources))
  }

  lemma IngestElsewhere(st: State, a: RegistryState.Authority, h: Handle, input: SampleInput, config: Config,
                        clock: Clock, s: Stamp, uid: nat)
    requires IngestBody(st, a, h, input, config, clock, s).Ok? && uid != h.uid && uid in st.modules
    ensures var next := IngestBody(st, a, h, input, config, clock, s).value;
      uid in next.modules && next.modules[uid] == st.modules[uid]
  {
    hide ModuleAt, StoredSample, Replayed, Latched, TrimRing, LiveThresholds;
  }

  lemma AttemptLeavesSamples(st: State, call: Call, config: Config, uid: nat)
    requires Good(st) && uid in st.modules && Attempt(st, call, config).Ok?
    requires call.op.IngestHealth? ==> call.op.target.uid != uid
    ensures SameSamples(st, Attempt(st, call, config).value, uid)
  {
    hide Attempt, Good, IngestBody, RecordStep, Later;
    CommitStep(st, call, config);
    CommitParts(st, call, config);
    var next := Attempt(st, call, config).value;
    StepIncarnation(st, next, uid, st.nextSequence);
    var begun, s := st.(nextSequence := st.nextSequence + 1), StampOf(st, call);
    if call.op.IngestHealth? {
      IngestElsewhere(begun, call.op.authority, call.op.target, call.op.input, config, call.clock, s, uid);
    } else {
      hide Body;
      GoodUidIsNew(st);
      BodyQuiet(begun, call, config, s);
      QuietNothing(begun, call, config, s, uid, 0);
    }
  }

  lemma GoodUidIsNew(st: State)
    requires Good(st)
    ensures st.nextModuleUid !in st.modules
  {
    hide Inv;
    UidIsNew(st, st.nextSequence);
  }

  lemma StepIncarnation(st: State, next: State, uid: nat, q: nat)
    requires StepOk(st, next, q) && uid in st.modules
    ensures uid in next.modules && st.modules[uid].incarnation <= next.modules[uid].incarnation
    ensures Later(Epochs(st.sources), Epochs(next.sources))
  {
    hide PortsStep, ListStep, SampleStep;
    assert RecordStep(st.modules[uid], next.modules[uid], q);
  }

  lemma SameSamplesTwice(a: State, b: State, c: State, uid: nat)
    requires SameSamples(a, b, uid) && SameSamples(b, c, uid)
    ensures SameSamples(a, c, uid)
  {
  }

  lemma {:induction false} SamplesStay(st: State, calls: seq<Call>, config: Config, uid: nat)
    requires Good(st) && uid in st.modules && NoSampleFor(calls, uid)
    ensures SameSamples(st, RunCalls(st, calls, config), uid)
  {
    hide Good, SameSamples, Attempt;
    if calls == [] {
      SameSamplesSelf(st, uid);
    } else {
      var front, call := calls[..|calls| - 1], calls[|calls| - 1];
      var before := RunCalls(st, front, config);
      SamplesStay(st, front, config, uid);
      RunKeepsInvariant(st, front, config);
      if Attempt(before, call, config).Ok? {
        assert uid in before.modules by { SameSamplesIn(st, before, uid); }
        AttemptLeavesSamples(before, call, config, uid);
        SameSamplesTwice(st, before, Attempt(before, call, config).value, uid);
      }
    }
  }

  lemma SameSamplesSelf(st: State, uid: nat)
    requires uid in st.modules
    ensures SameSamples(st, st, uid)
  {
  }

  lemma SameSamplesIn(st: State, next: State, uid: nat)
    requires SameSamples(st, next, uid)
    ensures uid in next.modules
  {
  }

  // ----- What that does to a series -----

  /** The series before and after: same entries, later live flags, and none that turned live. */
  ghost predicate Fading(before: seq<HealthSample>, after: seq<HealthSample>) {
    && |after| == |before|
    && forall i :: 0 <= i < |after| ==>
         after[i] == before[i].(live := after[i].live) && (after[i].live ==> before[i].live)
  }

  /** The source's entries that counted before still count: same incarnation, same epoch. */
  predicate StillCurrent(e: Evidence, f: Evidence, source: nat) {
    f.incarnation == e.incarnation && source in e.epochs && source in f.epochs && f.epochs[source] == e.epochs[source]
  }

  /** f is what e became: the same samples under later epochs and a later incarnation. */
  ghost predicate Aged(e: Evidence, f: Evidence) {
    && f.samples == e.samples && f.uid == e.uid && e.incarnation <= f.incarnation && Later(e.epochs, f.epochs)
    && forall s :: s in e.samples ==>
         s.incarnation <= e.incarnation && s.source in e.epochs && s.epoch <= e.epochs[s.source]
  }

  lemma MarkedFades(e: Evidence, f: Evidence, s: HealthSample)
    requires Aged(e, f) && s in e.samples
    ensures HealthReport.Marked(f, s).live <==> HealthReport.Marked(e, s).live && StillCurrent(e, f, s.source)
  {
  }

  /** Position by position, the later series is the earlier one with only the still-current entries live. */
  lemma {:induction false} SeriesFades(e: Evidence, f: Evidence, part: seq<HealthSample>, code: nat)
    requires Aged(e, f) && forall s :: s in part ==> s in e.samples
    ensures var before, after := Series(e, part, code), Series(f, part, code);
      && |after| == |before|
      && forall i :: 0 <= i < |after| ==>
           after[i] == before[i].(live := before[i].live && StillCurrent(e, f, before[i].source))
           && (before[i].live ==> before[i].incarnation == e.incarnation)
  {
    hide Aged, StillCurrent;
    if part != [] {
      var front, s := part[..|part| - 1], part[|part| - 1];
      assert part == front + [s];
      SeriesFades(e, f, front, code);
      MarkedFades(e, f, s);
    }
  }

  /** With the flags gone the newest map loses exactly the sources that are no longer current. */
  lemma {:induction false} NewestFades(e: Evidence, f: Evidence, before: seq<HealthSample>, after: seq<HealthSample>)
    requires |after| == |before| && f.uid == e.uid
    requires forall i :: 0 <= i < |after| ==>
      && after[i] == before[i].(live := before[i].live && StillCurrent(e, f, before[i].source))
      && (before[i].live ==> before[i].incarnation == e.incarnation)
    ensures var x, y := NewestBySource(before, e.uid, e.incarnation), NewestBySource(after, f.uid, f.incarnation);
      && (forall k :: k in y <==> k in x && StillCurrent(e, f, k))
      && (forall k :: k in y ==> y[k] == x[k])
  {
    if before != [] {
      var n := |before| - 1;
      NewestFades(e, f, before[..n], after[..n]);
      var s := before[n];
      assert after[n] == s.(live := s.live && StillCurrent(e, f, s.source));
      if StillCurrent(e, f, s.source) {
        assert after[n] == s;
      }
    }
  }

  lemma {:induction false} ListedMembers(newest: map<nat, HealthSample>, keys: seq<nat>, s: HealthSample)
    requires forall k :: k in keys ==> k in newest
    ensures s in Listed(newest, keys) <==> exists k :: k in keys && s == newest[k]
  {
    if keys != [] {
      ListedMembers(newest, keys[1..], s);
      assert keys == [keys[0]] + keys[1..];
    }
  }

  lemma NewestAre(samples: seq<HealthSample>, uid: nat, incarnation: nat, s: HealthSample)
    ensures s in Newest(samples, uid, incarnation) <==>
            s.source in NewestBySource(samples, uid, incarnation)
              && s == NewestBySource(samples, uid, incarnation)[s.source]
  {
    hide NewestBySource, Listed;
    NewestExact(samples, uid, incarnation);
    var newest := NewestBySource(samples, uid, incarnation);
    ListedMembers(newest, Ascending(newest.Keys), s);
  }

  /** The newest samples that remain are exactly those of sources still current. */
  lemma NewestThatRemain(e: Evidence, f: Evidence, code: nat, s: HealthSample)
    requires Aged(e, f)
    ensures s in Newest(Series(f, f.samples, code), f.uid, f.incarnation) <==>
            s in Newest(Series(e, e.samples, code), e.uid, e.incarnation) && StillCurrent(e, f, s.source)
  {
    hide Newest, NewestBySource, Series, StillCurrent;
    var before, after := Series(e, e.samples, code), Series(f, e.samples, code);
    SeriesFades(e, f, e.samples, code);
    NewestFades(e, f, before, after);
    NewestAre(before, e.uid, e.incarnation, s);
    NewestAre(after, f.uid, f.incarnation, s);
  }

  /** For a fixed threshold, sources can only stop contributing; a Stale series stays so exactly while some aged-out
      source is still current. */
  lemma FadingEvidence(e: Evidence, f: Evidence, code: nat, t: Threshold)
    requires Aged(e, f) && e.now <= f.now && f.skewNs == e.skewNs
    requires forall s :: s in e.samples ==> s.wallNs <= e.now + e.skewNs
    ensures var before, after := Series(e, e.samples, code), Series(f, f.samples, code);
      && Contributing(after, t, f.uid, f.incarnation, f.now, f.skewNs)
         <= Contributing(before, t, e.uid, e.incarnation, e.now, e.skewNs)
      && (Classify(before, Some(t), e.uid, e.incarnation, e.now, e.skewNs).state == StaleState ==>
          (Classify(after, Some(t), f.uid, f.incarnation, f.now, f.skewNs).state == StaleState <==>
           exists s :: s in Newest(before, e.uid, e.incarnation) && AgedOut(s, t, e.now, e.skewNs)
                       && StillCurrent(e, f, s.source)))
  {
    hide Newest, Classify, Series, StillCurrent, AgedOut, Aged, FreshOf;
    var before, after := Series(e, e.samples, code), Series(f, f.samples, code);
    var was, now := Newest(before, e.uid, e.incarnation), Newest(after, f.uid, f.incarnation);
    forall s | s in was ensures s.wallNs <= e.now + e.skewNs {
      NewestMembers(before, e.uid, e.incarnation, s);
      SeriesFrom(e, code, s);
    }
    forall s ensures s in now <==> s in was && StillCurrent(e, f, s.source) {
      NewestThatRemain(e, f, code, s);
    }
    FreshnessRunsOut(was, t, e.now, f.now, e.skewNs);
    forall s | s in FreshOf(now, t, f.now, f.skewNs) ensures s in FreshOf(was, t, e.now, e.skewNs) {
      assert s in FreshOf(was, t, f.now, e.skewNs);
    }
    StaleExactly(before, t, e.uid, e.incarnation, e.now, e.skewNs);
    StaleExactly(after, t, f.uid, f.incarnation, f.now, f.skewNs);
    if FreshOf(was, t, e.now, e.skewNs) == [] {
      NoFreshLeft(FreshOf(now, t, f.now, f.skewNs), FreshOf(was, t, e.now, e.skewNs));
      forall s | s in was ensures AgedOut(s, t, f.now, f.skewNs) <==> AgedOut(s, t, e.now, e.skewNs) {
        NeverFreshAgain(was, s, t, e.now, f.now, e.skewNs);
      }
    }
  }

  lemma NoFreshLeft(a: seq<HealthSample>, b: seq<HealthSample>)
    requires forall s :: s in a ==> s in b
    ensures b == [] ==> a == []
  {
    if a != [] {
      assert a[0] in b;
    }
  }

  lemma NeverFreshAgain(list: seq<HealthSample>, s: HealthSample, t: Threshold, earlier: int, later: int, skewNs: int)
    requires s in list && FreshOf(list, t, earlier, skewNs) == [] && earlier <= later && s.wallNs <= earlier + skewNs
    ensures AgedOut(s, t, later, skewNs) <==> AgedOut(s, t, earlier, skewNs)
  {
    hide FreshOf;
    assert !(s in FreshOf(list, t, earlier, skewNs));
    assert !Fresh(s, t, earlier, skewNs);
  }

  // ----- Over runs -----

  lemma RunAges(st: State, next: State, config: Config, uid: nat, earlier: int, later: int)
    requires Good(st) && Good(next) && SameSamples(st, next, uid)
    ensures Aged(EvidenceOf(st, st.modules[uid], config, earlier), EvidenceOf(next, next.modules[uid], config, later))
  {
    hide Inv, RecordOk, LiveThresholds, DeclaredTelemetry;
    RecordAt(st, uid, st.nextSequence);
    RecordAt(next, uid, next.nextSequence);
    OwnLists(st.modules[uid], uid, Epochs(st.sources), st.nextSequence);
    OwnLists(next.modules[uid], uid, Epochs(next.sources), next.nextSequence);
  }

  /**
   * Between two clock readings any calls may run, only none that brings this module a sample. For a fixed threshold the
   * contributing sources shrink, and a Stale series is Stale afterwards exactly if the module is still the same
   * incarnation and some source that had aged out still holds the epoch it sampled under.
   */
  lemma EvidenceOverRuns(st: State, calls: seq<Call>, config: Config, uid: nat, code: nat, t: Threshold, earlier: int,
                         later: int)
    requires Good(st) && uid in st.modules && NoSampleFor(calls, uid) && earlier <= later
    requires forall s :: s in st.modules[uid].samples ==> s.wallNs <= earlier + config.maxFutureSkewNs
    ensures var next := RunCalls(st, calls, config);
      && uid in next.modules
      && var e, f := EvidenceOf(st, st.modules[uid], config, earlier),
         EvidenceOf(next, next.modules[uid], config, later);
         var before, after := Series(e, e.samples, code), Series(f, f.samples, code);
         && Contributing(after, t, f.uid, f.incarnation, later, f.skewNs)
            <= Contributing(before, t, e.uid, e.incarnation, earlier, e.skewNs)
         && (Classify(before, Some(t), e.uid, e.incarnation, earlier, e.skewNs).state == StaleState ==>
             (Classify(after, Some(t), f.uid, f.incarnation, later, f.skewNs).state == StaleState <==>
              exists s :: s in Newest(before, e.uid, e.incarnation) && AgedOut(s, t, earlier, e.skewNs)
                          && StillCurrent(e, f, s.source)))
  {
    hide Good, RunCalls, Series, Classify, Contributing, Newest, Aged, AgedOut, StillCurrent, LiveThresholds,
         DeclaredTelemetry;
    var next := RunCalls(st, calls, config);
    SamplesStay(st, calls, config, uid);
    RunKeepsInvariant(st, calls, config);
    RunAges(st, next, config, uid, earlier, later);
    FadingEvidence(EvidenceOf(st, st.modules[uid], config, earlier), EvidenceOf(next, next.modules[uid], config, later),
                   code, t);
  }

  /** In a reachable registry the bound on the stamps is not an assumption: ingestion enforces it. */
  lemma ReachableStamps(calls: seq<Call>, config: Config, uid: nat, earlier: int)
    requires ClockForward(calls, earlier) && config.maxFutureSkewNs >= 0
    requires uid in RunCalls(EMPTY_STATE, calls, config).modules
    ensures Good(RunCalls(EMPTY_STATE, calls, config))
    ensures forall s :: s in RunCalls(EMPTY_STATE, calls, config).modules[uid].samples ==>
              s.wallNs <= earlier + config.maxFutureSkewNs
  {
    hide Good, RunCalls;
    EmptyIsGood();
    RunKeepsInvariant(EMPTY_STATE, calls, config);
    var st := RunCalls(EMPTY_STATE, calls, config);
    forall s | s in st.modules[uid].samples ensures s.wallNs <= earlier + config.maxFutureSkewNs {
      StampsBounded(calls, config, earlier, uid, s);
    }
  }

  // ----- A Stale series that does not stay Stale -----

  const CLOCK := Clock(1000, 0, 0, 1000)
  const OWNER := RegistryState.Authority(1, 1)
  const SEEN := Provenance(RealEvidence, [97], [], [])

  const REGISTER := Call(RegisterSource([97], [], []), false, CLOCK)
  const ADD_MODULE := Call(RegisterModule([109], [], EnsureCurrent, SEEN, 0, OWNER), false, CLOCK)
  const MEASURE :=
    Call(IngestHealth(OWNER, Handle(1, 1, 0), SampleInput(TemperatureCelsius, 0, Present, 40.0, 1000, 0, 0, SEEN)),
         false, CLOCK)

  const SAMPLE := HealthSample(TemperatureCelsius, 0, Present, 40.0, 1000, 0, 0, 1, 1, 1, 1, 3, 3, SEEN, true)
  const SERIES := 0x1_0000

  const WITH_SOURCE := EMPTY_STATE.(generation := 1, mutations := 1, nextSequence := 2, nextSourceId := 2,
    sources := map[1 := SourceRecord(1, [97], 1, [], [], 1, 1, 1000)], sourceIdByName := map[[97] := 1])

  const NEW_MODULE := ModuleRecord([109], 1, 1, Registered, 2, 2, 1000, 2, 2, 1000, 0, 1, [], [], [],
    [LifecycleEvent(Discovered, Discovered, 1, 1, 1, 2, 2, 1000, Ascii("module key observed for the first time")),
     LifecycleEvent(Discovered, Registered, 1, 1, 1, 2, 2, 1000, Ascii("module identity registered"))],
    [], map[])

  const WITH_MODULE := WITH_SOURCE.(generation := 2, mutations := 2, nextSequence := 3, nextModuleUid := 2,
    modules := map[1 := NEW_MODULE], moduleUidByKey := map[[109] := 1])

  const WITH_SAMPLE := WITH_MODULE.(generation := 3, mutations := 3, nextSequence := 4,
    modules := map[1 := NEW_MODULE.(samples := [SAMPLE], seriesCounts := map[SERIES := 1])])

  const RECONNECTED := WITH_SAMPLE.(generation := 4, mutations := 4, nextSequence := 5,
    sources := map[1 := SourceRecord(1, [97], 2, [], [], 4, 4, 1000)])

  /** Room for the little the example stores. */
  predicate Roomy(config: Config) {
    && config.maxSources >= 1 && config.maxModules >= 1 && config.maxClaimsPerModule >= 1 && config.maxClaimHistory >= 1
    && config.maxLifecycleHistory >= 2 && config.maxSamplesPerSeries >= 1 && config.maxSamplesPerModule >= 1
    && config.maxFutureSkewNs >= 0
  }

  lemma FirstStep(config: Config)
    requires Roomy(config)
    ensures Attempt(EMPTY_STATE, REGISTER, config) == Ok(WITH_SOURCE)
  {
  }

  lemma SeenIsFine()
    ensures CheckProvenance(SEEN) == Ok(())
  {
  }

  lemma NothingToTrim(maxTotal: nat, maxHistory: nat)
    ensures TrimList<Text>(OfIdentity, [], maxTotal, maxHistory) == Ok([])
  {
  }

  lemma OpensNew(st: State, config: Config, s: Stamp)
    requires st == WITH_SOURCE.(nextSequence := 3) && s == Stamp(2, 2, 1000, SEEN, None) && config.maxModules >= 1
    ensures Authorize(st, OWNER) == Ok(())
    ensures OpenModule(st, [109], EnsureCurrent, OWNER, config, s)
         == Ok(Opened(st.(nextModuleUid := 2, modules := map[1 := NewModule([109], 1, OWNER, s)],
                          moduleUidByKey := map[[109] := 1]), 1))
  {
  }

  lemma NewIsRegistered(s: Stamp, config: Config)
    requires s == Stamp(2, 2, 1000, SEEN, None) && config.maxLifecycleHistory >= 2
    ensures EnsureRegistered(NewModule([109], 1, OWNER, s), OWNER, s) == NEW_MODULE
    ensures Capped(NEW_MODULE, config) == NEW_MODULE
  {
    var e := EventOf(Discovered, Discovered, 1, OWNER, s);
    var f := EventOf(Discovered, Registered, 1, OWNER, s);
    assert [e] + [f] == [e, f];
  }

  lemma RegistersModule(config: Config)
    requires Roomy(config)
    ensures RegisterModuleBody(WITH_SOURCE.(nextSequence := 3), [109], [], EnsureCurrent, OWNER, config,
                               Stamp(2, 2, 1000, SEEN, None))
         == Ok(WITH_MODULE.(generation := 1, mutations := 1))
  {
    hide Authorize, OpenModule, EnsureRegistered, Capped, TrimList, NewModule;
    var st, s := WITH_SOURCE.(nextSequence := 3), Stamp(2, 2, 1000, SEEN, None);
    OpensNew(st, config, s);
    NewIsRegistered(s, config);
    NothingToTrim(config.maxClaimsPerModule, config.maxClaimHistory);
    assert NEW_MODULE.claims + IdentityClaims([], OWNER, 1, 1, s) == [];
    assert map[1 := NewModule([109], 1, OWNER, s)][1 := NEW_MODULE] == map[1 := NEW_MODULE];
  }

  lemma SecondStep(config: Config)
    requires Roomy(config)
    ensures Attempt(WITH_SOURCE, ADD_MODULE, config) == Ok(WITH_MODULE)
  {
    hide RegisterModuleBody, CheckProvenance;
    SeenIsFine();
    RegistersModule(config);
  }

  lemma SampleIsStored(config: Config)
    requires Roomy(config)
    ensures var input := MEASURE.op.input;
      && CheckSample(input, config, 1000) == Ok(())
      && StoredSample(input, NEW_MODULE, OWNER, CLOCK, Stamp(3, 3, 1000, NO_PROVENANCE, None)) == SAMPLE
      && SampleSeries(SAMPLE) == SERIES
  {
    hide CheckProvenance;
    SeenIsFine();
  }

  lemma RingOfOne(config: Config)
    requires Roomy(config)
    ensures TrimRing(Pushed(NEW_MODULE, SAMPLE), config.maxSamplesPerSeries, config.maxSamplesPerModule)
         == Ring([SAMPLE], map[SERIES := 1], 0)
  {
    hide TrimRing;
    assert [] + [SAMPLE] == [SAMPLE];
    assert SampleSeries(SAMPLE) == SERIES;
    assert Pushed(NEW_MODULE, SAMPLE) == Ring([SAMPLE], map[SERIES := 1], 0);
    WithinLimit(Ring([SAMPLE], map[SERIES := 1], 0), config.maxSamplesPerSeries, config.maxSamplesPerModule);
  }

  lemma IngestsSample(config: Config)
    requires Roomy(config)
    ensures IngestBody(WITH_MODULE.(nextSequence := 4), OWNER, Handle(1, 1, 0), MEASURE.op.input, config, CLOCK,
                       Stamp(3, 3, 1000, NO_PROVENANCE, None))
         == Ok(WITH_SAMPLE.(generation := 2, mutations := 2))
  {
    hide TrimRing, Pushed, StoredSample, SampleSeries;
    SampleIsStored(config);
    RingOfOne(config);
    var st := WITH_MODULE.(nextSequence := 4);
    assert ModuleAt(st, OWNER, Handle(1, 1, 0)) == Ok(NEW_MODULE);
    assert LiveThresholds(st.thresholds) == [];
    assert SelectedThreshold([], TemperatureCelsius, 0) == None;
    assert Latched(NEW_MODULE, [], SAMPLE) == NEW_MODULE;
    assert map[1 := NEW_MODULE][1 := NEW_MODULE.(samples := [SAMPLE], seriesCounts := map[SERIES := 1])]
        == map[1 := NEW_MODULE.(samples := [SAMPLE], seriesCounts := map[SERIES := 1])];
  }

  lemma ThirdStep(config: Config)
    requires Roomy(config)
    ensures Attempt(WITH_MODULE, MEASURE, config) == Ok(WITH_SAMPLE)
  {
    hide IngestBody, CheckSample;
    SampleIsStored(config);
    IngestsSample(config);
  }

  lemma FourthStep(config: Config)
    requires Roomy(config)
    ensures Attempt(WITH_SAMPLE, REGISTER, config) == Ok(RECONNECTED)
  {
    var was, reconnected := SourceRecord(1, [97], 1, [], [], 1, 1, 1000), SourceRecord(1, [97], 2, [], [], 4, 4, 1000);
    assert map[1 := was][1 := reconnected] == map[1 := reconnected];
  }

  lemma ThreeCalls(st: State, a: Call, b: Call, c: Call, config: Config, x: State, y: State, z: State)
    requires Attempt(st, a, config) == Ok(x) && Attempt(x, b, config) == Ok(y) && Attempt(y, c, config) == Ok(z)
    ensures RunCalls(st, [a, b, c], config) == z
    ensures RunCalls(st, [a], config) == x
  {
    hide Attempt;
    assert [a, b, c][..2] == [a, b] && [a, b][..1] == [a] && [a][..0] == [];
    assert RunCalls(st, [], config) == st;
    assert RunCalls(st, [a], config) == x;
    assert RunCalls(st, [a, b], config) == y;
  }

  lemma OneCall(st: State, a: Call, config: Config, x: State)
    requires Attempt(st, a, config) == Ok(x)
    ensures RunCalls(st, [a], config) == x
  {
    hide Attempt;
    assert [a][..0] == [] && RunCalls(st, [], config) == st;
  }

  lemma SeriesOfOne(e: Evidence, s: HealthSample, code: nat)
    requires SampleSeries(s) == code
    ensures Series(e, [s], code) == [HealthReport.Marked(e, s)]
  {
    assert [s][..0] == [] && Series(e, [], code) == [];
  }

  lemma NewestOfOne(s: HealthSample, uid: nat, incarnation: nat)
    ensures NewestBySource([s], uid, incarnation) == if Eligible(s, uid, incarnation) then map[s.source := s] else map[]
    ensures s.moduleUid == uid && !Eligible(s, uid, incarnation) ==> FencedCount([s], uid, incarnation) == 1
  {
    assert [s][..0] == [] && NewestBySource([], uid, incarnation) == map[] && FencedCount([], uid, incarnation) == 0;
  }

  lemma {:induction false} NoneFresh(list: seq<HealthSample>, t: Threshold, now: int, skewNs: int)
    requires forall x :: x in list ==> !Fresh(x, t, now, skewNs)
    ensures FreshOf(list, t, now, skewNs) == []
  {
    if list != [] {
      NoneFresh(list[..|list| - 1], t, now, skewNs);
    }
  }

  lemma StaleOfOne(s: HealthSample, t: Threshold, uid: nat, incarnation: nat, now: int, skewNs: int)
    requires Eligible(s, uid, incarnation) && AgedOut(s, t, now, skewNs)
    ensures Classify([s], Some(t), uid, incarnation, now, skewNs).state == StaleState
  {
    hide Classify, Newest, FreshOf, NewestBySource;
    var list := Newest([s], uid, incarnation);
    NewestOfOne(s, uid, incarnation);
    NewestAre([s], uid, incarnation, s);
    forall x | x in list ensures x == s {
      NewestAre([s], uid, incarnation, x);
    }
    NoneFresh(list, t, now, skewNs);
    StaleExactly([s], t, uid, incarnation, now, skewNs);
  }

  lemma FencedOfOne(s: HealthSample, t: Threshold, uid: nat, incarnation: nat, now: int, skewNs: int)
    requires s.moduleUid == uid && !Eligible(s, uid, incarnation)
    ensures Classify([s], Some(t), uid, incarnation, now, skewNs).state == FencedState
  {
    hide NewestBySource, FencedCount, Judged, Listed;
    NewestOfOne(s, uid, incarnation);
    assert Newest([s], uid, incarnation) == [];
  }

  /**
   * Four calls on an empty registry: a source registers, adds a module, measures it once, and reconnects without an
   * instance id. The series has gone Stale before the last call and is Fenced after it.
   */
  lemma StaleNeedNotStay(config: Config, t: Threshold, earlier: int, later: int)
    requires Roomy(config) && earlier == 1001 + t.maxAgeNs && 0 <= t.maxAgeNs && earlier <= later
    ensures RunCalls(EMPTY_STATE, [REGISTER, ADD_MODULE, MEASURE], config) == WITH_SAMPLE
    ensures RunCalls(WITH_SAMPLE, [REGISTER], config) == RECONNECTED && NoSampleFor([REGISTER], 1)
    ensures var e := EvidenceOf(WITH_SAMPLE, WITH_SAMPLE.modules[1], config, earlier);
      Classify(Series(e, e.samples, SERIES), Some(t), 1, 1, earlier, config.maxFutureSkewNs).state == StaleState
    ensures var f := EvidenceOf(RECONNECTED, RECONNECTED.modules[1], config, later);
      Classify(Series(f, f.samples, SERIES), Some(t), 1, 1, later, config.maxFutureSkewNs).state == FencedState
  {
    hide Attempt, Classify, LiveThresholds, DeclaredTelemetry, RunCalls, Series, SampleSeries;
    FirstStep(config);
    SecondStep(config);
    ThirdStep(config);
    FourthStep(config);
    ThreeCalls(EMPTY_STATE, REGISTER, ADD_MODULE, MEASURE, config, WITH_SOURCE, WITH_MODULE, WITH_SAMPLE);
    OneCall(WITH_SAMPLE, REGISTER, config, RECONNECTED);
    SampleIsStored(config);
    var e := EvidenceOf(WITH_SAMPLE, WITH_SAMPLE.modules[1], config, earlier);
    var f := EvidenceOf(RECONNECTED, RECONNECTED.modules[1], config, later);
    SeriesOfOne(e, SAMPLE, SERIES);
    SeriesOfOne(f, SAMPLE, SERIES);
    assert HealthReport.Marked(e, SAMPLE) == SAMPLE;
    StaleOfOne(SAMPLE, t, 1, 1, earlier, config.maxFutureSkewNs);
    FencedOfOne(HealthReport.Marked(f, SAMPLE), t, 1, 1, later, config.maxFutureSkewNs);
  }
}
