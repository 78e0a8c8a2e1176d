/** Sample accounting over whole runs: nothing vanishes uncounted, and every series is the end of its history. */
module SampleRuns {
  import opened Bytes
  import opened Ordering
  import A = Authority
  import opened Consensus
  import opened Lifecycle
  import opened Latch
  import opened Health
  import opened HealthReport
  import opened Trim
  import opened Samples
  import opened RegistryState
  import opened Validation
  import opened Mutations
  import opened RegistryInvariant
  import opened InvariantSteps
  import opened Runs

  // ----- The number of stored samples -----

  function Stored(modules: map<nat, ModuleRecord>): nat
    decreases |modules|
  {
    if modules == map[] then 0
    else
      var uid := Least(modules.Keys);
      |modules[uid].samples| + Stored(modules - {uid})
  }

  lemma {:induction false} StoredAt(modules: map<nat, ModuleRecord>, uid: nat)
    requires uid in modules
    ensures Stored(modules) == |modules[uid].samples| + Stored(modules - {uid})
    decreases |modules|
  {
    var least := Least(modules.Keys);
    if uid != least {
      var rest := modules - {least};
      StoredAt(rest, uid);
      assert (modules - {uid}).Keys == modules.Keys - {uid};
      LeastIs((modules - {uid}).Keys, least);
      assert (modules - {uid}) - {least} == rest - {uid};
    }
  }

  lemma LeastIs(s: set<nat>, x: nat)
    requires x in s && forall y :: y in s ==> x <= y
    ensures Least(s) == x
  {
  }

  lemma StoredPut(modules: map<nat, ModuleRecord>, uid: nat, r: ModuleRecord)
    ensures Stored(modules[uid := r]) + (if uid in modules then |modules[uid].samples| else 0)
         == Stored(modules) + |r.samples|
  {
    StoredAt(modules[uid := r], uid);
    assert modules[uid := r] - {uid} == modules - {uid};
    if uid in modules {
      StoredAt(modules, uid);
    } else {
      assert modules - {uid} == modules;
    }
  }

  // ----- What the tables keep -----

  function RingOf(r: ModuleRecord): Ring { Ring(r.samples, r.seriesCounts, 0) }

  /** Caps hold, and no series counter is below what is stored. */
  ghost predicate WithinCaps(r: ModuleRecord, config: Config) {
    && Counted(RingOf(r)) && |r.samples| <= config.maxSamplesPerModule
    && forall code :: |SeriesIn(r.samples, code)| <= config.maxSamplesPerSeries
  }

  ghost predicate CapsOk(modules: map<nat, ModuleRecord>, config: Config) {
    forall uid :: uid in modules ==> WithinCaps(modules[uid], config)
  }

  /** The latches stay as they are within an incarnation, and a new one starts without. */
  predicate LatchesStay(before: ModuleRecord, after: ModuleRecord) {
    && before.incarnation <= after.incarnation
    && after.latches == if after.incarnation == before.incarnation then before.latches else []
  }

  /** At most one record is rewritten, and its samples are not. */
  ghost predicate QuietAt(before: map<nat, ModuleRecord>, after: map<nat, ModuleRecord>, uid: nat) {
    && uid in after && after == before[uid := after[uid]]
    && after[uid].samples == (if uid in before then before[uid].samples else [])
    && after[uid].seriesCounts == (if uid in before then before[uid].seriesCounts else map[])
    && (if uid in before then LatchesStay(before[uid], after[uid]) else after[uid].latches == [])
  }

  ghost predicate Quiet(before: map<nat, ModuleRecord>, after: map<nat, ModuleRecord>) {
    after == before || exists uid :: QuietAt(before, after, uid)
  }

  lemma EmptyWithinCaps(r: ModuleRecord, config: Config)
    requires r.samples == [] && r.seriesCounts == map[]
    ensures WithinCaps(r, config)
  {
    forall code ensures SeriesIn(r.samples, code) == [] {
      FilterNone(OfSeries(code));
    }
  }

  lemma QuietKeeps(before: map<nat, ModuleRecord>, after: map<nat, ModuleRecord>, config: Config)
    requires Quiet(before, after) && CapsOk(before, config)
    ensures CapsOk(after, config) && Stored(after) == Stored(before)
    ensures forall uid :: uid in after ==> after[uid].samples == if uid in before then before[uid].samples else []
  {
    hide Counted, SeriesIn, Stored;
    if after != before {
      var uid :| QuietAt(before, after, uid);
      StoredPut(before, uid, after[uid]);
      if uid !in before {
        EmptyWithinCaps(after[uid], config);
      }
    }
  }

  // ----- Each body -----

  lemma OpenQuiet(st: State, key: Text, intent: Intent, a: RegistryState.Authority, config: Config, s: Stamp)
    requires OpenModule(st, key, intent, a, config, s).Ok? && st.nextModuleUid !in st.modules
    ensures var found := OpenModule(st, key, intent, a, config, s).value;
      && QuietAt(st.modules, found.st.modules, found.uid) && found.st.droppedSamples == st.droppedSamples
  {
    hide Gone, DetachAll, EventOf;
    var found := OpenModule(st, key, intent, a, config, s).value;
    if key in st.moduleUidByKey && intent == EnsureCurrent {
      assert st.modules[found.uid := st.modules[found.uid]] == st.modules;
    }
  }

  lemma QuietTwice(a: map<nat, ModuleRecord>, b: map<nat, ModuleRecord>, c: map<nat, ModuleRecord>, uid: nat,
                   r: ModuleRecord)
    requires QuietAt(a, b, uid) && c == b[uid := r]
    requires r.samples == b[uid].samples && r.seriesCounts == b[uid].seriesCounts
    requires r.latches == b[uid].latches && r.incarnation == b[uid].incarnation
    ensures QuietAt(a, c, uid)
  {
  }

  lemma EnsureRegisteredSamples(r: ModuleRecord, a: RegistryState.Authority, s: Stamp)
    ensures var t := EnsureRegistered(r, a, s);
      && t.samples == r.samples && t.seriesCounts == r.seriesCounts
      && t.latches == r.latches && t.incarnation == r.incarnation
  {
  }

  lemma RegisterModuleQuiet(st: State, key: Text, identity: seq<IdentityValue>, intent: Intent,
                            a: RegistryState.Authority, config: Config, s: Stamp)
    requires RegisterModuleBody(st, key, identity, intent, a, config, s).Ok? && st.nextModuleUid !in st.modules
    ensures Quiet(st.modules, RegisterModuleBody(st, key, identity, intent, a, config, s).value.modules)
    ensures RegisterModuleBody(st, key, identity, intent, a, config, s).value.droppedSamples == st.droppedSamples
  {
    hide Authorize, IdentityClaims, TrimList, OpenModule, QuietAt, EnsureRegistered, LastEvents;
    var found := OpenModule(st, key, intent, a, config, s).value;
    var next := RegisterModuleBody(st, key, identity, intent, a, config, s).value;
    OpenQuiet(st, key, intent, a, config, s);
    EnsureRegisteredSamples(found.st.modules[found.uid], a, s);
    QuietTwice(st.modules, found.st.modules, next.modules, found.uid, next.modules[found.uid]);
  }

  lemma PublicationQuiet(st: State, call: Call, config: Config, s: Stamp)
    requires Body(st, call, config, s).Ok? && (call.op.UpdateIdentity? || call.op.PublishCapability?)
    ensures Quiet(st.modules, Body(st, call, config, s).value.modules)
    ensures Body(st, call, config, s).value.droppedSamples == st.droppedSamples
  {
    hide ModuleAt, TrimList, NewClaim;
    ReachedIsAuthorized(st, call.op.authority, call.op.target);
    assert QuietAt(st.modules, Body(st, call, config, s).value.modules, call.op.target.uid);
  }

  lemma AdvancedSamples(r: ModuleRecord, to: LifecycleState, a: RegistryState.Authority, s: Stamp, config: Config)
    ensures var t := Capped(Advanced(r, to, a, s), config);
      && t.samples == r.samples && t.seriesCounts == r.seriesCounts
      && t.latches == r.latches && t.incarnation == r.incarnation
  {
  }

  /** A body that leaves the modules alone or advances one of them. */
  lemma AdvanceIsQuiet(st: State, next: State, uid: nat, to: LifecycleState, a: RegistryState.Authority, s: Stamp,
                       config: Config)
    requires uid in st.modules
    requires next.modules == st.modules || next.modules == st.modules[uid := st.modules[uid]]
          || next.modules == st.modules[uid := Capped(Advanced(st.modules[uid], to, a, s), config)]
    ensures Quiet(st.modules, next.modules)
  {
    hide Capped, Advanced;
    AdvancedSamples(st.modules[uid], to, a, s, config);
    assert next.modules == st.modules || QuietAt(st.modules, next.modules, uid);
  }

  lemma MoveQuiet(st: State, call: Call, config: Config, s: Stamp)
    requires Body(st, call, config, s).Ok? && (call.op.Transition? || call.op.Reconcile? || call.op.Attach?)
    ensures Quiet(st.modules, Body(st, call, config, s).value.modules)
    ensures Body(st, call, config, s).value.droppedSamples == st.droppedSamples
  {
    hide ModuleAt, TransitionAllowed, ReportOf, EvidenceOf, ReconcileTarget, HeldBy, LiveSlots, Capped, Advanced, Quiet;
    var h, next := call.op.target, Body(st, call, config, s).value;
    ReachedIsAuthorized(st, call.op.authority, h);
    var r := st.modules[h.uid];
    var to := if call.op.Transition? then call.op.to
              else if call.op.Attach? then Attached
              else ReconcileTarget(r.state, ReportOf(EvidenceOf(st, r, config, call.clock.reportWallNs)));
    AdvanceIsQuiet(st, next, h.uid, to, call.op.authority, s, config);
  }

  lemma DetachQuiet(st: State, a: RegistryState.Authority, slot: Text, config: Config, s: Stamp)
    requires DetachBody(st, a, slot, config, s).Ok?
    ensures Quiet(st.modules, DetachBody(st, a, slot, config, s).value.modules)
    ensures DetachBody(st, a, slot, config, s).value.droppedSamples == st.droppedSamples
  {
    hide Authorize, TransitionAllowed, LastEvents, EventOf, ImpliesAttachment;
    var next := DetachBody(st, a, slot, config, s).value.modules;
    assert next == st.modules || QuietAt(st.modules, next, st.attachments[slot].uid);
  }

  lemma OtherTablesQuiet(st: State, call: Call, config: Config, s: Stamp)
    requires Body(st, call, config, s).Ok?
    requires call.op.RegisterSource? || call.op.PublishPortCapability? || call.op.PublishThreshold?
          || call.op.PublishRule? || call.op.RetireRule?
    ensures Quiet(st.modules, Body(st, call, config, s).value.modules)
    ensures Body(st, call, config, s).value.droppedSamples == st.droppedSamples
  {
    hide Authorize, Retire, BoundHistory, LiveThresholds, PublishOnPort, NewClaim;
  }

  lemma BodyQuiet(st: State, call: Call, config: Config, s: Stamp)
    requires Body(st, call, config, s).Ok? && !call.op.IngestHealth? && st.nextModuleUid !in st.modules
    ensures Quiet(st.modules, Body(st, call, config, s).value.modules)
    ensures Body(st, call, config, s).value.droppedSamples == st.droppedSamples
  {
    hide RegisterModuleBody, DetachBody, Quiet;
    match call.op
    case RegisterModule(key, identity, intent, _, _, a) => RegisterModuleQuiet(st, key, identity, intent, a, config, s);
    case Detach(a, slot) => DetachQuiet(st, a, slot, config, s);
    case _ =>
      hide Body;
      if call.op.RegisterSource? || call.op.PublishPortCapability? || call.op.PublishThreshold?
         || call.op.PublishRule? || call.op.RetireRule? {
        OtherTablesQuiet(st, call, config, s);
      } else if call.op.UpdateIdentity? || call.op.PublishCapability? {
        PublicationQuiet(st, call, config, s);
      } else {
        MoveQuiet(st, call, config, s);
      }
  }

  lemma PushedCounted(r: ModuleRecord, x: HealthSample, code: nat)
    requires Counted(RingOf(r))
    ensures Counted(Pushed(r, x))
    ensures SeriesIn(r.samples + [x], code) ==
            if SampleSeries(x) == code then SeriesIn(r.samples, code) + [x] else SeriesIn(r.samples, code)
  {
    hide Filter;
    forall c ensures |SeriesIn(Pushed(r, x).samples, c)| <= CountOf(Pushed(r, x).counts, c) {
      assert |SeriesIn(RingOf(r).samples, c)| <= CountOf(RingOf(r).counts, c);
      FilterLast(r.samples, x, OfSeries(c));
    }
    FilterLast(r.samples, x, OfSeries(code));
  }

  /** One committed ingest: one sample more is accounted for, stored or dropped. */
  lemma IngestCounts(st: State, a: RegistryState.Authority, h: Handle, input: SampleInput, config: Config, clock: Clock,
                     s: Stamp)
    requires CapsOk(st.modules, config) && IngestBody(st, a, h, input, config, clock, s).Ok?
    ensures var next := IngestBody(st, a, h, input, config, clock, s).value;
      && CapsOk(next.modules, config)
      && Stored(next.modules) + next.droppedSamples == Stored(st.modules) + st.droppedSamples + 1
  {
    hide ModuleAt, StoredSample, Replayed, Latched, TrimRing, LiveThresholds, WithinCaps, Stored, Counted;
    ReachedIsAuthorized(st, a, h);
    var r := st.modules[h.uid];
    var x := StoredSample(input, r, a, clock, s);
    var next := IngestBody(st, a, h, input, config, clock, s).value;
    WithinCapsCounted(r, config);
    PushedCounted(r, x, 0);
    TrimRingExact(Pushed(r, x), config.maxSamplesPerSeries, config.maxSamplesPerModule, 0);
    StoredPut(st.modules, h.uid, next.modules[h.uid]);
    TrimmedWithinCaps(Pushed(r, x), next.modules[h.uid], config);
  }

  lemma WithinCapsCounted(r: ModuleRecord, config: Config)
    requires WithinCaps(r, config)
    ensures Counted(RingOf(r))
  {
    hide Counted;
  }

  lemma TrimmedWithinCaps(ring: Ring, r: ModuleRecord, config: Config)
    requires Counted(ring)
    requires var t := TrimRing(ring, config.maxSamplesPerSeries, config.maxSamplesPerModule);
      r.samples == t.samples && r.seriesCounts == t.counts
    ensures WithinCaps(r, config)
  {
    hide TrimRing, SeriesIn, CountOf;
    forall code
      ensures |SeriesIn(r.samples, code)| <= config.maxSamplesPerSeries
      ensures |SeriesIn(r.samples, code)| <= CountOf(r.seriesCounts, code)
      ensures |r.samples| <= config.maxSamplesPerModule
    {
      TrimRingExact(ring, config.maxSamplesPerSeries, config.maxSamplesPerModule, code);
    }
    TrimRingExact(ring, config.maxSamplesPerSeries, config.maxSamplesPerModule, 0);
  }

  // ----- Whole runs -----

  ghost function IngestsCommitted(st: State, calls: seq<Call>, config: Config): nat {
    if calls == [] then 0
    else IngestsCommitted(st, calls[..|calls| - 1], config) +
         if calls[|calls| - 1].op.IngestHealth? && Commits(st, calls, config, |calls| - 1) then 1 else 0
  }

  lemma BodyCounts(st: State, call: Call, config: Config, s: Stamp)
    requires CapsOk(st.modules, config) && Body(st, call, config, s).Ok? && st.nextModuleUid !in st.modules
    ensures var next := Body(st, call, config, s).value;
      && CapsOk(next.modules, config)
      && Stored(next.modules) + next.droppedSamples ==
         Stored(st.modules) + st.droppedSamples + if call.op.IngestHealth? then 1 else 0
  {
    hide CapsOk, Stored, IngestBody;
    if call.op.IngestHealth? {
      IngestCounts(st, call.op.authority, call.op.target, call.op.input, config, call.clock, s);
    } else {
      hide Body;
      BodyQuiet(st, call, config, s);
      QuietKeeps(st.modules, Body(st, call, config, s).value.modules, config);
    }
  }

  /** From an empty registry: stored plus dropped samples are exactly the committed ingests, within all caps. */
  lemma {:induction false} SamplesConserved(calls: seq<Call>, config: Config)
    ensures var st := RunCalls(EMPTY_STATE, calls, config);
      && Stored(st.modules) + st.droppedSamples == IngestsCommitted(EMPTY_STATE, calls, config)
      && CapsOk(st.modules, config)
  {
    hide Body, Attempt, CapsOk, Stored;
    if calls == [] {
      NothingStored(config);
    } else {
      var before := RunCalls(EMPTY_STATE, calls[..|calls| - 1], config);
      var call := calls[|calls| - 1];
      SamplesConserved(calls[..|calls| - 1], config);
      NextUidIsNew(calls[..|calls| - 1], config);
      if Attempt(before, call, config).Ok? {
        CommitParts(before, call, config);
        BodyCounts(before.(nextSequence := before.nextSequence + 1), call, config, StampOf(before, call));
      }
    }
  }

  lemma NextUidIsNew(calls: seq<Call>, config: Config)
    ensures var st := RunCalls(EMPTY_STATE, calls, config); st.nextModuleUid !in st.modules
  {
    hide Inv;
    EmptyIsGood();
    RunKeepsInvariant(EMPTY_STATE, calls, config);
    var st := RunCalls(EMPTY_STATE, calls, config);
    UidIsNew(st, st.nextSequence);
  }

  lemma NothingStored(config: Config)
    ensures Stored(EMPTY_STATE.modules) == 0 && CapsOk(EMPTY_STATE.modules, config)
  {
  }

  // ----- Each series is the end of its history -----

  function SamplesOf(st: State, uid: nat): seq<HealthSample> {
    if uid in st.modules then st.modules[uid].samples else []
  }

  /** The samples of one series in the order the registry accepted them. */
  ghost function Ingested(st: State, calls: seq<Call>, config: Config, uid: nat, code: nat): seq<HealthSample> {
    if calls == [] then []
    else
      var before := RunCalls(st, calls[..|calls| - 1], config);
      Ingested(st, calls[..|calls| - 1], config, uid, code) + Accepted(before, calls[|calls| - 1], config, uid, code)
  }

  ghost function Accepted(before: State, call: Call, config: Config, uid: nat, code: nat): seq<HealthSample> {
    if call.op.IngestHealth? && Attempt(before, call, config).Ok? && call.op.target.uid == uid
      && uid in before.modules then
      var x := StoredSample(call.op.input, before.modules[uid], call.op.authority, call.clock, StampOf(before, call));
      if SampleSeries(x) == code then [x] else []
    else []
  }

  lemma SuffixTwice<T>(a: seq<T>, b: seq<T>, c: seq<T>, tail: seq<T>)
    requires IsSuffix(a, b + tail) && IsSuffix(b, c)
    ensures IsSuffix(a, c + tail)
  {
  }

  lemma IngestSuffix(st: State, a: RegistryState.Authority, h: Handle, input: SampleInput, config: Config, clock: Clock,
                     s: Stamp, uid: nat, code: nat)
    requires CapsOk(st.modules, config) && IngestBody(st, a, h, input, config, clock, s).Ok?
    ensures h.uid in st.modules
    ensures var next := IngestBody(st, a, h, input, config, clock, s).value;
      var x := StoredSample(input, st.modules[h.uid], a, clock, s);
      IsSuffix(SeriesIn(SamplesOf(next, uid), code),
               SeriesIn(SamplesOf(st, uid), code) + if uid == h.uid && SampleSeries(x) == code then [x] else [])
  {
    hide ModuleAt, StoredSample, Replayed, Latched, TrimRing, LiveThresholds, WithinCaps, Counted, SeriesIn,
         SampleSeries;
    ReachedIsAuthorized(st, a, h);
    var r := st.modules[h.uid];
    var x := StoredSample(input, r, a, clock, s);
    if uid == h.uid {
      WithinCapsCounted(r, config);
      PushedCounted(r, x, code);
      TrimRingExact(Pushed(r, x), config.maxSamplesPerSeries, config.maxSamplesPerModule, code);
    }
  }

  lemma StepSuffix(before: State, call: Call, config: Config, uid: nat, code: nat)
    requires CapsOk(before.modules, config) && Attempt(before, call, config).Ok?
    requires before.nextModuleUid !in before.modules
    ensures IsSuffix(SeriesIn(SamplesOf(Attempt(before, call, config).value, uid), code),
                     SeriesIn(SamplesOf(before, uid), code) + Accepted(before, call, config, uid, code))
  {
    hide SeriesIn, CapsOk, StoredSample, IngestBody, SampleSeries, Attempt;
    CommitParts(before, call, config);
    var begun := before.(nextSequence := before.nextSequence + 1);
    var s := StampOf(before, call);
    if call.op.IngestHealth? {
      IngestSuffix(begun, call.op.authority, call.op.target, call.op.input, config, call.clock, s, uid, code);
    } else {
      hide Body;
      BodyQuiet(begun, call, config, s);
      QuietKeeps(before.modules, Body(begun, call, config, s).value.modules, config);
      QuietNothing(begun, call, config, s, uid, code);
    }
  }

  lemma QuietNothing(st: State, call: Call, config: Config, s: Stamp, uid: nat, code: nat)
    requires Body(st, call, config, s).Ok? && Quiet(st.modules, Body(st, call, config, s).value.modules)
    ensures SamplesOf(Body(st, call, config, s).value, uid) == SamplesOf(st, uid)
  {
    hide Body;
    var after := Body(st, call, config, s).value.modules;
    if after != st.modules {
      var u :| QuietAt(st.modules, after, u);
    }
  }

  /** Every stored series is a suffix of what was ingested into it, in order. */
  lemma {:induction false} SeriesIsSuffix(calls: seq<Call>, config: Config, uid: nat, code: nat)
    ensures IsSuffix(SeriesIn(SamplesOf(RunCalls(EMPTY_STATE, calls, config), uid), code),
                     Ingested(EMPTY_STATE, calls, config, uid, code))
  {
    if calls == [] {
      FilterNone(OfSeries(code));
    } else {
      hide Attempt, SeriesIn, Accepted, IsSuffix, CapsOk, Stored, SamplesOf;
      var front, call := calls[..|calls| - 1], calls[|calls| - 1];
      SeriesIsSuffix(front, config, uid, code);
      SamplesConserved(front, config);
      NextUidIsNew(front, config);
      var before := RunCalls(EMPTY_STATE, front, config);
      if Attempt(before, call, config).Ok? {
        StepSuffix(before, call, config, uid, code);
        SuffixTwice(SeriesIn(SamplesOf(Attempt(before, call, config).value, uid), code),
                    SeriesIn(SamplesOf(before, uid), code), Ingested(EMPTY_STATE, front, config, uid, code),
                    Accepted(before, call, config, uid, code));
      } else {
        AcceptedNothing(before, call, config, uid, code);
        var h := Ingested(EMPTY_STATE, front, config, uid, code);
        assert h + [] == h;
      }
    }
  }

  lemma AcceptedNothing(before: State, call: Call, config: Config, uid: nat, code: nat)
    requires Attempt(before, call, config).Err?
    ensures Accepted(before, call, config, uid, code) == []
  {
  }
}
