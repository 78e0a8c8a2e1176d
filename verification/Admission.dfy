/** What the argument checks keep out of the tables, over whole runs: src/registry.cpp:140-205, 638-1190, 1358-1530. */
module Admission {
  import opened Bytes
  import opened Provenances
  import Utf8
  import opened Ordering
  import opened Consensus
  import opened Capability
  import Compatibility
  import opened Lifecycle
  import opened Latch
  import opened Health
  import opened HealthReport
  import opened Trim
  import opened Samples
  import opened RegistryState
  import opened Validation
  import opened Mutations
  import opened RegistryInvariant
  import opened InvariantSteps
  import opened Runs
  import opened Resurrection
  import opened Answers
  import opened Effects
  import opened CallEffects

  // ----- What may be stored -----

  /** Evidence says how it was obtained and by whom. */
  predicate Declared(p: Provenance) {
    && (p.kind == RealEvidence || p.kind == SyntheticEvidence)
    && 1 <= |p.origin| <= 128 && |p.procedure| <= 128 && |p.captureRef| <= 256
    && Utf8.Valid(p.origin) && Utf8.Valid(p.procedure)
  }

  predicate FieldAdmitted(attr: nat, subkey: Text, value: Text) {
    && attr != 0 && 1 <= |value| <= 256 && |subkey| <= 128 && Utf8.Valid(value) && Utf8.Valid(subkey)
    && (attr == 10 <==> subkey != [])
  }

  predicate ClaimAdmitted(c: IdentityClaim) { FieldAdmitted(c.attr, c.subkey, c.value) && Declared(c.provenance) }

  predicate DeclarationAdmitted(c: Declaration) {
    c.attr != 0 && c.attr != 24 && (c.attr == 23 <==> c.subkey != []) && Declared(c.provenance)
  }

  /** What a metric can physically read. */
  predicate Plausible(metric: Metric, value: real) {
    match metric
    case TemperatureCelsius => -40.0 <= value <= 150.0
    case SupplyVoltageVolts => 0.0 <= value <= 5.0
    case TxPowerDbm => -40.0 <= value <= 20.0
    case RxPowerDbm => -40.0 <= value <= 20.0
    case TxBiasCurrentMilliamps => 0.0 <= value <= 500.0
    case LaneSkewPicoseconds => 0.0 <= value <= 10000000.0
    case _ => false
  }

  predicate SampleAdmitted(x: HealthSample, config: Config) {
    && x.metric != UnknownMetric && x.metric != UnsupportedMetric
    && (x.lane == 0xFFFF || x.lane <= config.maxLaneIndex)
    && (if x.presence == Present then Plausible(x.metric, x.value) else x.value == 0.0)
    && Declared(x.provenance)
  }

  /** Bands are nested on the side the threshold looks, and both counters and the age bound are positive. */
  predicate ThresholdAdmitted(t: Threshold) {
    && t.metric != UnknownMetric && t.metric != UnsupportedMetric && (t.lane == 0xFFFF || t.lane <= 255)
    && (t.hasDegraded || t.hasCritical) && t.escalateAfter >= 1 && t.recoverAfter >= 1
    && t.maxAgeNs >= 1 && t.disagreementTolerance >= 0.0
    && (if t.direction == Above then
          && (t.hasDegraded ==> t.degradedExit <= t.degradedEnter)
          && (t.hasCritical ==> t.criticalExit <= t.criticalEnter)
          && (t.hasDegraded && t.hasCritical ==> t.degradedEnter <= t.criticalEnter)
        else
          && (t.hasDegraded ==> t.degradedExit >= t.degradedEnter)
          && (t.hasCritical ==> t.criticalExit >= t.criticalEnter)
          && (t.hasDegraded && t.hasCritical ==> t.degradedEnter >= t.criticalEnter))
    && Declared(t.provenance)
  }

  predicate SourceAdmitted(r: SourceRecord) {
    && 1 <= |r.name| <= 128 && |r.instanceId| <= 128 && |r.description| <= 512
    && Utf8.Valid(r.name) && Utf8.Valid(r.instanceId)
  }

  ghost predicate ModuleAdmitted(r: ModuleRecord, config: Config) {
    && r.key != []
    && (forall c :: c in r.claims ==> ClaimAdmitted(c))
    && (forall c :: c in r.declarations ==> DeclarationAdmitted(c) && |c.subkey| <= 128)
    && (forall x :: x in r.samples ==> SampleAdmitted(x, config))
  }

  ghost predicate Admitted(st: State, config: Config) {
    && (forall id :: id in st.sources ==> SourceAdmitted(st.sources[id]))
    && (forall uid :: uid in st.modules ==> ModuleAdmitted(st.modules[uid], config))
    && (forall port :: port in st.ports ==>
          port != [] && forall c :: c in st.ports[port].declarations ==> DeclarationAdmitted(c))
    && (forall slot :: slot in st.attachments ==> slot != [] && st.attachments[slot].portIndex <= 255)
    && (forall t :: t in st.thresholds ==> ThresholdAdmitted(t.threshold))
    && (forall id :: id in st.rules ==> Declared(st.rules[id].provenance))
  }

  // ----- The checks, exactly -----

  lemma ProvenanceExactly(p: Provenance)
    ensures CheckProvenance(p).Ok? <==> Declared(p)
    ensures CheckProvenance(p).Err? ==> CheckProvenance(p) == Err(InvalidArgument)
  {
  }

  lemma IdentityExactly(v: IdentityValue)
    ensures CheckIdentity(v).Ok? <==> FieldAdmitted(v.attr, v.subkey, v.value)
    ensures CheckIdentity(v).Err? ==> CheckIdentity(v) == Err(InvalidArgument)
  {
  }

  lemma ThresholdExactly(t: Threshold)
    ensures ValidateThreshold(t).Ok? && CheckProvenance(t.provenance).Ok? <==> ThresholdAdmitted(t)
  {
    ProvenanceExactly(t.provenance);
    hide Declared, CheckProvenance;
  }

  /** A reading later than the tolerance allows is the only thing answered as clock skew. */
  lemma SampleExactly(i: SampleInput, config: Config, now: int)
    ensures CheckSample(i, config, now) ==
            if i.metric == UnknownMetric || i.metric == UnsupportedMetric then Err(Unsupported)
            else if i.lane != 0xFFFF && i.lane > config.maxLaneIndex then Err(InvalidArgument)
            else if i.presence == Present && !Plausible(i.metric, i.value) then Err(InvalidArgument)
            else if !Declared(i.provenance) then Err(InvalidArgument)
            else if i.wallNs > now + config.maxFutureSkewNs then Err(ClockSkew)
            else Result.Ok(())
  {
    ProvenanceExactly(i.provenance);
    hide Declared, CheckProvenance;
  }

  /**
   * What a call is checked for before the registry is looked at, operation by operation; per-key shapes and rules come
   * with their own verdicts.
   */
  lemma AcceptedExactly(op: RegistryState.Op, config: Config, now: int)
    ensures CheckCall(op, config, now).Ok? <==>
            match op
            case RegisterSource(name, instanceId, description) =>
              && 1 <= |name| <= 128 && |instanceId| <= 128 && |description| <= 512
              && Utf8.Valid(name) && Utf8.Valid(instanceId)
            case RegisterModule(key, identity, _, provenance, _, _) =>
              && key != [] && Declared(provenance)
              && (forall i :: 0 <= i < |identity| ==>
                    FieldAdmitted(identity[i].attr, identity[i].subkey, identity[i].value))
              && (forall i, j :: 0 <= i < j < |identity| ==>
                    identity[i].attr != identity[j].attr || identity[i].subkey != identity[j].subkey)
            case UpdateIdentity(_, _, v, provenance) => FieldAdmitted(v.attr, v.subkey, v.value) && Declared(provenance)
            case PublishCapability(_, _, key, subkey, _, shape, provenance) =>
              && key != 0 && key != 24 && (key == 23 <==> subkey != []) && |subkey| <= 128 && shape.Ok?
              && Declared(provenance)
            case PublishPortCapability(_, port, key, subkey, _, shape, provenance) =>
              && key != 0 && key != 24 && (key == 23 <==> subkey != []) && port != [] && shape.Ok?
                 && Declared(provenance)
            case Attach(_, _, slot, portIndex) => slot != [] && portIndex <= 255
            case Detach(_, _) => true
            case IngestHealth(_, _, i) =>
              && i.metric != UnknownMetric && i.metric != UnsupportedMetric
                 && (i.lane == 0xFFFF || i.lane <= config.maxLaneIndex)
              && (i.presence == Present ==> Plausible(i.metric, i.value)) && Declared(i.provenance)
              && i.wallNs <= now + config.maxFutureSkewNs
            case PublishThreshold(_, t) => ThresholdAdmitted(t)
            case PublishRule(_, rule, verdict) => verdict.Ok? && Declared(rule.provenance)
            case RetireRule(_, _) => true
            case Transition(_, _, _, reason) => |reason| <= 512
            case Reconcile(_, _) => true
  {
    hide FieldAdmitted, Declared, ThresholdAdmitted, Plausible, CheckProvenance, CheckIdentity, CheckSample,
         ValidateThreshold;
    match op
    case RegisterModule(_, identity, _, provenance, _, _) =>
      ProvenanceExactly(provenance);
      forall i | 0 <= i < |identity|
        ensures CheckIdentity(identity[i]).Ok?
           <==> FieldAdmitted(identity[i].attr, identity[i].subkey, identity[i].value)
      {
        IdentityExactly(identity[i]);
      }
    case UpdateIdentity(_, _, v, provenance) =>
      IdentityExactly(v);
      ProvenanceExactly(provenance);
    case PublishCapability(_, _, _, _, _, _, provenance) => ProvenanceExactly(provenance);
    case PublishPortCapability(_, _, _, _, _, _, provenance) => ProvenanceExactly(provenance);
    case IngestHealth(_, _, i) => SampleExactly(i, config, now);
    case PublishThreshold(_, t) => ThresholdExactly(t);
    case PublishRule(_, rule, _) => ProvenanceExactly(rule.provenance);
    case _ =>
  }

  // ----- Runs -----

  lemma PutAdmitted(st: State, next: State, uid: nat, config: Config)
    requires Admitted(st, config) && uid in next.modules && ModuleAdmitted(next.modules[uid], config)
    requires next == st.(modules := st.modules[uid := next.modules[uid]], attachments := next.attachments,
                         moduleUidByKey := next.moduleUidByKey, nextModuleUid := next.nextModuleUid,
                         droppedSamples := next.droppedSamples, generation := next.generation,
                         mutations := next.mutations, nextSequence := next.nextSequence)
    requires forall slot :: slot in next.attachments ==> slot != [] && next.attachments[slot].portIndex <= 255
    ensures Admitted(next, config)
  {
    hide ModuleAdmitted, SourceAdmitted, ThresholdAdmitted, DeclarationAdmitted, Declared;
  }

  lemma ModuleIn(st: State, uid: nat, config: Config)
    requires Admitted(st, config) && uid in st.modules
    ensures ModuleAdmitted(st.modules[uid], config)
  {
    hide ModuleAdmitted, SourceAdmitted, ThresholdAdmitted, DeclarationAdmitted, Declared;
  }

  lemma UpdateAdmitted(st: State, call: Call, config: Config, next: State)
    requires Good(st) && Admitted(st, config) && call.op.UpdateIdentity? && Attempt(st, call, config) == Ok(next)
    requires config.maxClaimHistory >= 1
    ensures Admitted(next, config)
  {
    hide Good, Attempt, Admitted, ClaimAdmitted, IdentityLive, Restates, SampleAdmitted, DeclarationAdmitted;
    var op := call.op; var uid := op.target.uid;
    var c := Claim(op.value.attr, op.value.subkey, op.value.value, op.authority.source, op.authority.epoch, uid,
                   op.target.incarnation, [], st.generation + 1, st.nextSequence, call.clock.wallNs, op.provenance,
                   true);
    UpdateEffect(st, call, config, next, c);
    ModuleIn(st, uid, config);
    assert ClaimAdmitted(c) by {
      ChecksPassed(st, call, config);
      UpdateChecks(call, config, c);
    }
    forall x | x in next.modules[uid].claims ensures ClaimAdmitted(x) {
      UpdateEffect(st, call, config, next, x);
    }
    SlotsAdmitted(st, config);
    PutAdmitted(st, next, uid, config);
  }

  lemma SlotsAdmitted(st: State, config: Config)
    requires Admitted(st, config)
    ensures forall slot :: slot in st.attachments ==> slot != [] && st.attachments[slot].portIndex <= 255
  {
  }

  lemma ChecksPassed(st: State, call: Call, config: Config)
    requires Attempt(st, call, config).Ok?
    ensures CheckCall(call.op, config, call.clock.wallNs).Ok?
  {
    hide CheckCall, Body;
  }

  lemma UpdateChecks(call: Call, config: Config, c: IdentityClaim)
    requires call.op.UpdateIdentity? && CheckCall(call.op, config, call.clock.wallNs).Ok?
    requires c.attr == call.op.value.attr && c.subkey == call.op.value.subkey && c.value == call.op.value.value
    requires c.provenance == call.op.provenance
    ensures ClaimAdmitted(c)
  {
    IdentityExactly(call.op.value);
    ProvenanceExactly(call.op.provenance);
    hide CheckIdentity, CheckProvenance, FieldAdmitted, Declared;
  }

  lemma PublicationChecks(op: RegistryState.Op, config: Config, now: int, c: Declaration)
    requires op.PublishCapability? || op.PublishPortCapability?
    requires CheckCall(op, config, now).Ok?
    requires c.attr == op.capability && c.subkey == op.subkey && c.provenance == op.provenance
    ensures DeclarationAdmitted(c) && (op.PublishCapability? ==> |c.subkey| <= 128)
    ensures op.PublishPortCapability? ==> op.port != []
  {
    ProvenanceExactly(op.provenance);
    hide CheckProvenance, Declared;
  }

  lemma PublishAdmitted(st: State, call: Call, config: Config, next: State)
    requires Good(st) && Admitted(st, config) && call.op.PublishCapability? && Attempt(st, call, config) == Ok(next)
    requires config.maxClaimHistory >= 1
    ensures Admitted(next, config)
  {
    hide Good, Attempt, Admitted, ClaimAdmitted, DeclarationLive, Restates, SampleAdmitted, DeclarationAdmitted;
    var op := call.op; var uid := op.target.uid;
    var d := Claim(op.capability, op.subkey, op.content, op.authority.source, op.authority.epoch, uid,
                   op.target.incarnation, [], st.generation + 1, st.nextSequence, call.clock.wallNs, op.provenance,
                   true);
    PublishEffect(st, call, config, next, d);
    ModuleIn(st, uid, config);
    ChecksPassed(st, call, config);
    PublicationChecks(op, config, call.clock.wallNs, d);
    forall x | x in next.modules[uid].declarations ensures DeclarationAdmitted(x) && |x.subkey| <= 128 {
      PublishEffect(st, call, config, next, x);
    }
    SlotsAdmitted(st, config);
    PutAdmitted(st, next, uid, config);
  }

  lemma PublishPortAdmitted(st: State, call: Call, config: Config, next: State)
    requires Good(st) && Admitted(st, config) && call.op.PublishPortCapability? && Attempt(st, call, config) == Ok(next)
    ensures Admitted(next, config)
  {
    hide Good, Attempt, PortDeclarationLive, Restates, DeclarationAdmitted, ModuleAdmitted, SourceAdmitted,
         ThresholdAdmitted, Declared, CheckCall;
    var op := call.op;
    var d := Claim(op.capability, op.subkey, op.content, op.authority.source, op.authority.epoch, 0, 0, op.port,
                   st.generation + 1, st.nextSequence, call.clock.wallNs, op.provenance, true);
    PublishPortEffect(st, call, config, next, d);
    ChecksPassed(st, call, config);
    PublicationChecks(op, config, call.clock.wallNs, d);
    forall x | x in next.ports[op.port].declarations ensures DeclarationAdmitted(x) {
      PublishPortEffect(st, call, config, next, x);
    }
  }

  lemma RegistrationChecks(call: Call, config: Config)
    requires call.op.RegisterModule? && CheckCall(call.op, config, call.clock.wallNs).Ok?
    ensures call.op.key != [] && Declared(call.op.provenance)
    ensures forall v :: v in call.op.identity ==> FieldAdmitted(v.attr, v.subkey, v.value)
  {
    ProvenanceExactly(call.op.provenance);
    hide CheckProvenance, Declared, NoRepeats, CheckIdentity, FieldAdmitted;
    forall v | v in call.op.identity ensures FieldAdmitted(v.attr, v.subkey, v.value) {
      var i :| 0 <= i < |call.op.identity| && call.op.identity[i] == v;
      assert CheckIdentity(call.op.identity[i]).Ok?;
      IdentityExactly(v);
    }
  }

  /** A registration leaves the key, the declarations and the samples of its module, and no slot but released ones. */
  predicate OthersLeft(st: State, next: State, uid: nat, key: Text) {
    && uid in next.modules
    && var r := next.modules[uid];
       && (if uid in st.modules then
             && r.key == st.modules[uid].key && r.declarations == st.modules[uid].declarations
             && r.samples == st.modules[uid].samples
           else r.key == key && r.declarations == [] && r.samples == [])
       && next == Bumped(st).(modules := st.modules[uid := r], nextModuleUid := next.nextModuleUid,
                              moduleUidByKey := next.moduleUidByKey, attachments := next.attachments)
       && next.attachments.Keys == st.attachments.Keys
       && forall slot :: slot in st.attachments ==>
            next.attachments[slot].portIndex == st.attachments[slot].portIndex
  }

  lemma FirstLeaves(st: State, call: Call, next: State, key: Text, a: RegistryState.Authority, config: Config)
    requires FirstSeen(st, call, next, key, a, config) && st.nextModuleUid !in st.modules
    ensures OthersLeft(st, next, st.nextModuleUid, key)
  {
    hide Retained;
  }

  lemma RepeatLeaves(st: State, call: Call, next: State, uid: nat, key: Text, a: RegistryState.Authority,
                     config: Config)
    requires SeenAgain(st, call, next, uid, a, config)
    ensures OthersLeft(st, next, uid, key)
  {
    hide Retained;
  }

  lemma NewLeaves(st: State, call: Call, next: State, uid: nat, key: Text, a: RegistryState.Authority, config: Config)
    requires NewlySeen(st, call, next, uid, a, config)
    ensures OthersLeft(st, next, uid, key)
  {
    hide Retained;
  }

  lemma RegistrationLeaves(st: State, call: Call, config: Config, next: State)
    requires Good(st) && call.op.RegisterModule? && Attempt(st, call, config) == Ok(next)
    ensures OthersLeft(st, next, RegisteredUid(st, call.op.key), call.op.key)
  {
    hide Good, Attempt, FirstSeen, SeenAgain, NewlySeen, OthersLeft;
    var key, a := call.op.key, call.op.authority;
    if key !in st.moduleUidByKey {
      FirstRegistration(st, call, config, next);
      NewUid(st);
      FirstLeaves(st, call, next, key, a, config);
    } else if call.op.intent == EnsureCurrent {
      RepeatedRegistration(st, call, config, next);
      RepeatLeaves(st, call, next, st.moduleUidByKey[key], key, a, config);
    } else {
      NewIncarnationRegistration(st, call, config, next);
      NewLeaves(st, call, next, st.moduleUidByKey[key], key, a, config);
    }
  }

  lemma NewUid(st: State)
    requires Good(st)
    ensures st.nextModuleUid !in st.modules
  {
  }

  lemma RegisterAdmitted(st: State, call: Call, config: Config, next: State)
    requires Good(st) && Admitted(st, config) && call.op.RegisterModule? && Attempt(st, call, config) == Ok(next)
    requires config.maxClaimHistory >= 1
    ensures Admitted(next, config)
  {
    hide Good, Attempt, Admitted, ClaimAdmitted, IdentityLive, Restates, SampleAdmitted, DeclarationAdmitted, CheckCall,
         FieldAdmitted, Declared, StatedBy, RegisteredIncarnation, RegisteredUid;
    var op := call.op; var uid, n := RegisteredUid(st, op.key), RegisteredIncarnation(st, op.key, op.intent);
    ChecksPassed(st, call, config);
    RegistrationChecks(call, config);
    forall x | uid in next.modules && x in next.modules[uid].claims ensures ClaimAdmitted(x) {
      RegistrationEffect(st, call, config, next, x);
      if v :| v in op.identity && x == StatedBy(v, op.authority, uid, n, StampOf(st, call)) {
        StatedAdmitted(v, op.authority, uid, n, StampOf(st, call));
      } else {
        ModuleIn(st, uid, config);
      }
    }
    RegistrationLeaves(st, call, config, next);
    if uid in st.modules {
      ModuleIn(st, uid, config);
    }
    SlotsAdmitted(st, config);
    PutAdmitted(st, next, uid, config);
  }

  lemma StatedAdmitted(v: IdentityValue, a: RegistryState.Authority, uid: nat, n: nat, s: Stamp)
    requires FieldAdmitted(v.attr, v.subkey, v.value) && Declared(s.provenance)
    ensures ClaimAdmitted(StatedBy(v, a, uid, n, s))
  {
  }

  lemma SampleChecks(st: State, call: Call, config: Config)
    requires call.op.IngestHealth? && CheckCall(call.op, config, call.clock.wallNs).Ok?
    ensures SampleAdmitted(StoredAs(st, call), config)
  {
    SampleExactly(call.op.input, config, call.clock.wallNs);
    hide CheckSample, Declared;
  }

  lemma IngestAdmitted(st: State, call: Call, config: Config, next: State)
    requires Good(st) && Admitted(st, config) && call.op.IngestHealth? && Attempt(st, call, config) == Ok(next)
    ensures Admitted(next, config)
  {
    hide Good, Attempt, Admitted, ClaimAdmitted, SampleAdmitted, DeclarationAdmitted, CheckCall, NotAfter, StoredAs,
         TrimRing, Subsequence, SampleSeries;
    var uid := call.op.target.uid;
    IngestEffect(st, call, config, next);
    ChecksPassed(st, call, config);
    SampleChecks(st, call, config);
    ModuleIn(st, uid, config);
    var x, r := StoredAs(st, call), st.modules[uid];
    var ring := Ring(r.samples + [x], r.seriesCounts[SampleSeries(x) := CountOf(r.seriesCounts, SampleSeries(x)) + 1],
                     0);
    TrimRingSubsequence(ring, config.maxSamplesPerSeries, config.maxSamplesPerModule);
    SubsequenceMembers(next.modules[uid].samples, r.samples + [x]);
    SlotsAdmitted(st, config);
    PutAdmitted(st, next, uid, config);
  }

  lemma MovedAdmitted(st: State, call: Call, config: Config, next: State)
    requires Good(st) && Admitted(st, config) && Attempt(st, call, config) == Ok(next)
    requires call.op.Transition? || call.op.Reconcile? || call.op.Detach?
    ensures Admitted(next, config)
  {
    hide Good, Attempt, Admitted, ClaimAdmitted, SampleAdmitted, DeclarationAdmitted, Retained, Note, NOMINAL, WORSENED,
         TransitionAllowed, ImpliesAttachment, Ascii;
    if call.op.Transition? {
      TransitionEffect(st, call, config, next);
    } else if call.op.Reconcile? {
      ReconcileEffect(st, call, config, next);
    } else {
      DetachFrees(st, call, config, next);
    }
    var uid := if call.op.Detach? then st.attachments[call.op.slot].uid else call.op.target.uid;
    ModuleIn(st, uid, config);
    SlotsAdmitted(st, config);
    PutAdmitted(st, next, uid, config);
  }

  lemma AttachAdmitted(st: State, call: Call, config: Config, next: State)
    requires Good(st) && Admitted(st, config) && call.op.Attach? && Attempt(st, call, config) == Ok(next)
    ensures Admitted(next, config)
  {
    hide Good, Attempt, Admitted, ClaimAdmitted, SampleAdmitted, DeclarationAdmitted, Retained, Note, AlreadyIn, Ascii;
    AttachFills(st, call, config, next);
    ChecksPassed(st, call, config);
    SlotsAdmitted(st, config);
    if AlreadyIn(st, call.op.slot, call.op.target) {
      SameAdmitted(st, next, config);
    } else {
      ModuleIn(st, call.op.target.uid, config);
      PutAdmitted(st, next, call.op.target.uid, config);
    }
  }

  lemma SameAdmitted(st: State, next: State, config: Config)
    requires Admitted(st, config) && next == Bumped(st)
    ensures Admitted(next, config)
  {
    hide ModuleAdmitted, SourceAdmitted, ThresholdAdmitted, DeclarationAdmitted, Declared;
  }

  lemma SourcePutAdmitted(st: State, next: State, id: nat, r: SourceRecord, config: Config)
    requires Admitted(st, config) && SourceAdmitted(r)
    requires next == Bumped(st).(sources := st.sources[id := r], nextSourceId := next.nextSourceId,
                                 sourceIdByName := next.sourceIdByName)
    ensures Admitted(next, config)
  {
    hide ModuleAdmitted, SourceAdmitted, ThresholdAdmitted, DeclarationAdmitted, Declared;
  }

  lemma SourceChecks(op: RegistryState.Op, config: Config, now: int, r: SourceRecord)
    requires op.RegisterSource? && CheckCall(op, config, now).Ok?
    requires r.name == op.name && r.instanceId == op.instanceId && r.description == op.description
    ensures SourceAdmitted(r)
  {
  }

  lemma SourceKeepsAdmitted(st: State, call: Call, config: Config, next: State)
    requires Good(st) && Admitted(st, config) && call.op.RegisterSource? && Attempt(st, call, config) == Ok(next)
    ensures Admitted(next, config)
  {
    hide Good, Attempt, Admitted, SourceAdmitted, CheckCall;
    ChecksPassed(st, call, config);
    var known := call.op.name in st.sourceIdByName;
    if known {
      KnownSourceEffect(st, call, config, next);
    } else {
      NewSourceEffect(st, call, config, next);
    }
    var id := if known then st.sourceIdByName[call.op.name] else st.nextSourceId;
    SourceChecks(call.op, config, call.clock.wallNs, next.sources[id]);
    SourcePutAdmitted(st, next, id, next.sources[id], config);
  }

  lemma ThresholdKeepsAdmitted(st: State, call: Call, config: Config, next: State)
    requires Good(st) && Admitted(st, config) && call.op.PublishThreshold? && Attempt(st, call, config) == Ok(next)
    ensures Admitted(next, config)
  {
    hide Good, Attempt, ModuleAdmitted, SourceAdmitted, DeclarationAdmitted, Declared, ThresholdAdmitted, CheckCall,
         SelectedThreshold, LiveThresholds;
    ChecksPassed(st, call, config);
    var t, a := call.op.threshold, call.op.authority;
    ThresholdExactly(t);
    var published := t.(source := a.source, epoch := a.epoch, generation := st.generation + 1,
                        sequence := st.nextSequence, live := true);
    assert ThresholdAdmitted(published) by { ThresholdPassed(call, config); SameBands(t, published); }
    ThresholdEffect(st, call, config, next, ThresholdRecord(published, true));
    forall r | r in next.thresholds ensures ThresholdAdmitted(r.threshold) {
      ThresholdEffect(st, call, config, next, r);
      assert r in st.thresholds || r.(live := true) in st.thresholds || r.threshold == published;
    }
  }

  lemma ThresholdPassed(call: Call, config: Config)
    requires call.op.PublishThreshold? && CheckCall(call.op, config, call.clock.wallNs).Ok?
    ensures ThresholdAdmitted(call.op.threshold)
  {
    ThresholdExactly(call.op.threshold);
    hide ThresholdAdmitted, ValidateThreshold, CheckProvenance;
  }

  lemma SameBands(t: Threshold, u: Threshold)
    requires ThresholdAdmitted(t)
    requires u == t.(source := u.source, epoch := u.epoch, generation := u.generation, sequence := u.sequence,
                     live := u.live)
    ensures ThresholdAdmitted(u)
  {
  }

  lemma RulesKeepAdmitted(st: State, call: Call, config: Config, next: State)
    requires Good(st) && Admitted(st, config) && Attempt(st, call, config) == Ok(next)
    requires call.op.PublishRule? || call.op.RetireRule?
    ensures Admitted(next, config)
  {
    hide Good, Attempt, ModuleAdmitted, SourceAdmitted, DeclarationAdmitted, Declared, ThresholdAdmitted, CheckCall;
    ChecksPassed(st, call, config);
    if call.op.PublishRule? {
      RulePassed(call, config);
      RuleEffect(st, call, config, next);
    } else {
      RetirementEffect(st, call, config, next);
    }
  }

  lemma RulePassed(call: Call, config: Config)
    requires call.op.PublishRule? && CheckCall(call.op, config, call.clock.wallNs).Ok?
    ensures Declared(call.op.rule.provenance)
  {
    ProvenanceExactly(call.op.rule.provenance);
    hide Declared, CheckProvenance;
  }

  lemma CommitKeepsAdmitted(st: State, call: Call, config: Config, next: State)
    requires Good(st) && Admitted(st, config) && Attempt(st, call, config) == Ok(next) && config.maxClaimHistory >= 1
    ensures Admitted(next, config)
  {
    hide Good, Attempt, Admitted;
    match call.op
    case RegisterSource(_, _, _) => SourceKeepsAdmitted(st, call, config, next);
    case RegisterModule(_, _, _, _, _, _) => RegisterAdmitted(st, call, config, next);
    case UpdateIdentity(_, _, _, _) => UpdateAdmitted(st, call, config, next);
    case PublishCapability(_, _, _, _, _, _, _) => PublishAdmitted(st, call, config, next);
    case PublishPortCapability(_, _, _, _, _, _, _) => PublishPortAdmitted(st, call, config, next);
    case Attach(_, _, _, _) => AttachAdmitted(st, call, config, next);
    case IngestHealth(_, _, _) => IngestAdmitted(st, call, config, next);
    case PublishThreshold(_, _) => ThresholdKeepsAdmitted(st, call, config, next);
    case PublishRule(_, _, _) => RulesKeepAdmitted(st, call, config, next);
    case RetireRule(_, _) => RulesKeepAdmitted(st, call, config, next);
    case _ => MovedAdmitted(st, call, config, next);
  }

  /** Whatever is in the tables of a registry after any run, each of its entries is one the checks admit. */
  lemma {:induction false} OnlyAdmittedIsStored(calls: seq<Call>, config: Config)
    requires config.maxClaimHistory >= 1
    ensures Admitted(RunCalls(EMPTY_STATE, calls, config), config)
  {
    hide Inv, Attempt, Admitted;
    if calls == [] {
      NothingStored(config);
    } else {
      var front, call := calls[..|calls| - 1], calls[|calls| - 1];
      OnlyAdmittedIsStored(front, config);
      EmptyIsGood();
      RunKeepsInvariant(EMPTY_STATE, front, config);
      var before := RunCalls(EMPTY_STATE, front, config);
      match Attempt(before, call, config)
      case Ok(next) => CommitKeepsAdmitted(before, call, config, next);
      case Err(_) =>
    }
  }

  lemma NothingStored(config: Config)
    ensures Admitted(EMPTY_STATE, config)
  {
  }
}
