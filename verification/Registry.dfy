/** RegistryImpl, src/registry_internal.hpp:198-222, with the mutation bodies run on a copy of the state. */
module Registry {
  import opened Bytes
  import opened Ordering
  import A = Authority
  import opened Consensus
  import opened Capability
  import opened Compatibility
  import opened Lifecycle
  import opened Latch
  import opened Health
  import opened HealthReport
  import opened Trim
  import opened TrimLoops
  import opened Samples
  import opened RegistryState
  import opened Validation
  import opened Mutations
  import Runs

  // ----- Loops the bodies run -----

  method CapLifecycle(record: ModuleRecord, config: Config) returns (r: ModuleRecord)
    ensures r == Capped(record, config)
  {
    var events, n := record.lifecycle, 0;
    while |events| > config.maxLifecycleHistory
      invariant n <= |record.lifecycle| && events == record.lifecycle[n..]
      invariant n > 0 ==> |events| >= config.maxLifecycleHistory
    {
      events := events[1..];
      n := n + 1;
    }
    r := record.(lifecycle := events);
  }

  method UnliveAll(attachments: map<Text, AttachmentRecord>, uid: nat) returns (r: map<Text, AttachmentRecord>)
    ensures r == DetachAll(attachments, uid)
  {
    r := attachments;
    var pending := attachments.Keys;
    while pending != {}
      invariant pending <= attachments.Keys && r.Keys == attachments.Keys
      invariant forall k :: k in pending ==> r[k] == attachments[k]
      invariant forall k :: k in attachments && k !in pending ==> r[k] == DetachAll(attachments, uid)[k]
      decreases |pending|
    {
      var slot :| slot in pending;
      if r[slot].live && r[slot].uid == uid {
        r := r[slot := r[slot].(live := false)];
      }
      pending := pending - {slot};
    }
  }

  method CountLiveSlots(attachments: map<Text, AttachmentRecord>) returns (n: nat)
    ensures n == |LiveSlots(attachments)|
  {
    n := 0;
    var pending := attachments.Keys;
    ghost var seen: set<Text> := {};
    while pending != {}
      invariant pending <= attachments.Keys && seen == attachments.Keys - pending
      invariant n == |set k | k in seen && attachments[k].live|
      decreases |pending|
    {
      var slot :| slot in pending;
      ghost var before := set k | k in seen && attachments[k].live;
      pending := pending - {slot};
      seen := seen + {slot};
      ghost var now := set k | k in seen && attachments[k].live;
      if attachments[slot].live {
        assert now == before + {slot};
        n := n + 1;
      } else {
        assert now == before;
      }
    }
    assert LiveSlots(attachments) == set k | k in seen && attachments[k].live;
  }

  method CollectLiveThresholds(thresholds: seq<ThresholdRecord>) returns (r: seq<Threshold>)
    ensures r == LiveThresholds(thresholds)
  {
    r := [];
    for i := 0 to |thresholds|
      invariant r == LiveThresholds(thresholds[..i])
    {
      assert thresholds[..i + 1][..i] == thresholds[..i];
      if thresholds[i].live {
        r := r + [thresholds[i].threshold];
      }
    }
    assert thresholds[..|thresholds|] == thresholds;
  }

  method FindReplay(samples: seq<HealthSample>, stored: HealthSample) returns (found: bool)
    ensures found == Replayed(samples, stored)
  {
    if stored.monotonicNs == 0 {
      return false;
    }
    for i := 0 to |samples|
      invariant forall j :: 0 <= j < i ==> !Replays(samples[j], stored)
    {
      if Replays(samples[i], stored) {
        return true;
      }
    }
    return false;
  }

  method AdvanceLatches(latches: seq<LatchRecord>, t: Threshold, sample: HealthSample) returns (r: seq<LatchRecord>)
    ensures r == AdvanceSeries(latches, t, sample)
  {
    hide AdvanceLatch;
    var i := 0;
    while i < |latches| && (latches[i].metric != sample.metric || latches[i].lane != sample.lane)
      invariant i <= LatchIndex(latches, sample.metric, sample.lane)
    {
      i := i + 1;
    }
    r := latches;
    if i == |r| {
      r := r + [LatchRecord(sample.metric, sample.lane, EMPTY_LATCH)];
    }
    r := r[i := r[i].(latch := AdvanceLatch(t, r[i].latch, sample.value, sample.wallNs, sample.sequence,
                                            sample.generation))];
  }

  method RetireLive(thresholds: seq<ThresholdRecord>, t: Threshold) returns (r: seq<ThresholdRecord>)
    ensures r == Retire(thresholds, t)
  {
    r := thresholds;
    for i := 0 to |thresholds|
      invariant |r| == |thresholds|
      invariant forall j :: 0 <= j < i ==> r[j] == Retire(thresholds, t)[j]
      invariant forall j :: i <= j < |r| ==> r[j] == thresholds[j]
    {
      if r[i].live && SameSubject(r[i].threshold, t) {
        r := r[i := r[i].(live := false)];
      }
    }
  }

  method EvictRetired(thresholds: seq<ThresholdRecord>, t: Threshold, maxHistory: nat) returns (r: seq<ThresholdRecord>)
    ensures r == BoundHistory(thresholds, t, maxHistory)
  {
    var history := 0;
    for i := 0 to |thresholds|
      invariant history == HistoryOf(thresholds[..i], t)
    {
      assert thresholds[..i + 1][..i] == thresholds[..i];
      if SameSubject(thresholds[i].threshold, t) {
        history := history + 1;
      }
    }
    assert thresholds[..|thresholds|] == thresholds;
    r := thresholds;
    if history > maxHistory {
      var i := 0;
      while i < |r| && (r[i].live || !SameSubject(r[i].threshold, t))
        invariant i <= FirstRetired(thresholds, t)
      {
        i := i + 1;
      }
      if i < |r| {
        r := Erase(r, i);
      }
    }
  }

  method CollectTelemetry(declarations: seq<Declaration>, incarnation: nat) returns (r: seq<Metric>)
    ensures r == DeclaredTelemetry(declarations, incarnation)
  {
    r := [];
    for i := 0 to |declarations|
      invariant r == DeclaredTelemetry(declarations[..i], incarnation)
    {
      assert declarations[..i + 1][..i] == declarations[..i];
      var d := declarations[i];
      if d.incarnation == incarnation && d.live {
        var metric := TelemetryMetric(d.attr);
        if metric.Some? && d.value == BooleanValue(true) {
          r := r + [metric.value];
        }
      }
    }
    assert declarations[..|declarations|] == declarations;
  }

  method CheckAll(identity: seq<IdentityValue>) returns (valid: bool)
    ensures valid == forall i :: 0 <= i < |identity| ==> CheckIdentity(identity[i]).Ok?
  {
    hide CheckIdentity;
    for i := 0 to |identity|
      invariant forall j :: 0 <= j < i ==> CheckIdentity(identity[j]).Ok?
    {
      if CheckIdentity(identity[i]).Err? {
        return false;
      }
    }
    return true;
  }

  method CheckArguments(call: Call, config: Config) returns (r: Result<()>)
    ensures r == CheckCall(call.op, config, call.clock.wallNs)
  {
    hide CheckIdentity, CheckProvenance, NoRepeats, CheckSample, ValidateThreshold;
    if call.op.RegisterModule? {
      if call.op.key == [] {
        return Err(InvalidArgument);
      }
      var provenance := CheckProvenance(call.op.provenance);
      if provenance.Err? {
        return provenance;
      }
      var valid := CheckAll(call.op.identity);
      var repeats := RepeatsField(call.op.identity);
      return Check(valid && !repeats, InvalidArgument);
    }
    return CheckCall(call.op, config, call.clock.wallNs);
  }

  // ----- Bodies -----

  method RegisterSourceOn(start: State, name: Text, instanceId: Text, description: Text, config: Config, s: Stamp)
    returns (r: Result<State>)
    ensures r == RegisterSourceBody(start, name, instanceId, description, config, s)
  {
    var next := start;
    var record := SourceRecord(0, name, 1, instanceId, description, s.generation, s.sequence, s.now);
    if name in next.sourceIdByName {
      if next.sourceIdByName[name] !in next.sources {
        return Err(Internal);
      }
      record := next.sources[next.sourceIdByName[name]];
      var renewal := instanceId != [] && instanceId == record.instanceId;
      if !renewal {
        if record.epoch == MAX_U32 {
          return Err(CapacityExceeded);
        }
        record := record.(epoch := record.epoch + 1);
      }
      record := record.(instanceId := instanceId, description := description, generation := s.generation,
                        sequence := s.sequence, registeredWallNs := s.now);
      next := next.(sources := next.sources[record.id := record]);
    } else {
      if |next.sources| >= config.maxSources || next.nextSourceId >= MAX_U32 {
        return Err(CapacityExceeded);
      }
      record := record.(id := next.nextSourceId);
      next := next.(nextSourceId := next.nextSourceId + 1);
      next := next.(sources := next.sources[record.id := record]);
      next := next.(sourceIdByName := next.sourceIdByName[name := record.id]);
    }
    return Ok(next);
  }

  method PublishRuleOn(start: State, a: RegistryState.Authority, rule: Rule, config: Config, s: Stamp)
    returns (r: Result<State>)
    ensures r == PublishRuleBody(start, a, rule, config, s)
  {
    hide Authorize;
    var _ :- Authorize(start, a);
    var next := start;
    if |next.rules| >= config.maxRules {
      return Err(CapacityExceeded);
    }
    var record := rule.(id := next.nextRuleId % 0x1_0000_0000);
    next := next.(nextRuleId := next.nextRuleId + 1);
    record := record.(source := a.source, epoch := a.epoch, generation := s.generation, sequence := s.sequence);
    record := record.(live := true);
    next := next.(rules := next.rules[record.id := record]);
    return Ok(next);
  }

  method RetireRuleOn(start: State, a: RegistryState.Authority, id: nat, s: Stamp) returns (r: Result<State>)
    ensures r == RetireRuleBody(start, a, id, s)
  {
    hide Authorize;
    var _ :- Authorize(start, a);
    if id !in start.rules {
      return Err(NotFound);
    }
    var record := start.rules[id];
    if !record.live {
      return Err(Conflict);
    }
    record := record.(live := false);
    record := record.(generation := s.generation, sequence := s.sequence);
    return Ok(start.(rules := start.rules[id := record]));
  }

  method OpenRecord(start: State, key: Text, intent: Intent, a: RegistryState.Authority, config: Config, s: Stamp)
    returns (r: Result<Opened>)
    ensures r == OpenModule(start, key, intent, a, config, s)
  {
    hide NextIncarnation, NewModule, DetachAll;
    var next := start;
    if key !in next.moduleUidByKey {
      if |next.modules| >= config.maxModules {
        return Err(CapacityExceeded);
      }
      var uid := next.nextModuleUid;
      next := next.(nextModuleUid := uid + 1);
      next := PutModule(next, uid, NewModule(key, uid, a, s));
      next := next.(moduleUidByKey := next.moduleUidByKey[key := uid]);
      return Ok(Opened(next, uid));
    }
    var uid := next.moduleUidByKey[key];
    if uid !in next.modules {
      return Err(Internal);
    }
    var record := next.modules[uid];
    if intent == EnsureCurrent {
      if Gone(record.state) {
        return Err(StaleIncarnation);
      }
      return Ok(Opened(next, uid));
    }
    var successor :- NextIncarnation(record, a, s);
    next := PutModule(next, uid, successor);
    if !Gone(record.state) {
      var freed := UnliveAll(next.attachments, record.uid);
      next := next.(attachments := freed);
    }
    return Ok(Opened(next, uid));
  }

  method RegisterModuleOn(start: State, key: Text, identity: seq<IdentityValue>, intent: Intent,
                          a: RegistryState.Authority, config: Config, s: Stamp) returns (r: Result<State>)
    ensures r == RegisterModuleBody(start, key, identity, intent, a, config, s)
  {
    hide OpenModule, EnsureRegistered, NewClaim, TrimList, LastEvents, Authorize;
    var _ :- Authorize(start, a);
    var found :- OpenRecord(start, key, intent, a, config, s);
    if found.uid !in found.st.modules {
      return Err(Internal);
    }
    var record := EnsureRegistered(found.st.modules[found.uid], a, s);
    ghost var base := record.claims;
    for i := 0 to |identity|
      invariant record == EnsureRegistered(found.st.modules[found.uid], a, s).(claims := record.claims)
      invariant record.claims == base + IdentityClaims(identity, a, record.uid, record.incarnation, s)[..i]
    {
      var v := identity[i];
      record := record.(claims := record.claims +
        [NewClaim(v.attr, v.subkey, v.value, a, record.uid, record.incarnation, [], s)]);
    }
    assert record.claims == base + IdentityClaims(identity, a, record.uid, record.incarnation, s);
    var claims :- TrimRecordList(OfIdentity, record.claims, config.maxClaimsPerModule, config.maxClaimHistory);
    record := record.(claims := claims);
    record := CapLifecycle(record, config);
    return Ok(PutModule(found.st, found.uid, record));
  }

  method UpdateIdentityOn(start: State, a: RegistryState.Authority, h: Handle, v: IdentityValue, config: Config,
                          s: Stamp)
    returns (r: Result<State>)
    ensures r == UpdateIdentityBody(start, a, h, v, config, s)
  {
    hide ModuleAt, TrimList;
    var record :- ModuleAt(start, a, h);
    var claim := NewClaim(v.attr, v.subkey, v.value, a, record.uid, record.incarnation, [], s);
    record := record.(claims := record.claims + [claim]);
    var claims :- TrimRecordList(OfIdentity, record.claims, config.maxClaimsPerModule, config.maxClaimHistory);
    return Ok(PutModule(start, h.uid, record.(claims := claims)));
  }

  method PublishCapabilityOn(start: State, a: RegistryState.Authority, h: Handle, key: nat, subkey: Text,
                             value: CapabilityValue, config: Config, s: Stamp) returns (r: Result<State>)
    ensures r == PublishCapabilityBody(start, a, h, key, subkey, value, config, s)
  {
    hide ModuleAt, TrimList;
    var record :- ModuleAt(start, a, h);
    var declaration := NewClaim(key, subkey, value, a, record.uid, record.incarnation, [], s);
    record := record.(declarations := record.declarations + [declaration]);
    var kept :- TrimRecordList(OfModule, record.declarations, config.maxDeclarationsPerModule, config.maxClaimHistory);
    return Ok(PutModule(start, h.uid, record.(declarations := kept)));
  }

  method PublishPortCapabilityOn(start: State, a: RegistryState.Authority, port: Text, key: nat, subkey: Text,
                                 value: CapabilityValue, config: Config, s: Stamp) returns (r: Result<State>)
    ensures r == PublishPortCapabilityBody(start, a, port, key, subkey, value, config, s)
  {
    hide Authorize, Shrink;
    var _ :- Authorize(start, a);
    var record := PortRecord(port, s.generation, s.sequence, s.now, []);
    if port in start.ports {
      record := start.ports[port];
    } else if |start.ports| >= config.maxPorts {
      return Err(CapacityExceeded);
    }
    var declarations := record.declarations;
    if |declarations| >= config.maxDeclarationsPerPort {
      declarations :- FitTotal(OfPort, declarations, OneBelow(config.maxDeclarationsPerPort));
    }
    declarations := declarations + [NewClaim(key, subkey, value, a, 0, 0, port, s)];
    declarations :- FitTotal(OfPort, declarations, config.maxDeclarationsPerPort);
    return Ok(start.(ports := start.ports[port := record.(declarations := declarations)]));
  }

  /** One event, the new state, and the bound on the history. */
  method MoveOn(start: State, uid: nat, to: LifecycleState, a: RegistryState.Authority, config: Config, s: Stamp)
    returns (next: State)
    requires uid in start.modules
    ensures next == PutModule(start, uid, Capped(Advanced(start.modules[uid], to, a, s), config))
  {
    var record := start.modules[uid];
    record := record.(lifecycle := record.lifecycle + [EventOf(record.state, to, record.incarnation, a, s)]);
    record := record.(state := to, stateGeneration := s.generation, stateSequence := s.sequence, stateWallNs := s.now);
    record := CapLifecycle(record, config);
    next := PutModule(start, uid, record);
  }

  method AttachOn(start: State, a: RegistryState.Authority, h: Handle, slot: Text, portIndex: nat, config: Config,
                  s: Stamp)
    returns (r: Result<State>)
    ensures r == AttachBody(start, a, h, slot, portIndex, config, s)
  {
    hide Capped, Advanced, TransitionAllowed, LiveSlots, Authorize;
    var record :- ModuleAt(start, a, h);
    if HeldBy(start.attachments, slot, record) {
      return Ok(start);
    }
    if record.state != Attached && !TransitionAllowed(record.state, Attached) {
      return Err(InvalidTransition);
    }
    var next := start;
    if slot in next.attachments && next.attachments[slot].live {
      next := next.(attachments := next.attachments[slot := next.attachments[slot].(live := false)]);
    } else if slot !in next.attachments {
      var live := CountLiveSlots(next.attachments);
      if live >= config.maxAttachments {
        return Err(CapacityExceeded);
      }
    }
    if record.state != Attached {
      next := MoveOn(next, h.uid, Attached, a, config, s);
    } else {
      assert next.modules[h.uid := record] == next.modules;
    }
    var attachment := AttachmentRecord(slot, portIndex, record.uid, record.incarnation, a.source, a.epoch,
                                       s.generation, s.sequence, s.now, true);
    next := next.(attachments := next.attachments[slot := attachment]);
    assert next.attachments == start.attachments[slot := attachment];
    return Ok(next);
  }

  method DetachOn(start: State, a: RegistryState.Authority, slot: Text, config: Config,
                  s: Stamp) returns (r: Result<State>)
    ensures r == DetachBody(start, a, slot, config, s)
  {
    hide Capped, Advanced, TransitionAllowed, Authorize, ImpliesAttachment;
    var _ :- Authorize(start, a);
    if slot !in start.attachments || !start.attachments[slot].live {
      return Err(NotFound);
    }
    var attachment := start.attachments[slot];
    var next := start.(attachments := start.attachments[slot := attachment.(live := false)]);
    if attachment.uid !in next.modules {
      return Ok(next);
    }
    var record := next.modules[attachment.uid];
    if record.incarnation != attachment.incarnation || !ImpliesAttachment(record.state) {
      return Ok(next);
    }
    if !TransitionAllowed(record.state, Removed) {
      return Err(Internal);
    }
    next := MoveOn(next, attachment.uid, Removed, a, config, s);
    return Ok(next);
  }

  method IngestOn(start: State, a: RegistryState.Authority, h: Handle, input: SampleInput, config: Config, clock: Clock,
                  s: Stamp) returns (r: Result<State>)
    ensures r == IngestBody(start, a, h, input, config, clock, s)
  {
    hide ModuleAt, StoredSample, Replayed, AdvanceSeries, SelectedThreshold, LiveThresholds, TrimRing, SampleSeries;
    var record :- ModuleAt(start, a, h);
    var sample := StoredSample(input, record, a, clock, s);
    var replayed := FindReplay(record.samples, sample);
    if replayed {
      return Err(Refused);
    }
    var ring := Pushed(record, sample);
    if sample.presence == Present {
      var thresholds := CollectLiveThresholds(start.thresholds);
      var threshold := SelectThreshold(thresholds, sample.metric, sample.lane);
      if threshold.Some? {
        var latches := AdvanceLatches(record.latches, threshold.value, sample);
        record := record.(latches := latches);
      }
    }
    ring := TrimSamples(ring, config.maxSamplesPerSeries, config.maxSamplesPerModule);
    record := record.(samples := ring.samples, seriesCounts := ring.counts);
    return Ok(PutModule(start, h.uid, record).(droppedSamples := start.droppedSamples + ring.dropped));
  }

  method PublishThresholdOn(start: State, a: RegistryState.Authority, t: Threshold, config: Config, s: Stamp)
    returns (r: Result<State>)
    ensures r == PublishThresholdBody(start, a, t, config, s)
  {
    hide Authorize, Retire, LiveThresholds, BoundHistory;
    var _ :- Authorize(start, a);
    var thresholds := RetireLive(start.thresholds, t);
    var live := CollectLiveThresholds(thresholds);
    if |live| >= config.maxThresholds {
      return Err(CapacityExceeded);
    }
    var published := t.(source := a.source, epoch := a.epoch, generation := s.generation, sequence := s.sequence,
                        live := true);
    thresholds := thresholds + [ThresholdRecord(published, true)];
    thresholds := EvictRetired(thresholds, t, config.maxClaimHistory);
    return Ok(start.(thresholds := thresholds));
  }

  method TransitionOn(start: State, a: RegistryState.Authority, h: Handle, to: LifecycleState, config: Config, s: Stamp)
    returns (r: Result<State>)
    ensures r == TransitionBody(start, a, h, to, config, s)
  {
    hide Capped, Advanced, TransitionAllowed, Authorize;
    var record :- ModuleAt(start, a, h);
    if !TransitionAllowed(record.state, to) {
      return Err(InvalidTransition);
    }
    var next := MoveOn(start, h.uid, to, a, config, s);
    return Ok(next);
  }

  method ReconcileOn(start: State, a: RegistryState.Authority, h: Handle, config: Config, clock: Clock, s: Stamp)
    returns (r: Result<State>)
    ensures r == ReconcileBody(start, a, h, config, clock, s)
  {
    hide Capped, Advanced, TransitionAllowed, Authorize, LiveThresholds, DeclaredTelemetry, ReportOf;
    var record :- ModuleAt(start, a, h);
    var thresholds := CollectLiveThresholds(start.thresholds);
    var telemetry := CollectTelemetry(record.declarations, record.incarnation);
    var report := BuildHealthReport(
      Evidence(thresholds, record.samples, record.latches, telemetry, Epochs(start.sources), record.uid,
               record.incarnation, clock.reportWallNs, config.maxFutureSkewNs));
    var target := ReconcileTarget(record.state, report);
    if target == record.state {
      return Ok(start);
    }
    if !TransitionAllowed(record.state, target) {
      return Err(InvalidTransition);
    }
    var next := MoveOn(start, h.uid, target, a, config, s);
    return Ok(next);
  }

  method ApplyBody(start: State, call: Call, config: Config, s: Stamp) returns (r: Result<State>)
    ensures r == Body(start, call, config, s)
  {
    hide RegisterSourceBody, RegisterModuleBody, UpdateIdentityBody, PublishCapabilityBody, PublishPortCapabilityBody,
         AttachBody, DetachBody, IngestBody, PublishThresholdBody, PublishRuleBody, RetireRuleBody, TransitionBody,
         ReconcileBody;
    match call.op
    case RegisterSource(name, instanceId, description) =>
      r := RegisterSourceOn(start, name, instanceId, description, config, s);
    case RegisterModule(key, identity, intent, _, _, a) =>
      r := RegisterModuleOn(start, key, identity, intent, a, config, s);
    case UpdateIdentity(a, h, v, _) => r := UpdateIdentityOn(start, a, h, v, config, s);
    case PublishCapability(a, h, key, subkey, value, _, _) =>
      r := PublishCapabilityOn(start, a, h, key, subkey, value, config, s);
    case PublishPortCapability(a, port, key, subkey, value, _, _) =>
      r := PublishPortCapabilityOn(start, a, port, key, subkey, value, config, s);
    case Attach(a, h, slot, portIndex) => r := AttachOn(start, a, h, slot, portIndex, config, s);
    case Detach(a, slot) => r := DetachOn(start, a, slot, config, s);
    case IngestHealth(a, h, input) => r := IngestOn(start, a, h, input, config, call.clock, s);
    case PublishThreshold(a, t) => r := PublishThresholdOn(start, a, t, config, s);
    case PublishRule(a, rule, _) => r := PublishRuleOn(start, a, rule, config, s);
    case RetireRule(a, id) => r := RetireRuleOn(start, a, id, s);
    case Transition(a, h, to, _) => r := TransitionOn(start, a, h, to, config, s);
    case Reconcile(a, h) => r := ReconcileOn(start, a, h, config, call.clock, s);
  }

  /** The shared state behind the lock; every call replaces it whole or leaves it. */
  class RegistryImpl {
    const config: Config
    var state: State
    var refusals: nat

    constructor (config: Config)
      ensures this.config == config && state == EMPTY_STATE && refusals == 0 && Runs.Good(state)
    {
      Runs.EmptyIsGood();
      this.config := config;
      state := EMPTY_STATE;
      refusals := 0;
    }

    /** `mutate`: fence, copy, body, publish; a refusal is counted and changes nothing else. */
    method Mutate(call: Call) returns (status: Result<()>)
      modifies this
      ensures status.Ok? <==> Mutated(old(state), call, config).Ok?
      ensures status.Ok? ==> state == Mutated(old(state), call, config).value && refusals == old(refusals)
      ensures status.Err? ==> state == old(state) && refusals == old(refusals) + 1
                              && Mutated(old(state), call, config) == Err(status.code)
    {
      hide Body;
      if call.requireGeneration && ExpectedGeneration(call.op) != 0 && ExpectedGeneration(call.op) != state.generation {
        refusals := refusals + 1;
        return Err(StaleGeneration);
      }
      var next := state;
      var stamp := Stamp(next.generation + 1, next.nextSequence, call.clock.wallNs, ProvenanceOf(call.op),
                         ReasonOf(call.op));
      next := next.(nextSequence := next.nextSequence + 1);
      var body := ApplyBody(next, call, config, stamp);
      if body.Err? {
        refusals := refusals + 1;
        return Err(body.code);
      }
      state := body.value.(generation := stamp.generation, mutations := body.value.mutations + 1);
      return Ok(());
    }

    /** A public call: argument checks happen before the lock is taken. */
    method Submit(call: Call) returns (status: Result<()>)
      modifies this
      ensures state == After(old(state), call, config)
      ensures status.Ok? <==> Attempt(old(state), call, config).Ok?
      ensures status.Err? ==> Attempt(old(state), call, config) == Err(status.code)
      ensures refusals == old(refusals) +
                if status.Err? && CheckCall(call.op, config, call.clock.wallNs).Ok? then 1 else 0
    {
      hide Mutated, CheckCall;
      var checked := CheckArguments(call, config);
      if checked.Err? {
        return Err(checked.code);
      }
      status := Mutate(call);
    }

    /** Any number of calls, one after another: the object walks the run. */
    method SubmitAll(calls: seq<Call>)
      modifies this
      ensures state == RunCalls(old(state), calls, config)
      ensures Runs.Good(old(state)) ==> Runs.Good(state)
    {
      hide After, Runs.Good;
      if Runs.Good(state) {
        Runs.RunKeepsInvariant(state, calls, config);
      }
      for i := 0 to |calls|
        invariant state == RunCalls(old(state), calls[..i], config)
      {
        assert calls[..i + 1][..i] == calls[..i];
        var status := Submit(calls[i]);
      }
      assert calls[..|calls|] == calls;
    }
  }
}
