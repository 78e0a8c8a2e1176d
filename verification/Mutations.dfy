/** What each mutation body does to a copy of the state, src/registry.cpp:638-2072, and one whole attempt. */
module Mutations {
  import opened Bytes
  import opened Provenances
  import opened Ordering
  import A = Authority
  import opened Consensus
  import opened Capability
  import opened Compatibility
  import opened Lifecycle
  import opened Latch
  import opened Health
  import opened HealthReport
  import opened Trim
  import opened Samples
  import opened RegistryState
  import opened Validation

  /**
   * What a mutation leaves on the entries it adds: generation, sequence, wall clock, and what the call says about them.
   */
  datatype Stamp = Stamp(generation: nat, sequence: nat, now: int, provenance: Provenance, reason: Option<Text>)

  const NO_PROVENANCE := Provenance(UndeclaredEvidence, [], [], [])

  function Authorize(st: State, a: RegistryState.Authority): Result<()> {
    A.RequireAuthority(Epochs(st.sources), a.source, a.epoch)
  }

  /** The head of every call on a module handle: authority, existence, incarnation fence. */
  function ModuleAt(st: State, a: RegistryState.Authority, h: Handle): Result<ModuleRecord> {
    var _ :- Authorize(st, a);
    if h.uid !in st.modules then Err(NotFound)
    else if st.modules[h.uid].incarnation != h.incarnation then Err(Fenced)
    else Ok(st.modules[h.uid])
  }

  function PutModule(st: State, uid: nat, record: ModuleRecord): State {
    st.(modules := st.modules[uid := record])
  }

  /** The generation, the mutation count and the sequence counter belong to the mutation path. */
  predicate LeavesCounters(st: State, r: Result<State>) {
    r.Ok? ==>
      && r.value.generation == st.generation && r.value.mutations == st.mutations
      && r.value.nextSequence == st.nextSequence && r.value.registryIncarnation == st.registryIncarnation
  }

  predicate LeavesSources(st: State, r: Result<State>) {
    r.Ok? ==> r.value.sources == st.sources && r.value.nextSourceId == st.nextSourceId
  }

  // ----- Sources -----

  function RegisterSourceBody(st: State, name: Text, instanceId: Text, description: Text, config: Config,
                              s: Stamp): (r: Result<State>)
    ensures LeavesCounters(st, r)
  {
    if name in st.sourceIdByName then
      var id := st.sourceIdByName[name];
      if id !in st.sources then Err(Internal)
      else
        var record := st.sources[id];
        var renewal := instanceId != [] && instanceId == record.instanceId;
        if !renewal && record.epoch == MAX_U32 then Err(CapacityExceeded)
        else
          var epoch := if renewal then record.epoch else record.epoch + 1;
          Ok(st.(sources := st.sources[record.id := SourceRecord(record.id, record.name, epoch, instanceId,
                                                                 description, s.generation, s.sequence, s.now)]))
    else if |st.sources| >= config.maxSources then Err(CapacityExceeded)
    else if st.nextSourceId >= MAX_U32 then Err(CapacityExceeded)
    else
      var id := st.nextSourceId;
      Ok(st.(nextSourceId := id + 1,
             sources := st.sources[id := SourceRecord(id, name, 1, instanceId, description, s.generation, s.sequence,
                                                      s.now)],
             sourceIdByName := st.sourceIdByName[name := id]))
  }

  // ----- Lifecycle -----

  /** The reason the registry itself gives where the call gives none. */
  function OwnWords(to: LifecycleState, incarnation: nat): string {
    match to
    case Discovered =>
      if incarnation == 1 then "module key observed for the first time" else "new module incarnation discovered"
    case Registered => "module identity registered"
    case Replaced => "a new physical module incarnation was registered for this module key"
    case Degraded => "health evidence indicates degradation"
    case _ => "health evidence is fresh and nominal"
  }

  function ReasonFor(to: LifecycleState, incarnation: nat, s: Stamp): Text {
    match s.reason
    case Some(reason) => reason
    case None => Ascii(OwnWords(to, incarnation))
  }

  function EventOf(from: LifecycleState, to: LifecycleState, incarnation: nat, a: RegistryState.Authority,
                   s: Stamp): LifecycleEvent
  {
    LifecycleEvent(from, to, incarnation, a.source, a.epoch, s.generation, s.sequence, s.now,
                   ReasonFor(to, incarnation, s))
  }

  function Logged(record: ModuleRecord, e: LifecycleEvent): ModuleRecord {
    record.(lifecycle := record.lifecycle + [e])
  }

  /** The module moves: one event, and the state fields with its stamp. */
  function Advanced(record: ModuleRecord, to: LifecycleState, a: RegistryState.Authority, s: Stamp): ModuleRecord {
    Logged(record, EventOf(record.state, to, record.incarnation, a, s))
      .(state := to, stateGeneration := s.generation, stateSequence := s.sequence, stateWallNs := s.now)
  }

  function LastEvents(events: seq<LifecycleEvent>, maxHistory: nat): seq<LifecycleEvent> {
    if |events| > maxHistory then events[|events| - maxHistory..] else events
  }

  function Capped(record: ModuleRecord, config: Config): ModuleRecord {
    record.(lifecycle := LastEvents(record.lifecycle, config.maxLifecycleHistory))
  }

  function TransitionBody(st: State, a: RegistryState.Authority, h: Handle, to: LifecycleState, config: Config,
                          s: Stamp): (r: Result<State>)
    ensures LeavesCounters(st, r) && LeavesSources(st, r)
  {
    var record :- ModuleAt(st, a, h);
    if !TransitionAllowed(record.state, to) then Err(InvalidTransition)
    else Ok(PutModule(st, h.uid, Capped(Advanced(record, to, a, s), config)))
  }

  // ----- Registration -----

  function NewModule(key: Text, uid: nat, a: RegistryState.Authority, s: Stamp): ModuleRecord {
    ModuleRecord(key, uid, 1, Discovered, s.generation, s.sequence, s.now, s.generation, s.sequence, s.now, 0, 1,
                 [], [], [], [EventOf(Discovered, Discovered, 1, a, s)], [], map[])
  }

  predicate Gone(state: LifecycleState) { state == Replaced || state == Retired }

  /** A different physical module takes the key: fence the old incarnation, discover the new one. */
  function NextIncarnation(record: ModuleRecord, a: RegistryState.Authority, s: Stamp): Result<ModuleRecord> {
    if record.incarnation == MAX_U32 then Err(CapacityExceeded)
    else
      var left := if Gone(record.state) then record
                  else Logged(record, EventOf(record.state, Replaced, record.incarnation, a, s));
      var next := record.incarnation + 1;
      Ok(Logged(left, EventOf(Discovered, Discovered, next, a, s))
           .(incarnation := next, incarnationCount := record.incarnationCount + 1, state := Discovered,
             fencedGeneration := s.generation, latches := []))
  }

  function DetachAll(attachments: map<Text, AttachmentRecord>, uid: nat): map<Text, AttachmentRecord> {
    map k | k in attachments ::
      if attachments[k].live && attachments[k].uid == uid then attachments[k].(live := false) else attachments[k]
  }

  datatype Opened = Opened(st: State, uid: nat)

  function OpenModule(st: State, key: Text, intent: Intent, a: RegistryState.Authority, config: Config,
                      s: Stamp): (r: Result<Opened>)
    ensures r.Ok? ==> LeavesCounters(st, Ok(r.value.st)) && LeavesSources(st, Ok(r.value.st))
  {
    if key !in st.moduleUidByKey then
      if |st.modules| >= config.maxModules then Err(CapacityExceeded)
      else
        var uid := st.nextModuleUid;
        Ok(Opened(st.(nextModuleUid := uid + 1, modules := st.modules[uid := NewModule(key, uid, a, s)],
                      moduleUidByKey := st.moduleUidByKey[key := uid]), uid))
    else
      var uid := st.moduleUidByKey[key];
      if uid !in st.modules then Err(Internal)
      else
        var record := st.modules[uid];
        if intent == EnsureCurrent then
          (if Gone(record.state) then Err(StaleIncarnation) else Ok(Opened(st, uid)))
        else
          var next :- NextIncarnation(record, a, s);
          Ok(Opened(PutModule(st, uid, next)
                      .(attachments := if Gone(record.state) then st.attachments
                                       else DetachAll(st.attachments, record.uid)),
                    uid))
  }

  function NewClaim<V>(attr: nat, subkey: Text, value: V, a: RegistryState.Authority, uid: nat, incarnation: nat,
                       port: Text, s: Stamp): Claim<V>
  {
    Claim(attr, subkey, value, a.source, a.epoch, uid, incarnation, port, s.generation, s.sequence, s.now,
          s.provenance, true)
  }

  function IdentityClaims(identity: seq<IdentityValue>, a: RegistryState.Authority, uid: nat, incarnation: nat,
                          s: Stamp): seq<IdentityClaim>
  {
    seq(|identity|, i requires 0 <= i < |identity| =>
      NewClaim(identity[i].attr, identity[i].subkey, identity[i].value, a, uid, incarnation, [], s))
  }

  function TrimClaims(record: ModuleRecord, config: Config): Result<ModuleRecord> {
    var claims :- TrimList(OfIdentity, record.claims, config.maxClaimsPerModule, config.maxClaimHistory);
    Ok(record.(claims := claims))
  }

  /** Registered, if it was only discovered so far. */
  function EnsureRegistered(record: ModuleRecord, a: RegistryState.Authority, s: Stamp): ModuleRecord {
    if record.state == Discovered then Advanced(record, Registered, a, s) else record
  }

  function RegisterModuleBody(st: State, key: Text, identity: seq<IdentityValue>, intent: Intent,
                              a: RegistryState.Authority, config: Config, s: Stamp): (r: Result<State>)
    ensures LeavesCounters(st, r) && LeavesSources(st, r)
  {
    var _ :- Authorize(st, a);
    var found :- OpenModule(st, key, intent, a, config, s);
    if found.uid !in found.st.modules then Err(Internal)
    else
      var record := EnsureRegistered(found.st.modules[found.uid], a, s);
      var stated := record.(claims := record.claims +
                                      IdentityClaims(identity, a, record.uid, record.incarnation, s));
      var trimmed :- TrimClaims(stated, config);
      Ok(PutModule(found.st, found.uid, Capped(trimmed, config)))
  }

  function UpdateIdentityBody(st: State, a: RegistryState.Authority, h: Handle, v: IdentityValue, config: Config,
                              s: Stamp): (r: Result<State>)
    ensures LeavesCounters(st, r) && LeavesSources(st, r)
  {
    var record :- ModuleAt(st, a, h);
    var claim := NewClaim(v.attr, v.subkey, v.value, a, record.uid, record.incarnation, [], s);
    var trimmed :- TrimClaims(record.(claims := record.claims + [claim]), config);
    Ok(PutModule(st, h.uid, trimmed))
  }

  // ----- Capabilities -----

  function PublishCapabilityBody(st: State, a: RegistryState.Authority, h: Handle, key: nat, subkey: Text,
                                 value: CapabilityValue, config: Config, s: Stamp): (r: Result<State>)
    ensures LeavesCounters(st, r) && LeavesSources(st, r)
  {
    var record :- ModuleAt(st, a, h);
    var declaration := NewClaim(key, subkey, value, a, record.uid, record.incarnation, [], s);
    var trimmed :- TrimList(OfModule, record.declarations + [declaration], config.maxDeclarationsPerModule,
                            config.maxClaimHistory);
    Ok(PutModule(st, h.uid, record.(declarations := trimmed)))
  }

  /** `max - 1` in 32-bit unsigned arithmetic. */
  function OneBelow(max: U32): nat { if max == 0 then MAX_U32 else max - 1 }

  /** A full port list is trimmed once before the new declaration and once after. */
  function PublishOnPort(declarations: seq<Declaration>, d: Declaration, max: U32): Result<seq<Declaration>> {
    var room :- if |declarations| >= max then Shrink(OfPort, declarations, OneBelow(max)) else Ok(declarations);
    Shrink(OfPort, room + [d], max)
  }

  function PublishPortCapabilityBody(st: State, a: RegistryState.Authority, port: Text, key: nat, subkey: Text,
                                     value: CapabilityValue, config: Config, s: Stamp): (r: Result<State>)
    ensures LeavesCounters(st, r) && LeavesSources(st, r)
  {
    var _ :- Authorize(st, a);
    if port !in st.ports && |st.ports| >= config.maxPorts then Err(CapacityExceeded)
    else
      var record := if port in st.ports then st.ports[port]
                    else PortRecord(port, s.generation, s.sequence, s.now, []);
      var declaration := NewClaim(key, subkey, value, a, 0, 0, port, s);
      var declarations :- PublishOnPort(record.declarations, declaration, config.maxDeclarationsPerPort);
      Ok(st.(ports := st.ports[port := record.(declarations := declarations)]))
  }

  // ----- Attachment -----

  function LiveSlots(attachments: map<Text, AttachmentRecord>): set<Text> {
    set k | k in attachments && attachments[k].live
  }

  predicate HeldBy(attachments: map<Text, AttachmentRecord>, slot: Text, record: ModuleRecord) {
    && slot in attachments && attachments[slot].live
    && attachments[slot].uid == record.uid && attachments[slot].incarnation == record.incarnation
  }

  function AttachBody(st: State, a: RegistryState.Authority, h: Handle, slot: Text, portIndex: nat, config: Config,
                      s: Stamp): (r: Result<State>)
    ensures LeavesCounters(st, r) && LeavesSources(st, r)
  {
    var record :- ModuleAt(st, a, h);
    if HeldBy(st.attachments, slot, record) then Ok(st)
    else if record.state != Attached && !TransitionAllowed(record.state, Attached) then Err(InvalidTransition)
    else if slot !in st.attachments && |LiveSlots(st.attachments)| >= config.maxAttachments then Err(CapacityExceeded)
    else
      var attachment := AttachmentRecord(slot, portIndex, record.uid, record.incarnation, a.source, a.epoch,
                                         s.generation, s.sequence, s.now, true);
      var moved := if record.state != Attached then Capped(Advanced(record, Attached, a, s), config) else record;
      Ok(PutModule(st, h.uid, moved).(attachments := st.attachments[slot := attachment]))
  }

  function DetachBody(st: State, a: RegistryState.Authority, slot: Text, config: Config, s: Stamp): (r: Result<State>)
    ensures LeavesCounters(st, r) && LeavesSources(st, r)
  {
    var _ :- Authorize(st, a);
    if slot !in st.attachments || !st.attachments[slot].live then Err(NotFound)
    else
      var attachment := st.attachments[slot];
      var freed := st.(attachments := st.attachments[slot := attachment.(live := false)]);
      if attachment.uid !in st.modules then Ok(freed)
      else
        var record := st.modules[attachment.uid];
        if record.incarnation != attachment.incarnation || !ImpliesAttachment(record.state) then Ok(freed)
        else if !TransitionAllowed(record.state, Removed) then Err(Internal)
        else Ok(PutModule(freed, attachment.uid, Capped(Advanced(record, Removed, a, s), config)))
  }

  // ----- Health -----

  function LiveThresholds(thresholds: seq<ThresholdRecord>): seq<Threshold> {
    if thresholds == [] then []
    else
      var t := thresholds[|thresholds| - 1];
      var front := LiveThresholds(thresholds[..|thresholds| - 1]);
      if t.live then front + [t.threshold] else front
  }

  /** The stored observation is at least as new as this one, by the source's own monotonic clock. */
  predicate Replays(existing: HealthSample, stored: HealthSample) {
    && existing.source == stored.source && existing.metric == stored.metric && existing.lane == stored.lane
    && existing.clockDomain == stored.clockDomain
    && existing.monotonicNs != 0 && existing.monotonicNs >= stored.monotonicNs
  }

  predicate Replayed(samples: seq<HealthSample>, stored: HealthSample) {
    stored.monotonicNs != 0 && exists i :: 0 <= i < |samples| && Replays(samples[i], stored)
  }

  function StoredSample(i: SampleInput, record: ModuleRecord, a: RegistryState.Authority, clock: Clock,
                        s: Stamp): HealthSample
  {
    var domain := if i.clockDomain != 0 then i.clockDomain else clock.domain;
    var monotonic := if i.monotonicNs == 0 && domain == clock.domain then clock.monotonicNs else i.monotonicNs;
    HealthSample(i.metric, i.lane, i.presence, if i.presence == Present then i.value else 0.0,
                 if i.wallNs == 0 then s.now else i.wallNs, monotonic, domain, a.source, a.epoch,
                 record.uid, record.incarnation, s.generation, s.sequence, i.provenance, true)
  }

  function LatchIndex(latches: seq<LatchRecord>, metric: Metric, lane: U16): (i: nat)
    ensures i <= |latches|
    ensures i < |latches| ==> latches[i].metric == metric && latches[i].lane == lane
    ensures forall k :: 0 <= k < i ==> latches[k].metric != metric || latches[k].lane != lane
  {
    if latches == [] || (latches[0].metric == metric && latches[0].lane == lane) then 0
    else 1 + LatchIndex(latches[1..], metric, lane)
  }

  /** Advances the latch of the sample's series, creating it first if need be. */
  function AdvanceSeries(latches: seq<LatchRecord>, t: Threshold, sample: HealthSample): seq<LatchRecord> {
    var i := LatchIndex(latches, sample.metric, sample.lane);
    var before := if i < |latches| then latches[i].latch else EMPTY_LATCH;
    var after := AdvanceLatch(t, before, sample.value, sample.wallNs, sample.sequence, sample.generation);
    if i < |latches| then latches[i := latches[i].(latch := after)]
    else latches + [LatchRecord(sample.metric, sample.lane, after)]
  }

  function Latched(record: ModuleRecord, thresholds: seq<Threshold>, sample: HealthSample): ModuleRecord {
    if sample.presence != Present then record
    else match SelectedThreshold(thresholds, sample.metric, sample.lane)
      case None => record
      case Some(t) => record.(latches := AdvanceSeries(record.latches, t, sample))
  }

  /** The sample list with one more sample, and the counter of its series one higher. */
  function Pushed(record: ModuleRecord, sample: HealthSample): Ring {
    var code := SampleSeries(sample);
    Ring(record.samples + [sample], record.seriesCounts[code := CountOf(record.seriesCounts, code) + 1], 0)
  }

  function IngestBody(st: State, a: RegistryState.Authority, h: Handle, input: SampleInput, config: Config,
                      clock: Clock, s: Stamp): (r: Result<State>)
    ensures LeavesCounters(st, r) && LeavesSources(st, r)
  {
    var record :- ModuleAt(st, a, h);
    var sample := StoredSample(input, record, a, clock, s);
    if Replayed(record.samples, sample) then Err(Refused)
    else
      var ring := TrimRing(Pushed(record, sample), config.maxSamplesPerSeries, config.maxSamplesPerModule);
      var latched := Latched(record, LiveThresholds(st.thresholds), sample);
      Ok(PutModule(st, h.uid, latched.(samples := ring.samples, seriesCounts := ring.counts))
           .(droppedSamples := st.droppedSamples + ring.dropped))
  }

  predicate SameSubject(t: Threshold, u: Threshold) { t.metric == u.metric && t.lane == u.lane }

  function Retire(thresholds: seq<ThresholdRecord>, t: Threshold): seq<ThresholdRecord> {
    seq(|thresholds|, i requires 0 <= i < |thresholds| =>
      if SameSubject(thresholds[i].threshold, t) then thresholds[i].(live := false) else thresholds[i])
  }

  function HistoryOf(thresholds: seq<ThresholdRecord>, t: Threshold): nat {
    if thresholds == [] then 0
    else HistoryOf(thresholds[..|thresholds| - 1], t) +
         if SameSubject(thresholds[|thresholds| - 1].threshold, t) then 1 else 0
  }

  function FirstRetired(thresholds: seq<ThresholdRecord>, t: Threshold): (i: nat)
    ensures i <= |thresholds|
    ensures i < |thresholds| ==> !thresholds[i].live && SameSubject(thresholds[i].threshold, t)
    ensures forall k :: 0 <= k < i ==> thresholds[k].live || !SameSubject(thresholds[k].threshold, t)
  {
    if thresholds == [] || (!thresholds[0].live && SameSubject(thresholds[0].threshold, t)) then 0
    else 1 + FirstRetired(thresholds[1..], t)
  }

  /** The history loop leaves after its first round, so at most one retired entry goes per publication. */
  function BoundHistory(thresholds: seq<ThresholdRecord>, t: Threshold, maxHistory: nat): seq<ThresholdRecord> {
    var i := FirstRetired(thresholds, t);
    if HistoryOf(thresholds, t) > maxHistory && i < |thresholds| then Erase(thresholds, i) else thresholds
  }

  function PublishThresholdBody(st: State, a: RegistryState.Authority, t: Threshold, config: Config,
                                s: Stamp): (r: Result<State>)
    ensures LeavesCounters(st, r) && LeavesSources(st, r)
  {
    var _ :- Authorize(st, a);
    var retired := Retire(st.thresholds, t);
    if |LiveThresholds(retired)| >= config.maxThresholds then Err(CapacityExceeded)
    else
      var published := t.(source := a.source, epoch := a.epoch, generation := s.generation, sequence := s.sequence,
                          live := true);
      Ok(st.(thresholds := BoundHistory(retired + [ThresholdRecord(published, true)], t, config.maxClaimHistory)))
  }

  /** The telemetry metric a capability key stands for. */
  function TelemetryMetric(key: nat): Option<Metric> {
    if key == 16 then Some(TemperatureCelsius)
    else if key == 17 then Some(SupplyVoltageVolts)
    else if key == 18 then Some(TxPowerDbm)
    else if key == 19 then Some(RxPowerDbm)
    else if key == 20 then Some(TxBiasCurrentMilliamps)
    else if key == 21 then Some(LaneSkewPicoseconds)
    else None
  }

  function DeclaredTelemetry(declarations: seq<Declaration>, incarnation: nat): seq<Metric> {
    if declarations == [] then []
    else
      var d := declarations[|declarations| - 1];
      var front := DeclaredTelemetry(declarations[..|declarations| - 1], incarnation);
      if d.incarnation == incarnation && d.live && TelemetryMetric(d.attr).Some? && d.value == BooleanValue(true)
      then front + [TelemetryMetric(d.attr).value] else front
  }

  function EvidenceOf(st: State, record: ModuleRecord, config: Config, now: int): Evidence {
    Evidence(LiveThresholds(st.thresholds), record.samples, record.latches,
             DeclaredTelemetry(record.declarations, record.incarnation), Epochs(st.sources),
             record.uid, record.incarnation, now, config.maxFutureSkewNs)
  }

  /** Where fresh evidence moves a module; its own state when the evidence says nothing. */
  function ReconcileTarget(state: LifecycleState, report: Report): LifecycleState {
    if (report.worst == CriticalState || report.worst == DegradedState) && (state == Active || state == Attached)
    then Degraded
    else if Healthy(report) && (state == Degraded || state == Attached) then Active
    else state
  }

  function ReconcileBody(st: State, a: RegistryState.Authority, h: Handle, config: Config, clock: Clock,
                         s: Stamp): (r: Result<State>)
    ensures LeavesCounters(st, r) && LeavesSources(st, r)
  {
    var record :- ModuleAt(st, a, h);
    var target := ReconcileTarget(record.state, ReportOf(EvidenceOf(st, record, config, clock.reportWallNs)));
    if target == record.state then Ok(st)
    else if !TransitionAllowed(record.state, target) then Err(InvalidTransition)
    else Ok(PutModule(st, h.uid, Capped(Advanced(record, target, a, s), config)))
  }

  // ----- Rules -----

  /** Rule ids are cut to 32 bits. */
  function PublishRuleBody(st: State, a: RegistryState.Authority, rule: Rule, config: Config,
                           s: Stamp): (r: Result<State>)
    ensures LeavesCounters(st, r) && LeavesSources(st, r)
  {
    var _ :- Authorize(st, a);
    if |st.rules| >= config.maxRules then Err(CapacityExceeded)
    else
      var id := st.nextRuleId % 0x1_0000_0000;
      var record := rule.(id := id, source := a.source, epoch := a.epoch, generation := s.generation,
                          sequence := s.sequence, live := true);
      Ok(st.(nextRuleId := st.nextRuleId + 1, rules := st.rules[id := record]))
  }

  function RetireRuleBody(st: State, a: RegistryState.Authority, id: nat, s: Stamp): (r: Result<State>)
    ensures LeavesCounters(st, r) && LeavesSources(st, r)
  {
    var _ :- Authorize(st, a);
    if id !in st.rules then Err(NotFound)
    else if !st.rules[id].live then Err(Conflict)
    else Ok(st.(rules := st.rules[id := st.rules[id].(live := false, generation := s.generation,
                                                      sequence := s.sequence)]))
  }

  // ----- One attempt -----

  function Body(st: State, call: Call, config: Config, s: Stamp): (r: Result<State>)
    ensures LeavesCounters(st, r)
    ensures !call.op.RegisterSource? ==> LeavesSources(st, r)
  {
    match call.op
    case RegisterSource(name, instanceId, description) =>
      RegisterSourceBody(st, name, instanceId, description, config, s)
    case RegisterModule(key, identity, intent, _, _, a) => RegisterModuleBody(st, key, identity, intent, a, config, s)
    case UpdateIdentity(a, h, v, _) => UpdateIdentityBody(st, a, h, v, config, s)
    case PublishCapability(a, h, key, subkey, value, _, _) =>
      PublishCapabilityBody(st, a, h, key, subkey, value, config, s)
    case PublishPortCapability(a, port, key, subkey, value, _, _) =>
      PublishPortCapabilityBody(st, a, port, key, subkey, value, config, s)
    case Attach(a, h, slot, portIndex) => AttachBody(st, a, h, slot, portIndex, config, s)
    case Detach(a, slot) => DetachBody(st, a, slot, config, s)
    case IngestHealth(a, h, input) => IngestBody(st, a, h, input, config, call.clock, s)
    case PublishThreshold(a, t) => PublishThresholdBody(st, a, t, config, s)
    case PublishRule(a, rule, _) => PublishRuleBody(st, a, rule, config, s)
    case RetireRule(a, id) => RetireRuleBody(st, a, id, s)
    case Transition(a, h, to, _) => TransitionBody(st, a, h, to, config, s)
    case Reconcile(a, h) => ReconcileBody(st, a, h, config, call.clock, s)
  }

  /** RegistryImpl::mutate refuses a call fenced on a generation other than the current one. */
  predicate StaleCall(st: State, call: Call) {
    call.requireGeneration && ExpectedGeneration(call.op) != 0 && ExpectedGeneration(call.op) != st.generation
  }

  function ProvenanceOf(op: RegistryState.Op): Provenance {
    match op
    case RegisterModule(_, _, _, provenance, _, _) => provenance
    case UpdateIdentity(_, _, _, provenance) => provenance
    case PublishCapability(_, _, _, _, _, _, provenance) => provenance
    case PublishPortCapability(_, _, _, _, _, _, provenance) => provenance
    case _ => NO_PROVENANCE
  }

  function ReasonOf(op: RegistryState.Op): Option<Text> {
    match op
    case Transition(_, _, _, reason) => Some(reason)
    case Attach(_, _, slot, _) => Some(Ascii("module attached to slot ") + slot)
    case Detach(_, slot) => Some(Ascii("module detached from slot ") + slot)
    case _ => None
  }

  function StampOf(st: State, call: Call): Stamp {
    Stamp(st.generation + 1, st.nextSequence, call.clock.wallNs, ProvenanceOf(call.op), ReasonOf(call.op))
  }

  /** The mutation path: fence, copy, body, publish. Err leaves the state as it was. */
  function Mutated(st: State, call: Call, config: Config): Result<State> {
    if StaleCall(st, call) then Err(StaleGeneration)
    else
      var next :- Body(st.(nextSequence := st.nextSequence + 1), call, config, StampOf(st, call));
      Ok(next.(generation := st.generation + 1, mutations := st.mutations + 1))
  }

  /** A whole call: argument checks, then the mutation path. */
  function Attempt(st: State, call: Call, config: Config): Result<State> {
    var _ :- CheckCall(call.op, config, call.clock.wallNs);
    Mutated(st, call, config)
  }

  function After(st: State, call: Call, config: Config): State {
    match Attempt(st, call, config)
    case Ok(next) => next
    case Err(_) => st
  }

  /** The state after a sequence of calls, in whatever order the lock admitted them. */
  function RunCalls(st: State, calls: seq<Call>, config: Config): State {
    if calls == [] then st else After(RunCalls(st, calls[..|calls| - 1], config), calls[|calls| - 1], config)
  }
}
