/** Claim and declaration lists over whole runs: never past the configured bounds. */
module ListRuns {
  import opened Bytes
  import opened Ordering
  import opened Consensus
  import opened Capability
  import opened Lifecycle
  import opened HealthReport
  import opened Trim
  import opened Samples
  import opened HistoryBounds
  import opened RegistryState
  import opened Validation
  import opened Mutations
  import opened RegistryInvariant
  import opened InvariantSteps
  import opened InvariantRegistration
  import opened Runs
  import Resurrection

  /** At most so many entries in all, and so many by which one source epoch states one attribute. */
  ghost predicate Bounded<V(!new)>(s: seq<Claim<V>>, maxTotal: nat, maxHistory: nat) {
    |s| <= maxTotal && forall a, k, o, e :: |Filter(s, Stated<V>(a, k, o, e))| <= maxHistory
  }

  ghost predicate RecordBounded(r: ModuleRecord, config: Config) {
    && Bounded(r.claims, config.maxClaimsPerModule, config.maxClaimHistory)
    && Bounded(r.declarations, config.maxDeclarationsPerModule, config.maxClaimHistory)
  }

  ghost predicate ModulesBounded(modules: map<nat, ModuleRecord>, config: Config) {
    forall uid :: uid in modules ==> RecordBounded(modules[uid], config)
  }

  predicate PortsBounded(ports: map<Text, PortRecord>, config: Config) {
    forall port :: port in ports ==> |ports[port].declarations| <= config.maxDeclarationsPerPort
  }

  lemma NothingIsBounded<V(!new)>(maxTotal: nat, maxHistory: nat)
    ensures Bounded<V>([], maxTotal, maxHistory)
  {
    forall a, k, o, e ensures |Filter([], Stated<V>(a, k, o, e))| == 0 {
      FilterNone(Stated<V>(a, k, o, e));
    }
  }

  lemma TrimmedIsBounded<V(!new)>(kind: ClaimKind, s: seq<Claim<V>>, maxTotal: nat, maxHistory: nat)
    requires Orderly(s) && OneSubject(kind, s) && TrimList(kind, s, maxTotal, maxHistory).Ok?
    ensures Bounded(TrimList(kind, s, maxTotal, maxHistory).value, maxTotal, maxHistory)
  {
    hide Orderly, OneSubject, TrimList, Filter, WithoutFirst, Subsequence;
    TrimExactly(kind, s, maxTotal, maxHistory);
  }

  /** The module lists are within bounds, and the ports were left alone. */
  ghost predicate KeepsBounds(st: State, next: State, config: Config) {
    ModulesBounded(next.modules, config) && next.ports == st.ports
  }

  // ----- Each body -----

  ghost predicate SameLists(r: ModuleRecord, t: ModuleRecord) {
    t.claims == r.claims && t.declarations == r.declarations
  }

  lemma PutSame(modules: map<nat, ModuleRecord>, uid: nat, t: ModuleRecord, config: Config)
    requires ModulesBounded(modules, config) && uid in modules && SameLists(modules[uid], t)
    ensures ModulesBounded(modules[uid := t], config)
  {
    hide Bounded;
  }

  lemma PutBounded(modules: map<nat, ModuleRecord>, uid: nat, t: ModuleRecord, config: Config)
    requires ModulesBounded(modules, config) && RecordBounded(t, config)
    ensures ModulesBounded(modules[uid := t], config)
  {
    hide RecordBounded;
  }

  lemma MovedLists(r: ModuleRecord, to: LifecycleState, a: RegistryState.Authority, config: Config, s: Stamp)
    ensures SameLists(r, Advanced(r, to, a, s)) && SameLists(r, Capped(Advanced(r, to, a, s), config))
    ensures SameLists(r, EnsureRegistered(r, a, s)) && SameLists(r, Capped(r, config))
  {
  }

  lemma AttachBounded(st: State, a: RegistryState.Authority, h: Handle, slot: Text, portIndex: nat, config: Config,
                      s: Stamp)
    requires ModulesBounded(st.modules, config) && AttachBody(st, a, h, slot, portIndex, config, s).Ok?
    ensures KeepsBounds(st, AttachBody(st, a, h, slot, portIndex, config, s).value, config)
  {
    hide ModuleAt, TransitionAllowed, LiveSlots, HeldBy, Capped, Advanced, ModulesBounded, SameLists;
    ReachedIsAuthorized(st, a, h);
    var r := st.modules[h.uid];
    MovedLists(r, Attached, a, config, s);
    PutSame(st.modules, h.uid, Capped(Advanced(r, Attached, a, s), config), config);
    assert st.modules[h.uid := r] == st.modules;
  }

  lemma TransitionBounded(st: State, a: RegistryState.Authority, h: Handle, to: LifecycleState, config: Config,
                          s: Stamp)
    requires ModulesBounded(st.modules, config) && TransitionBody(st, a, h, to, config, s).Ok?
    ensures KeepsBounds(st, TransitionBody(st, a, h, to, config, s).value, config)
  {
    hide ModuleAt, TransitionAllowed, Capped, Advanced, ModulesBounded, SameLists;
    ReachedIsAuthorized(st, a, h);
    MovedLists(st.modules[h.uid], to, a, config, s);
    PutSame(st.modules, h.uid, Capped(Advanced(st.modules[h.uid], to, a, s), config), config);
  }

  lemma ReconcileBounded(st: State, a: RegistryState.Authority, h: Handle, config: Config, clock: Clock, s: Stamp)
    requires ModulesBounded(st.modules, config) && ReconcileBody(st, a, h, config, clock, s).Ok?
    ensures KeepsBounds(st, ReconcileBody(st, a, h, config, clock, s).value, config)
  {
    hide ModuleAt, TransitionAllowed, Capped, Advanced, ReconcileTarget, EvidenceOf, ReportOf, ModulesBounded,
         SameLists;
    ReachedIsAuthorized(st, a, h);
    var r := st.modules[h.uid];
    var target := ReconcileTarget(r.state, ReportOf(EvidenceOf(st, r, config, clock.reportWallNs)));
    MovedLists(r, target, a, config, s);
    PutSame(st.modules, h.uid, Capped(Advanced(r, target, a, s), config), config);
  }

  lemma DetachBounded(st: State, a: RegistryState.Authority, slot: Text, config: Config, s: Stamp)
    requires ModulesBounded(st.modules, config) && DetachBody(st, a, slot, config, s).Ok?
    ensures KeepsBounds(st, DetachBody(st, a, slot, config, s).value, config)
  {
    hide Authorize, TransitionAllowed, Capped, Advanced, ModulesBounded, ImpliesAttachment, SameLists;
    var uid := st.attachments[slot].uid;
    if uid in st.modules {
      MovedLists(st.modules[uid], Removed, a, config, s);
      PutSame(st.modules, uid, Capped(Advanced(st.modules[uid], Removed, a, s), config), config);
    }
  }

  lemma IngestBounded(st: State, a: RegistryState.Authority, h: Handle, input: SampleInput, config: Config,
                      clock: Clock, s: Stamp)
    requires ModulesBounded(st.modules, config) && IngestBody(st, a, h, input, config, clock, s).Ok?
    ensures KeepsBounds(st, IngestBody(st, a, h, input, config, clock, s).value, config)
  {
    hide ModuleAt, Replayed, LiveThresholds, StoredSample, AdvanceSeries, TrimRing, Pushed, ModulesBounded;
    ReachedIsAuthorized(st, a, h);
    PutSame(st.modules, h.uid, IngestBody(st, a, h, input, config, clock, s).value.modules[h.uid], config);
  }

  lemma UpdateIdentityBounded(st: State, a: RegistryState.Authority, h: Handle, v: IdentityValue, config: Config,
                              s: Stamp)
    requires Inv(st, s.sequence) && ModulesBounded(st.modules, config)
    requires UpdateIdentityBody(st, a, h, v, config, s).Ok?
    ensures KeepsBounds(st, UpdateIdentityBody(st, a, h, v, config, s).value, config)
  {
    hide ModuleAt, Inv, RecordOk, ClaimsOk, ClaimOk, Known, NewClaim, TrimList, OneSubject, Orderly, Bounded;
    var q, e := s.sequence, Epochs(st.sources);
    ReachedModule(st, a, h, q);
    var r := st.modules[h.uid];
    OwnLists(r, h.uid, e, q);
    var c := NewClaim(v.attr, v.subkey, v.value, a, r.uid, r.incarnation, [], s);
    NewClaimOk(v.attr, v.subkey, v.value, a, r.uid, r.incarnation, [], s, e);
    PushOk(r.claims, c, h.uid, r.incarnation, [], e, q);
    ListsAreTrimmable(OfIdentity, r.claims + [c], h.uid, r.incarnation, [], e, q + 1);
    TrimmedIsBounded(OfIdentity, r.claims + [c], config.maxClaimsPerModule, config.maxClaimHistory);
    PutBounded(st.modules, h.uid, UpdateIdentityBody(st, a, h, v, config, s).value.modules[h.uid], config);
  }

  lemma PublishCapabilityBounded(st: State, a: RegistryState.Authority, h: Handle, key: nat, subkey: Text,
                                 value: CapabilityValue, config: Config, s: Stamp)
    requires Inv(st, s.sequence) && ModulesBounded(st.modules, config)
    requires PublishCapabilityBody(st, a, h, key, subkey, value, config, s).Ok?
    ensures KeepsBounds(st, PublishCapabilityBody(st, a, h, key, subkey, value, config, s).value, config)
  {
    hide ModuleAt, Inv, RecordOk, ClaimsOk, ClaimOk, Known, NewClaim, TrimList, OneSubject, Orderly, Bounded;
    var q, e := s.sequence, Epochs(st.sources);
    ReachedModule(st, a, h, q);
    var r := st.modules[h.uid];
    OwnLists(r, h.uid, e, q);
    var d := NewClaim(key, subkey, value, a, r.uid, r.incarnation, [], s);
    NewClaimOk(key, subkey, value, a, r.uid, r.incarnation, [], s, e);
    PushOk(r.declarations, d, h.uid, r.incarnation, [], e, q);
    var all := r.declarations + [d];
    ListsAreTrimmable(OfModule, all, h.uid, r.incarnation, [], e, q + 1);
    TrimmedIsBounded(OfModule, all, config.maxDeclarationsPerModule, config.maxClaimHistory);
    PutBounded(st.modules, h.uid, PublishCapabilityBody(st, a, h, key, subkey, value, config, s).value.modules[h.uid],
               config);
  }

  lemma NewModuleBounded(key: Text, uid: nat, a: RegistryState.Authority, config: Config, s: Stamp)
    ensures RecordBounded(NewModule(key, uid, a, s), config)
  {
    NothingIsBounded<Text>(config.maxClaimsPerModule, config.maxClaimHistory);
    NothingIsBounded<CapabilityValue>(config.maxDeclarationsPerModule, config.maxClaimHistory);
    hide Bounded;
  }

  lemma OpenBounded(st: State, key: Text, intent: Intent, a: RegistryState.Authority, config: Config, s: Stamp)
    requires ModulesBounded(st.modules, config) && OpenModule(st, key, intent, a, config, s).Ok?
    ensures KeepsBounds(st, OpenModule(st, key, intent, a, config, s).value.st, config)
  {
    hide ModulesBounded, RecordBounded, NewModule, DetachAll, Gone, EventOf;
    if key !in st.moduleUidByKey {
      NewModuleBounded(key, st.nextModuleUid, a, config, s);
      PutBounded(st.modules, st.nextModuleUid, NewModule(key, st.nextModuleUid, a, s), config);
    } else if intent == NewIncarnation {
      var uid := st.moduleUidByKey[key];
      PutSame(st.modules, uid, NextIncarnation(st.modules[uid], a, s).value, config);
    }
  }

  lemma RegisterModuleBounded(st: State, key: Text, identity: seq<IdentityValue>, intent: Intent,
                              a: RegistryState.Authority, config: Config, s: Stamp)
    requires Inv(st, s.sequence) && NoRepeats(identity) && ModulesBounded(st.modules, config)
    requires RegisterModuleBody(st, key, identity, intent, a, config, s).Ok?
    ensures KeepsBounds(st, RegisterModuleBody(st, key, identity, intent, a, config, s).value, config)
  {
    hide Inv, Authorize, OpenModule, RecordOk, ClaimsOk, Known, EnsureRegistered, IdentityClaims, Capped, NoRepeats,
         TrimList, OneSubject, Orderly, Bounded, ModulesBounded, PutModule;
    var q, e := s.sequence, Epochs(st.sources);
    KnownAuthority(st, a, q, q + 1);
    OpenKeeps(st, key, intent, a, config, s);
    OpenBounded(st, key, intent, a, config, s);
    var found := OpenModule(st, key, intent, a, config, s).value;
    var r := found.st.modules[found.uid];
    RecordAt(found.st, found.uid, q + 1);
    OwnUid(r, found.uid, e, q + 1);
    Resurrection.EnsureRegisteredLists(r, a, s);
    var t := EnsureRegistered(r, a, s);
    var added := IdentityClaims(identity, a, t.uid, t.incarnation, s);
    PushAllOk(t.claims, identity, a, t.uid, t.incarnation, s, e);
    ListsAreTrimmable(OfIdentity, t.claims + added, t.uid, t.incarnation, [], e, q + 1);
    TrimmedIsBounded(OfIdentity, t.claims + added, config.maxClaimsPerModule, config.maxClaimHistory);
    var kept := TrimList(OfIdentity, t.claims + added, config.maxClaimsPerModule, config.maxClaimHistory).value;
    RecordAtBounded(found.st.modules, found.uid, config);
    MovedLists(r, Registered, a, config, s);
    MovedLists(t.(claims := kept), Registered, a, config, s);
    assert t.(claims := t.claims + added).(claims := kept) == t.(claims := kept);
    PutBounded(found.st.modules, found.uid, Capped(t.(claims := kept), config), config);
    PutIs(found.st, found.uid, Capped(t.(claims := kept), config));
  }

  lemma RecordAtBounded(modules: map<nat, ModuleRecord>, uid: nat, config: Config)
    requires ModulesBounded(modules, config) && uid in modules
    ensures RecordBounded(modules[uid], config)
  {
  }

  lemma PutIs(st: State, uid: nat, r: ModuleRecord)
    ensures PutModule(st, uid, r).modules == st.modules[uid := r] && PutModule(st, uid, r).ports == st.ports
  {
  }

  lemma PublishPortBounded(st: State, a: RegistryState.Authority, port: Text, key: nat, subkey: Text,
                           value: CapabilityValue, config: Config, s: Stamp)
    requires PortsBounded(st.ports, config) && PublishPortCapabilityBody(st, a, port, key, subkey, value, config, s).Ok?
    ensures PortsBounded(PublishPortCapabilityBody(st, a, port, key, subkey, value, config, s).value.ports, config)
    ensures PublishPortCapabilityBody(st, a, port, key, subkey, value, config, s).value.modules == st.modules
  {
    hide Authorize, Shrink, NewClaim;
  }

  lemma OtherTables(st: State, call: Call, config: Config, s: Stamp)
    requires Body(st, call, config, s).Ok? && ModulesBounded(st.modules, config)
    requires call.op.RegisterSource? || call.op.PublishThreshold? || call.op.PublishRule? || call.op.RetireRule?
    ensures KeepsBounds(st, Body(st, call, config, s).value, config)
  {
    hide Authorize, Retire, BoundHistory, LiveThresholds, ModulesBounded;
  }

  lemma BodyBounded(st: State, call: Call, config: Config, s: Stamp)
    requires Inv(st, s.sequence) && CheckCall(call.op, config, call.clock.wallNs).Ok? && Body(st, call, config, s).Ok?
    requires ModulesBounded(st.modules, config) && PortsBounded(st.ports, config)
    ensures var next := Body(st, call, config, s).value;
      ModulesBounded(next.modules, config) && PortsBounded(next.ports, config)
  {
    hide Inv, ModulesBounded, PortsBounded, RegisterSourceBody, RegisterModuleBody, UpdateIdentityBody,
         PublishCapabilityBody, PublishPortCapabilityBody, AttachBody, DetachBody, IngestBody, PublishThresholdBody,
         PublishRuleBody, RetireRuleBody, TransitionBody, ReconcileBody, CheckCall;
    match call.op
    case RegisterModule(key, identity, intent, _, _, a) =>
      NoRepeatsChecked(call.op, config, call.clock.wallNs);
      RegisterModuleBounded(st, key, identity, intent, a, config, s);
    case UpdateIdentity(a, h, v, _) => UpdateIdentityBounded(st, a, h, v, config, s);
    case PublishCapability(a, h, key, subkey, value, _, _) =>
      PublishCapabilityBounded(st, a, h, key, subkey, value, config, s);
    case PublishPortCapability(a, port, key, subkey, value, _, _) =>
      PublishPortBounded(st, a, port, key, subkey, value, config, s);
    case Attach(a, h, slot, portIndex) => AttachBounded(st, a, h, slot, portIndex, config, s);
    case Detach(a, slot) => DetachBounded(st, a, slot, config, s);
    case IngestHealth(a, h, input) => IngestBounded(st, a, h, input, config, call.clock, s);
    case Transition(a, h, to, _) => TransitionBounded(st, a, h, to, config, s);
    case Reconcile(a, h) => ReconcileBounded(st, a, h, config, call.clock, s);
    case _ => OtherTables(st, call, config, s);
  }

  lemma NoRepeatsChecked(op: RegistryState.Op, config: Config, now: int)
    requires op.RegisterModule? && CheckCall(op, config, now).Ok?
    ensures NoRepeats(op.identity)
  {
    hide CheckProvenance, CheckIdentity, NoRepeats;
  }

  /**
   * Over any run from an empty registry no list outgrows its bounds: totals, and history per attribute and source
   * epoch.
   */
  lemma {:induction false} ListsStayBounded(calls: seq<Call>, config: Config)
    ensures var st := RunCalls(EMPTY_STATE, calls, config);
      ModulesBounded(st.modules, config) && PortsBounded(st.ports, config)
  {
    hide Good, ModulesBounded, PortsBounded, Attempt, Body, CheckCall;
    if calls == [] {
      EmptyBounded(config);
    } else {
      var front, call := calls[..|calls| - 1], calls[|calls| - 1];
      ListsStayBounded(front, config);
      var before := RunCalls(EMPTY_STATE, front, config);
      EmptyIsGood();
      RunKeepsInvariant(EMPTY_STATE, front, config);
      if Attempt(before, call, config).Ok? {
        CommitParts(before, call, config);
        BegunIsGood(before);
        BodyBounded(before.(nextSequence := before.nextSequence + 1), call, config, StampOf(before, call));
      }
    }
  }

  lemma EmptyBounded(config: Config)
    ensures ModulesBounded(EMPTY_STATE.modules, config) && PortsBounded(EMPTY_STATE.ports, config)
  {
  }

  lemma BegunIsGood(st: State)
    requires Good(st)
    ensures Inv(st.(nextSequence := st.nextSequence + 1), st.nextSequence)
  {
  }
}
