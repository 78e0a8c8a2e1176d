/** The retained lifecycle history is a path through the transition table, incarnation by incarnation. */
module LifecyclePath {
  import opened Bytes
  import A = Authority
  import Consensus
  import opened Lifecycle
  import opened Latch
  import opened Health
  import opened HealthReport
  import opened Trim
  import opened Samples
  import opened RegistryState
  import opened Validation
  import opened Mutations
  import opened RegistryInvariant
  import opened InvariantSteps
  import opened InvariantRegistration
  import opened Runs

  /** The event that opens an incarnation. */
  predicate Birth(e: LifecycleEvent) { e.from == Discovered && e.to == Discovered }

  /** A move of the table, or the forced replacement of a module that was neither replaced nor retired. */
  predicate Legal(e: LifecycleEvent) {
    Birth(e) || TransitionAllowed(e.from, e.to) || (e.to == Replaced && !Gone(e.from))
  }

  /** e follows d: the next move of the same incarnation, or the birth of a newer one. */
  predicate Follows(d: LifecycleEvent, e: LifecycleEvent) {
    if d.incarnation == e.incarnation then d.to == e.from && !Birth(e)
    else d.incarnation < e.incarnation && Birth(e) && Gone(d.to)
  }

  ghost predicate Path(events: seq<LifecycleEvent>) {
    && (forall i :: 0 <= i < |events| ==> Legal(events[i]))
    && (forall i :: 0 < i < |events| ==> Follows(events[i - 1], events[i]))
  }

  /** One call stamps all its events alike: then a birth comes first, or the incarnation grew. */
  predicate InTime(d: LifecycleEvent, e: LifecycleEvent) {
    d.sequence < e.sequence || (d.sequence == e.sequence && (d.incarnation < e.incarnation || Birth(d)))
  }

  ghost predicate Timed(events: seq<LifecycleEvent>) {
    forall i :: 0 < i < |events| ==> InTime(events[i - 1], events[i])
  }

  /** A path in time that ends where the module is, at a sequence below n. */
  ghost predicate PathOk(r: ModuleRecord, n: nat) {
    && Path(r.lifecycle) && Timed(r.lifecycle) && r.lifecycle != []
    && var last := r.lifecycle[|r.lifecycle| - 1];
       last.to == r.state && last.incarnation == r.incarnation && last.sequence < n
  }

  /** Every module has a path, and none is left merely discovered. */
  ghost predicate PathsOk(modules: map<nat, ModuleRecord>, n: nat) {
    forall uid :: uid in modules ==> PathOk(modules[uid], n) && modules[uid].state != Discovered
  }

  // ----- Extending a path -----

  lemma LogPath(events: seq<LifecycleEvent>, e: LifecycleEvent)
    requires Path(events) && Timed(events) && Legal(e)
    requires events != [] ==> Follows(events[|events| - 1], e) && InTime(events[|events| - 1], e)
    ensures Path(events + [e]) && Timed(events + [e])
  {
    hide Legal, Follows, InTime;
  }

  lemma PathLater(r: ModuleRecord, n: nat, m: nat)
    requires PathOk(r, n) && n <= m
    ensures PathOk(r, m)
  {
    hide Path, Timed;
  }

  lemma PathsLater(modules: map<nat, ModuleRecord>, n: nat, m: nat)
    requires PathsOk(modules, n) && n <= m
    ensures PathsOk(modules, m)
  {
    hide PathOk;
    forall uid | uid in modules ensures PathOk(modules[uid], m) {
      PathLater(modules[uid], n, m);
    }
  }

  /** A move of this call: after an earlier call's event, or right after the birth this call logged. */
  lemma AdvancedPath(r: ModuleRecord, to: LifecycleState, a: RegistryState.Authority, s: Stamp)
    requires PathOk(r, s.sequence + 1) && TransitionAllowed(r.state, to)
    requires PathOk(r, s.sequence) || Birth(r.lifecycle[|r.lifecycle| - 1])
    ensures PathOk(Advanced(r, to, a, s), s.sequence + 1) && to != Discovered
  {
    hide Path, Timed;
    TableShape(r.state, to);
    LogPath(r.lifecycle, EventOf(r.state, to, r.incarnation, a, s));
  }

  lemma CappedPath(r: ModuleRecord, config: Config, n: nat)
    requires PathOk(r, n) && config.maxLifecycleHistory >= 1
    ensures PathOk(Capped(r, config), n) && Capped(r, config).state == r.state
  {
    hide Legal, Follows, InTime;
  }

  lemma NewModulePath(key: Text, uid: nat, a: RegistryState.Authority, s: Stamp)
    ensures var r := NewModule(key, uid, a, s); PathOk(r, s.sequence + 1) && Birth(r.lifecycle[|r.lifecycle| - 1])
  {
  }

  lemma NextIncarnationPath(r: ModuleRecord, a: RegistryState.Authority, s: Stamp)
    requires PathOk(r, s.sequence) && NextIncarnation(r, a, s).Ok?
    ensures var t := NextIncarnation(r, a, s).value;
      PathOk(t, s.sequence + 1) && Birth(t.lifecycle[|t.lifecycle| - 1])
  {
    hide Path, Timed;
    var e := EventOf(Discovered, Discovered, r.incarnation + 1, a, s);
    if Gone(r.state) {
      LogPath(r.lifecycle, e);
    } else {
      var replaced := EventOf(r.state, Replaced, r.incarnation, a, s);
      LogPath(r.lifecycle, replaced);
      LogPath(r.lifecycle + [replaced], e);
    }
  }

  lemma EnsureRegisteredPath(r: ModuleRecord, a: RegistryState.Authority, s: Stamp)
    requires PathOk(r, s.sequence + 1)
    requires r.state == Discovered ==> PathOk(r, s.sequence) || Birth(r.lifecycle[|r.lifecycle| - 1])
    ensures PathOk(EnsureRegistered(r, a, s), s.sequence + 1) && EnsureRegistered(r, a, s).state != Discovered
  {
    hide PathOk, Advanced;
    if r.state == Discovered {
      assert TransitionAllowed(Discovered, Registered);
      AdvancedPath(r, Registered, a, s);
      AdvancedState(r, Registered, a, s);
    }
  }

  lemma AdvancedState(r: ModuleRecord, to: LifecycleState, a: RegistryState.Authority, s: Stamp)
    ensures Advanced(r, to, a, s).state == to
  {
  }

  /** Whatever else changed, the same history at the same state is still a path. */
  lemma SamePath(r: ModuleRecord, t: ModuleRecord, n: nat)
    requires PathOk(r, n) && t.lifecycle == r.lifecycle && t.state == r.state && t.incarnation == r.incarnation
    ensures PathOk(t, n)
  {
    hide Path, Timed;
  }

  lemma PutPath(st: State, modules: map<nat, ModuleRecord>, uid: nat, r: ModuleRecord, n: nat)
    requires PathsOk(st.modules, n) && modules == st.modules[uid := r]
    requires PathOk(r, n + 1) && r.state != Discovered
    ensures PathsOk(modules, n + 1)
  {
    hide PathOk;
    PathsLater(st.modules, n, n + 1);
  }

  lemma MovePath(st: State, uid: nat, to: LifecycleState, a: RegistryState.Authority, config: Config, s: Stamp)
    requires PathsOk(st.modules, s.sequence) && uid in st.modules && TransitionAllowed(st.modules[uid].state, to)
    requires config.maxLifecycleHistory >= 1
    ensures PathsOk(st.modules[uid := Capped(Advanced(st.modules[uid], to, a, s), config)], s.sequence + 1)
  {
    hide Capped, Advanced, PathOk, TransitionAllowed;
    var r := st.modules[uid];
    PathLater(r, s.sequence, s.sequence + 1);
    PathNonempty(r, s.sequence);
    AdvancedPath(r, to, a, s);
    AdvancedState(r, to, a, s);
    CappedPath(Advanced(r, to, a, s), config, s.sequence + 1);
    PutPath(st, st.modules[uid := Capped(Advanced(r, to, a, s), config)], uid, Capped(Advanced(r, to, a, s), config),
            s.sequence);
  }

  lemma PathNonempty(r: ModuleRecord, n: nat)
    requires PathOk(r, n)
    ensures r.lifecycle != []
  {
    hide Path, Timed;
  }

  // ----- Each body -----

  lemma OpenPath(st: State, key: Text, intent: Intent, a: RegistryState.Authority, config: Config, s: Stamp)
    requires PathsOk(st.modules, s.sequence) && OpenModule(st, key, intent, a, config, s).Ok?
    ensures var found := OpenModule(st, key, intent, a, config, s).value;
      && found.uid in found.st.modules && PathOk(found.st.modules[found.uid], s.sequence + 1)
      && forall uid :: uid in found.st.modules && uid != found.uid ==>
           PathOk(found.st.modules[uid], s.sequence + 1) && found.st.modules[uid].state != Discovered
    ensures var found := OpenModule(st, key, intent, a, config, s).value;
      var r := found.st.modules[found.uid];
      r.lifecycle != [] && (r.state == Discovered ==> PathOk(r, s.sequence) || Birth(r.lifecycle[|r.lifecycle| - 1]))
  {
    hide PathOk, NextIncarnation, NewModule, Gone, DetachAll;
    PathsLater(st.modules, s.sequence, s.sequence + 1);
    if key !in st.moduleUidByKey {
      NewModulePath(key, st.nextModuleUid, a, s);
    } else if intent != EnsureCurrent {
      NextIncarnationPath(st.modules[st.moduleUidByKey[key]], a, s);
      PathNonempty(NextIncarnation(st.modules[st.moduleUidByKey[key]], a, s).value, s.sequence + 1);
    } else {
      PathNonempty(st.modules[st.moduleUidByKey[key]], s.sequence);
    }
  }

  lemma RegisterModulePath(st: State, key: Text, identity: seq<IdentityValue>, intent: Intent,
                           a: RegistryState.Authority, config: Config, s: Stamp)
    requires PathsOk(st.modules, s.sequence) && config.maxLifecycleHistory >= 1
    requires RegisterModuleBody(st, key, identity, intent, a, config, s).Ok?
    ensures PathsOk(RegisterModuleBody(st, key, identity, intent, a, config, s).value.modules, s.sequence + 1)
  {
    hide Authorize, OpenModule, EnsureRegistered, IdentityClaims, TrimList, Capped, PathOk;
    OpenPath(st, key, intent, a, config, s);
    var found := OpenModule(st, key, intent, a, config, s).value;
    var t := EnsureRegistered(found.st.modules[found.uid], a, s);
    EnsureRegisteredPath(found.st.modules[found.uid], a, s);
    var stated := t.(claims := t.claims + IdentityClaims(identity, a, t.uid, t.incarnation, s));
    var trimmed := TrimClaims(stated, config).value;
    SamePath(t, trimmed, s.sequence + 1);
    CappedPath(trimmed, config, s.sequence + 1);
  }

  lemma ReconcileTargetLegal(state: LifecycleState, report: Report)
    ensures ReconcileTarget(state, report) == state || TransitionAllowed(state, ReconcileTarget(state, report))
  {
  }

  lemma LatchedPath(r: ModuleRecord, thresholds: seq<Threshold>, x: HealthSample)
    ensures var t := Latched(r, thresholds, x);
      t.lifecycle == r.lifecycle && t.state == r.state && t.incarnation == r.incarnation
  {
  }

  /** A body that rewrites one module without touching its lifecycle. */
  lemma QuietPath(st: State, modules: map<nat, ModuleRecord>, uid: nat, t: ModuleRecord, n: nat)
    requires PathsOk(st.modules, n) && uid in st.modules && modules == st.modules[uid := t]
    requires t.lifecycle == st.modules[uid].lifecycle && t.state == st.modules[uid].state
    requires t.incarnation == st.modules[uid].incarnation
    ensures PathsOk(modules, n + 1)
  {
    hide PathOk;
    SamePath(st.modules[uid], t, n);
    PathLater(t, n, n + 1);
    PutPath(st, modules, uid, t, n);
  }

  lemma HandleBodyPath(st: State, call: Call, config: Config, s: Stamp)
    requires PathsOk(st.modules, s.sequence) && config.maxLifecycleHistory >= 1 && Body(st, call, config, s).Ok?
    requires call.op.UpdateIdentity? || call.op.PublishCapability? || call.op.IngestHealth?
    ensures PathsOk(Body(st, call, config, s).value.modules, s.sequence + 1)
  {
    hide ModuleAt, PathsOk, TrimList, TrimRing, Latched, StoredSample, Replayed, LiveThresholds, NewClaim, Pushed;
    var next := Body(st, call, config, s).value;
    var h := call.op.target;
    ReachedIsAuthorized(st, call.op.authority, h);
    if call.op.IngestHealth? {
      var r := st.modules[h.uid];
      LatchedPath(r, LiveThresholds(st.thresholds), StoredSample(call.op.input, r, call.op.authority, call.clock, s));
    }
    QuietPath(st, next.modules, h.uid, next.modules[h.uid], s.sequence);
  }

  lemma MovingBodyPath(st: State, call: Call, config: Config, s: Stamp)
    requires PathsOk(st.modules, s.sequence) && config.maxLifecycleHistory >= 1 && Body(st, call, config, s).Ok?
    requires call.op.Transition? || call.op.Reconcile? || call.op.Attach?
    ensures PathsOk(Body(st, call, config, s).value.modules, s.sequence + 1)
  {
    hide ModuleAt, PathsOk, Capped, Advanced, TransitionAllowed, ReportOf, EvidenceOf, ReconcileTarget, HeldBy,
         LiveSlots;
    var h := call.op.target;
    ReachedIsAuthorized(st, call.op.authority, h);
    var r := st.modules[h.uid];
    PutSame(st, h.uid);
    PathsLater(st.modules, s.sequence, s.sequence + 1);
    if call.op.Transition? && TransitionAllowed(r.state, call.op.to) {
      MovePath(st, h.uid, call.op.to, call.op.authority, config, s);
    } else if call.op.Reconcile? {
      var target := ReconcileTarget(r.state, ReportOf(EvidenceOf(st, r, config, call.clock.reportWallNs)));
      if target != r.state {
        MovePath(st, h.uid, target, call.op.authority, config, s);
      }
    } else if call.op.Attach? && r.state != Attached && TransitionAllowed(r.state, Attached) {
      MovePath(st, h.uid, Attached, call.op.authority, config, s);
    }
  }

  lemma DetachPath(st: State, a: RegistryState.Authority, slot: Text, config: Config, s: Stamp)
    requires PathsOk(st.modules, s.sequence) && config.maxLifecycleHistory >= 1
             && DetachBody(st, a, slot, config, s).Ok?
    ensures PathsOk(DetachBody(st, a, slot, config, s).value.modules, s.sequence + 1)
  {
    hide PathsOk, Capped, Advanced, TransitionAllowed, Authorize, ImpliesAttachment;
    var uid := st.attachments[slot].uid;
    PathsLater(st.modules, s.sequence, s.sequence + 1);
    if uid in st.modules && TransitionAllowed(st.modules[uid].state, Removed) {
      MovePath(st, uid, Removed, a, config, s);
    }
  }

  lemma BodyPath(st: State, call: Call, config: Config, s: Stamp)
    requires PathsOk(st.modules, s.sequence) && config.maxLifecycleHistory >= 1 && Body(st, call, config, s).Ok?
    ensures PathsOk(Body(st, call, config, s).value.modules, s.sequence + 1)
  {
    hide PathsOk, RegisterModuleBody, UpdateIdentityBody, PublishCapabilityBody, AttachBody, DetachBody, IngestBody,
         TransitionBody, ReconcileBody, Authorize, Retire, BoundHistory, LiveThresholds, PublishOnPort;
    PathsLater(st.modules, s.sequence, s.sequence + 1);
    match call.op
    case RegisterModule(key, identity, intent, _, _, a) => RegisterModulePath(st, key, identity, intent, a, config, s);
    case UpdateIdentity(_, _, _, _) => HandleBodyPath(st, call, config, s);
    case PublishCapability(_, _, _, _, _, _, _) => HandleBodyPath(st, call, config, s);
    case IngestHealth(_, _, _) => HandleBodyPath(st, call, config, s);
    case Attach(_, _, _, _) => MovingBodyPath(st, call, config, s);
    case Transition(_, _, _, _) => MovingBodyPath(st, call, config, s);
    case Reconcile(_, _) => MovingBodyPath(st, call, config, s);
    case Detach(a, slot) => DetachPath(st, a, slot, config, s);
    case RegisterSource(_, _, _) =>
    case PublishPortCapability(_, _, _, _, _, _, _) =>
    case PublishThreshold(_, _) =>
    case PublishRule(_, _, _) =>
    case RetireRule(_, _) =>
  }

  /** Along every run, from an empty registry or any other whose histories are paths, every retained history is a path
      that ends at the stored state. */
  lemma {:induction false} HistoryIsAPath(st: State, calls: seq<Call>, config: Config)
    requires PathsOk(st.modules, st.nextSequence) && config.maxLifecycleHistory >= 1
    ensures var next := RunCalls(st, calls, config); PathsOk(next.modules, next.nextSequence)
  {
    hide PathsOk, Body, Attempt;
    if calls != [] {
      var before := RunCalls(st, calls[..|calls| - 1], config);
      var call := calls[|calls| - 1];
      HistoryIsAPath(st, calls[..|calls| - 1], config);
      if Attempt(before, call, config).Ok? {
        CommitParts(before, call, config);
        CommitAdvances(before, call, config);
        BodyPath(before.(nextSequence := before.nextSequence + 1), call, config, StampOf(before, call));
      }
    }
  }

  lemma NoPaths()
    ensures PathsOk(EMPTY_STATE.modules, EMPTY_STATE.nextSequence)
  {
  }

  /** Inside one incarnation nothing follows retirement. */
  lemma RetiredIsFinal(events: seq<LifecycleEvent>, i: nat)
    requires Path(events) && 0 < i < |events| && events[i - 1].to == Retired
    ensures events[i - 1].incarnation < events[i].incarnation && Birth(events[i])
  {
    assert Legal(events[i]) && Follows(events[i - 1], events[i]);
    if events[i].from == Retired {
      TableShape(Retired, events[i].to);
    }
  }

  // ----- Branches nothing reaches -----

  lemma HandleNeverInternal(st: State, a: RegistryState.Authority, h: Handle)
    ensures ModuleAt(st, a, h) != Err(Internal) && ModuleAt(st, a, h) != Err(InvalidTransition)
  {
  }

  lemma ShrinkError<V>(kind: ClaimKind, s: seq<Consensus.Claim<V>>, maxTotal: nat)
    ensures Shrink(kind, s, maxTotal).Err? ==> Shrink(kind, s, maxTotal) == Err(CapacityExceeded)
    decreases |s|
  {
    hide IsSuperseded;
    if |s| > maxTotal && FirstSuperseded(kind, s, 0) < |s| {
      ShrinkError(kind, Erase(s, FirstSuperseded(kind, s, 0)), maxTotal);
    }
  }

  lemma RegistrationNeverInternal(st: State, key: Text, identity: seq<IdentityValue>, intent: Intent,
                                  a: RegistryState.Authority, config: Config, s: Stamp)
    requires Inv(st, s.sequence)
    ensures RegisterModuleBody(st, key, identity, intent, a, config, s) != Err(Internal)
  {
    hide Inv, Authorize, EnsureRegistered, IdentityClaims, Shrink, KeepRecent, Capped, Gone, NewModule, DetachAll,
         RecordOk;
    assert Authorize(st, a) != Err(Internal) by { AuthorityErrors(st, a); }
    if key in st.moduleUidByKey {
      ModuleFound(st, key, s.sequence);
    }
    if Authorize(st, a).Ok? && OpenModule(st, key, intent, a, config, s).Ok? {
      OpenKeeps(st, key, intent, a, config, s);
      var found := OpenModule(st, key, intent, a, config, s).value;
      var r := EnsureRegistered(found.st.modules[found.uid], a, s);
      ShrinkError(OfIdentity, r.claims + IdentityClaims(identity, a, r.uid, r.incarnation, s),
                  config.maxClaimsPerModule);
    }
  }

  lemma AuthorityErrors(st: State, a: RegistryState.Authority)
    ensures Authorize(st, a) != Err(Internal) && Authorize(st, a) != Err(InvalidTransition)
  {
  }

  /** A missing index target and an unmovable attached module, which the code reports as internal, never occur. */
  lemma NeverInternal(st: State, call: Call, config: Config, s: Stamp)
    requires Inv(st, s.sequence)
    ensures Body(st, call, config, s) != Err(Internal)
  {
    hide Inv, RegisterModuleBody, ModuleAt, Authorize, Shrink, KeepRecent, TransitionAllowed, ImpliesAttachment, Retire,
         BoundHistory, LiveThresholds, Replayed, StoredSample, Latched, TrimRing, ReportOf, EvidenceOf, ReconcileTarget,
         Advanced, Capped, NewClaim, Pushed, HeldBy, LiveSlots, OneBelow;
    match call.op
    case RegisterSource(name, _, _) =>
      if name in st.sourceIdByName { SourceFound(st, name, s.sequence); }
    case RegisterModule(key, identity, intent, _, _, a) =>
      RegistrationNeverInternal(st, key, identity, intent, a, config, s);
    case UpdateIdentity(a, h, v, _) =>
      HandleNeverInternal(st, a, h);
      if ModuleAt(st, a, h).Ok? {
        var r := ModuleAt(st, a, h).value;
        ShrinkError(OfIdentity, r.claims + [NewClaim(v.attr, v.subkey, v.value, a, r.uid, r.incarnation, [], s)],
                    config.maxClaimsPerModule);
      }
    case PublishCapability(a, h, key, subkey, value, _, _) =>
      HandleNeverInternal(st, a, h);
      if ModuleAt(st, a, h).Ok? {
        var r := ModuleAt(st, a, h).value;
        ShrinkError(OfModule, r.declarations + [NewClaim(key, subkey, value, a, r.uid, r.incarnation, [], s)],
                    config.maxDeclarationsPerModule);
      }
    case PublishPortCapability(a, port, key, subkey, value, _, _) =>
      AuthorityErrors(st, a);
      var r := if port in st.ports then st.ports[port] else PortRecord(port, s.generation, s.sequence, s.now, []);
      PortNeverInternal(r.declarations, NewClaim(key, subkey, value, a, 0, 0, port, s), config.maxDeclarationsPerPort);
    case Attach(a, h, _, _) => HandleNeverInternal(st, a, h);
    case Detach(a, slot) =>
      AuthorityErrors(st, a);
      if slot in st.attachments && st.attachments[slot].uid in st.modules {
        TableShape(st.modules[st.attachments[slot].uid].state, Removed);
      }
    case IngestHealth(a, h, _) => HandleNeverInternal(st, a, h);
    case PublishThreshold(a, _) => AuthorityErrors(st, a);
    case PublishRule(a, _, _) => AuthorityErrors(st, a);
    case RetireRule(a, _) => AuthorityErrors(st, a);
    case Transition(a, h, _, _) => HandleNeverInternal(st, a, h);
    case Reconcile(a, h) => HandleNeverInternal(st, a, h);
  }

  lemma PortNeverInternal(s: seq<Declaration>, d: Declaration, max: U32)
    ensures PublishOnPort(s, d, max) != Err(Internal)
  {
    hide Shrink, OneBelow;
    ShrinkError(OfPort, s, OneBelow(max));
    var room := if |s| >= max then Shrink(OfPort, s, OneBelow(max)) else Ok(s);
    if room.Ok? {
      ShrinkError(OfPort, room.value + [d], max);
    }
  }

  /** Reconciliation never asks for an illegal move. */
  lemma ReconcileNeverIllegal(st: State, a: RegistryState.Authority, h: Handle, config: Config, clock: Clock, s: Stamp)
    ensures ReconcileBody(st, a, h, config, clock, s) != Err(InvalidTransition)
  {
    hide ModuleAt, TransitionAllowed, ReportOf, EvidenceOf, ReconcileTarget;
    HandleNeverInternal(st, a, h);
    if ModuleAt(st, a, h).Ok? {
      var r := ModuleAt(st, a, h).value;
      ReconcileTargetLegal(r.state, ReportOf(EvidenceOf(st, r, config, clock.reportWallNs)));
    }
  }
}
