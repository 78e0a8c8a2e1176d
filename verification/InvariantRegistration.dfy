/** Module registration keeps the invariant, and with it every whole call. */
module InvariantRegistration {
  import opened Bytes
  import opened Ordering
  import A = Authority
  import opened Consensus
  import opened Lifecycle
  import opened Latch
  import opened Health
  import opened HealthReport
  import opened Trim
  import opened Samples
  import opened RegistryState
  import opened Validation
  import opened Mutations
  import opened RegistryInvariant
  import opened InvariantSteps

  lemma NewModuleOk(key: Text, uid: nat, a: RegistryState.Authority, s: Stamp, e: map<nat, nat>)
    requires Known(e, a.source, a.epoch, s.sequence, s.sequence + 1)
    ensures RecordOk(NewModule(key, uid, a, s), uid, e, s.sequence + 1)
  {
  }

  lemma AddModuleKeeps(st: State, r: ModuleRecord, n: nat)
    requires Inv(st, n) && r.uid == st.nextModuleUid && r.key !in st.moduleUidByKey
    requires RecordOk(r, r.uid, Epochs(st.sources), n)
    ensures r.uid !in st.modules
    ensures Inv(st.(nextModuleUid := r.uid + 1, modules := st.modules[r.uid := r],
                    moduleUidByKey := st.moduleUidByKey[r.key := r.uid]), n)
  {
    hide RecordOk, PortsOk, ThresholdsOk, RulesOk, SourcesOk;
  }

  lemma NextIncarnationOk(r: ModuleRecord, a: RegistryState.Authority, s: Stamp, uid: nat, e: map<nat, nat>)
    requires RecordOk(r, uid, e, s.sequence) && Known(e, a.source, a.epoch, s.sequence, s.sequence + 1)
    requires NextIncarnation(r, a, s).Ok?
    ensures var next := NextIncarnation(r, a, s).value;
      && RecordOk(next, uid, e, s.sequence + 1)
      && ClaimsOk(next.claims, uid, next.incarnation, [], e, s.sequence)
      && next.incarnation == r.incarnation + 1 && next.key == r.key
  {
    hide RecordOk, ClaimsOk, SamplesOk, EventsOk, Known;
    var q := s.sequence;
    var next := NextIncarnation(r, a, s).value;
    var i := r.incarnation;
    OwnLists(r, uid, e, q);
    LaterSelf(e);
    ClaimsLater(r.claims, uid, i, i + 1, [], e, e, q, q);
    ClaimsLater(r.claims, uid, i, i + 1, [], e, e, q, q + 1);
    ClaimsLater(r.declarations, uid, i, i + 1, [], e, e, q, q + 1);
    SamplesLater(r.samples, uid, i, i + 1, e, q, q + 1);
    EventsLater(r.lifecycle, i, i, e, q, q + 1);
    if !Gone(r.state) {
      EventOfOk(r.state, Replaced, i, i, a, s, r.lifecycle, e);
      EventOfOk(Discovered, Discovered, i, i + 1, a, s, r.lifecycle + [EventOf(r.state, Replaced, i, a, s)], e);
    } else {
      EventOfOk(Discovered, Discovered, i, i + 1, a, s, r.lifecycle, e);
    }
    RecordFromLists(next, uid, e, q + 1);
  }

  lemma SamplesLater(x: seq<HealthSample>, uid: nat, i: nat, j: nat, e: map<nat, nat>, n: nat, m: nat)
    requires SamplesOk(x, uid, i, e, n) && i <= j && n <= m
    ensures SamplesOk(x, uid, j, e, m)
  {
  }

  lemma EventsLater(x: seq<LifecycleEvent>, i: nat, j: nat, e: map<nat, nat>, n: nat, m: nat)
    requires EventsOk(x, i, e, n) && i <= j && n <= m
    ensures EventsOk(x, j, e, m)
  {
  }

  lemma RecordFromLists(r: ModuleRecord, uid: nat, e: map<nat, nat>, n: nat)
    requires r.uid == uid && r.incarnation >= 1
    requires ClaimsOk(r.claims, uid, r.incarnation, [], e, n)
    requires ClaimsOk(r.declarations, uid, r.incarnation, [], e, n)
    requires SamplesOk(r.samples, uid, r.incarnation, e, n)
    requires EventsOk(r.lifecycle, r.incarnation, e, n)
    ensures RecordOk(r, uid, e, n)
  {
    hide ClaimsOk, SamplesOk, EventsOk;
  }

  lemma DetachAllKeeps(st: State, uid: nat, n: nat)
    requires Inv(st, n)
    ensures Inv(st.(attachments := DetachAll(st.attachments, uid)), n)
  {
    hide RecordsOk, PortsOk, ThresholdsOk, RulesOk, SourcesOk, ModuleIndexOk, Known;
  }

  lemma ModuleFound(st: State, key: Text, n: nat)
    requires Inv(st, n) && key in st.moduleUidByKey
    ensures st.moduleUidByKey[key] in st.modules
    ensures RecordOk(st.modules[st.moduleUidByKey[key]], st.moduleUidByKey[key], Epochs(st.sources), n)
    ensures st.modules[st.moduleUidByKey[key]].key == key
  {
    hide RecordOk, PortsOk, ThresholdsOk, RulesOk, SourcesOk;
  }

  /** After the module is found, made, or re-made, its claims are still all older than this call. */
  lemma OpenKeeps(st: State, key: Text, intent: Intent, a: RegistryState.Authority, config: Config, s: Stamp)
    requires Inv(st, s.sequence) && Authorize(st, a).Ok? && OpenModule(st, key, intent, a, config, s).Ok?
    ensures var found := OpenModule(st, key, intent, a, config, s).value;
      && Inv(found.st, s.sequence + 1) && found.uid in found.st.modules
      && found.st.sources == st.sources
      && ClaimsOk(found.st.modules[found.uid].claims, found.uid, found.st.modules[found.uid].incarnation, [],
                  Epochs(st.sources), s.sequence)
  {
    hide Inv, RecordOk, ClaimsOk, Known, Authorize, NextIncarnation, NewModule, DetachAll, Gone;
    var q, e := s.sequence, Epochs(st.sources);
    InvLater(st, q, q + 1);
    KnownAuthority(st, a, q, q + 1);
    if key !in st.moduleUidByKey {
      var r := NewModule(key, st.nextModuleUid, a, s);
      NewModuleOk(key, st.nextModuleUid, a, s, e);
      NewModuleFacts(key, st.nextModuleUid, a, s);
      AddModuleKeeps(st, r, q + 1);
      NothingOk<Text>(r.uid, r.incarnation, [], e, q);
    } else {
      var uid := st.moduleUidByKey[key];
      ModuleFound(st, key, q);
      var r := st.modules[uid];
      OwnLists(r, uid, e, q);
      if intent != EnsureCurrent {
        NextIncarnationOk(r, a, s, uid, e);
        var next := NextIncarnation(r, a, s).value;
        PutKeeps(st, uid, next, q + 1);
        if !Gone(r.state) {
          DetachAllKeeps(PutModule(st, uid, next), r.uid, q + 1);
        }
      }
    }
  }

  lemma NewModuleFacts(key: Text, uid: nat, a: RegistryState.Authority, s: Stamp)
    ensures NewModule(key, uid, a, s).uid == uid && NewModule(key, uid, a, s).key == key
    ensures NewModule(key, uid, a, s).claims == []
  {
  }

  /** The claims of one registration share a sequence but never an attribute. */
  lemma PushAllOk(s: seq<IdentityClaim>, identity: seq<IdentityValue>, a: RegistryState.Authority, uid: nat,
                  incarnation: nat, stamp: Stamp, e: map<nat, nat>)
    requires ClaimsOk(s, uid, incarnation, [], e, stamp.sequence) && NoRepeats(identity)
    requires Known(e, a.source, a.epoch, stamp.sequence, stamp.sequence + 1)
    ensures ClaimsOk(s + IdentityClaims(identity, a, uid, incarnation, stamp), uid, incarnation, [], e,
                     stamp.sequence + 1)
  {
    var added := IdentityClaims(identity, a, uid, incarnation, stamp);
    var t := s + added;
    hide IdentityClaims;
    AddedFacts(identity, a, uid, incarnation, stamp, e);
    forall c | c in t ensures ClaimOk(c, uid, incarnation, [], e, stamp.sequence + 1) {}
    hide ClaimOk;
    forall i, j | 0 <= i < j < |t|
      ensures t[i].sequence <= t[j].sequence && t[i].incarnation <= t[j].incarnation
      ensures t[i].sequence == t[j].sequence ==> KeyOf(t[i]) != KeyOf(t[j]) && t[i].incarnation == t[j].incarnation
    {
      if i < |s| {
        OldBelow(s, i, uid, incarnation, e, stamp.sequence);
        if j < |s| {
          assert t[i] == s[i] && t[j] == s[j];
        }
      }
    }
  }

  lemma OldBelow(s: seq<IdentityClaim>, i: nat, uid: nat, incarnation: nat, e: map<nat, nat>, q: nat)
    requires ClaimsOk(s, uid, incarnation, [], e, q) && i < |s|
    ensures s[i].sequence < q && s[i].incarnation <= incarnation
  {
    assert s[i] in s;
  }

  lemma AddedFacts(identity: seq<IdentityValue>, a: RegistryState.Authority, uid: nat, incarnation: nat, stamp: Stamp,
                   e: map<nat, nat>)
    requires NoRepeats(identity) && Known(e, a.source, a.epoch, stamp.sequence, stamp.sequence + 1)
    ensures var added := IdentityClaims(identity, a, uid, incarnation, stamp);
      && (forall c :: c in added ==> ClaimOk(c, uid, incarnation, [], e, stamp.sequence + 1)
                                     && c.sequence == stamp.sequence && c.incarnation == incarnation)
      && (forall i :: 0 <= i < |added| ==> added[i].sequence == stamp.sequence && added[i].incarnation == incarnation)
      && (forall i, j :: 0 <= i < j < |added| ==> KeyOf(added[i]) != KeyOf(added[j]))
  {
  }

  lemma EnsureRegisteredOk(r: ModuleRecord, a: RegistryState.Authority, s: Stamp, uid: nat, e: map<nat, nat>)
    requires RecordOk(r, uid, e, s.sequence + 1) && Known(e, a.source, a.epoch, s.sequence, s.sequence + 1)
    ensures var t := EnsureRegistered(r, a, s);
      RecordOk(t, uid, e, s.sequence + 1) && t.incarnation == r.incarnation && t.key == r.key && t.claims == r.claims
  {
    hide RecordOk, Known;
    MovedOk(r, Registered, a, s, uid, e);
  }

  lemma StateClaims(r: ModuleRecord, identity: seq<IdentityValue>, a: RegistryState.Authority, config: Config, s: Stamp,
                    uid: nat, e: map<nat, nat>)
    requires RecordOk(r, uid, e, s.sequence + 1) && ClaimsOk(r.claims, uid, r.incarnation, [], e, s.sequence)
    requires NoRepeats(identity) && Known(e, a.source, a.epoch, s.sequence, s.sequence + 1)
    requires var stated := r.(claims := r.claims + IdentityClaims(identity, a, r.uid, r.incarnation, s));
      TrimClaims(stated, config).Ok?
    ensures var stated := r.(claims := r.claims + IdentityClaims(identity, a, r.uid, r.incarnation, s));
      var t := TrimClaims(stated, config).value;
      RecordOk(t, uid, e, s.sequence + 1) && t.incarnation == r.incarnation && t.key == r.key
  {
    hide RecordOk, ClaimsOk, IdentityClaims, TrimList, Known, NoRepeats;
    OwnUid(r, uid, e, s.sequence + 1);
    PushAllOk(r.claims, identity, a, uid, r.incarnation, s, e);
    var all := r.claims + IdentityClaims(identity, a, uid, r.incarnation, s);
    TrimListOk(OfIdentity, all, config.maxClaimsPerModule, config.maxClaimHistory, uid, r.incarnation, [], e,
               s.sequence + 1);
    RecordWithClaims(r, TrimList(OfIdentity, all, config.maxClaimsPerModule, config.maxClaimHistory).value, uid, e,
                     s.sequence + 1);
  }

  lemma RegisterModuleKeeps(st: State, key: Text, identity: seq<IdentityValue>, intent: Intent,
                            a: RegistryState.Authority, config: Config, s: Stamp)
    requires Inv(st, s.sequence) && NoRepeats(identity)
    requires RegisterModuleBody(st, key, identity, intent, a, config, s).Ok?
    ensures Inv(RegisterModuleBody(st, key, identity, intent, a, config, s).value, s.sequence + 1)
  {
    hide Inv, Authorize, OpenModule, RecordOk, ClaimsOk, Known, EnsureRegistered, IdentityClaims, TrimClaims, Capped,
         NoRepeats, PutModule;
    var q, e := s.sequence, Epochs(st.sources);
    KnownAuthority(st, a, q, q + 1);
    OpenKeeps(st, key, intent, a, config, s);
    var found := OpenModule(st, key, intent, a, config, s).value;
    var r := found.st.modules[found.uid];
    RecordAt(found.st, found.uid, q + 1);
    EnsureRegisteredOk(r, a, s, found.uid, e);
    var t := EnsureRegistered(r, a, s);
    StateClaims(t, identity, a, config, s, found.uid, e);
    var trimmed := TrimClaims(t.(claims := t.claims + IdentityClaims(identity, a, t.uid, t.incarnation, s)),
                              config).value;
    CappedOk(trimmed, config, found.uid, e, q + 1);
    PutKeeps(found.st, found.uid, Capped(trimmed, config), q + 1);
  }

  // ----- Whole calls -----

  lemma ChecksNoRepeats(call: Call, config: Config)
    requires CheckCall(call.op, config, call.clock.wallNs).Ok? && call.op.RegisterModule?
    ensures NoRepeats(call.op.identity)
  {
    hide CheckIdentity, CheckProvenance;
  }

  lemma BodyKeeps(st: State, call: Call, config: Config, s: Stamp)
    requires Inv(st, s.sequence) && Body(st, call, config, s).Ok?
    requires CheckCall(call.op, config, call.clock.wallNs).Ok?
    ensures Inv(Body(st, call, config, s).value, s.sequence + 1)
  {
    hide Inv, RegisterSourceBody, RegisterModuleBody, UpdateIdentityBody, PublishCapabilityBody,
         PublishPortCapabilityBody, AttachBody, DetachBody, IngestBody, PublishThresholdBody, PublishRuleBody,
         RetireRuleBody, TransitionBody, ReconcileBody, CheckCall, NoRepeats;
    match call.op
    case RegisterSource(name, instanceId, description) =>
      RegisterSourceKeeps(st, name, instanceId, description, config, s);
    case RegisterModule(key, identity, intent, _, _, a) =>
      ChecksNoRepeats(call, config);
      RegisterModuleKeeps(st, key, identity, intent, a, config, s);
    case UpdateIdentity(a, h, v, _) => UpdateIdentityKeeps(st, a, h, v, config, s);
    case PublishCapability(a, h, key, subkey, value, _, _) =>
      PublishCapabilityKeeps(st, a, h, key, subkey, value, config, s);
    case PublishPortCapability(a, port, key, subkey, value, _, _) =>
      PublishPortKeeps(st, a, port, key, subkey, value, config, s);
    case Attach(a, h, slot, portIndex) => AttachKeeps(st, a, h, slot, portIndex, config, s);
    case Detach(a, slot) => DetachKeeps(st, a, slot, config, s);
    case IngestHealth(a, h, input) => IngestKeeps(st, a, h, input, config, call.clock, s);
    case PublishThreshold(a, t) => PublishThresholdKeeps(st, a, t, config, s);
    case PublishRule(a, rule, _) => PublishRuleKeeps(st, a, rule, config, s);
    case RetireRule(a, id) => RetireRuleKeeps(st, a, id, s);
    case Transition(a, h, to, _) => TransitionKeeps(st, a, h, to, config, s);
    case Reconcile(a, h) => ReconcileKeeps(st, a, h, config, call.clock, s);
  }
}
