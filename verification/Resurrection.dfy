/** What stopped counting never counts again: no later state makes dead evidence or a retired token live. */
module Resurrection {
  import opened Bytes
  import opened Ordering
  import A = Authority
  import opened Consensus
  import opened Capability
  import opened Lifecycle
  import opened Latch
  import opened Health
  import opened HealthReport
  import opened Trim
  import opened Samples
  import opened RegistryState
  import opened Validation
  import opened Mutations
  import opened RegistryInvariant
  import opened InvariantSteps
  import opened InvariantRegistration
  import opened Runs

  // ----- How one call may change the lists -----

  /** Only entries of this call are new, and what was shadowed stays shadowed while it is stored. */
  ghost predicate ListStep<V>(kind: ClaimKind, before: seq<Claim<V>>, after: seq<Claim<V>>, q: nat) {
    forall c :: c in after ==>
      c.sequence == q || (c in before && (Shadowed(kind, before, c) ==> Shadowed(kind, after, c)))
  }

  ghost predicate SampleStep(before: seq<HealthSample>, after: seq<HealthSample>, q: nat) {
    forall x :: x in after ==> x.sequence == q || x in before
  }

  ghost predicate RecordStep(before: ModuleRecord, after: ModuleRecord, q: nat) {
    && before.incarnation <= after.incarnation
    && ListStep(OfIdentity, before.claims, after.claims, q)
    && ListStep(OfModule, before.declarations, after.declarations, q)
    && SampleStep(before.samples, after.samples, q)
  }

  ghost predicate ModulesStep(before: map<nat, ModuleRecord>, after: map<nat, ModuleRecord>, q: nat) {
    && (forall uid :: uid in before ==> uid in after && RecordStep(before[uid], after[uid], q))
    && (forall uid :: uid in after && uid !in before ==>
          && ListStep(OfIdentity, [], after[uid].claims, q) && ListStep(OfModule, [], after[uid].declarations, q)
          && SampleStep([], after[uid].samples, q))
  }

  ghost predicate PortsStep(before: map<Text, PortRecord>, after: map<Text, PortRecord>, q: nat) {
    && (forall port :: port in before ==>
          port in after && ListStep(OfPort, before[port].declarations, after[port].declarations, q))
    && (forall port :: port in after && port !in before ==> ListStep(OfPort, [], after[port].declarations, q))
  }

  ghost predicate StepOk(st: State, next: State, q: nat) {
    && Later(Epochs(st.sources), Epochs(next.sources))
    && ModulesStep(st.modules, next.modules, q)
    && PortsStep(st.ports, next.ports, q)
  }

  lemma RecordStepSelf(r: ModuleRecord, q: nat)
    ensures RecordStep(r, r, q)
  {
    hide Shadowed;
  }

  lemma SameTables(st: State, next: State, q: nat)
    requires next.sources == st.sources && next.modules == st.modules && next.ports == st.ports
    ensures StepOk(st, next, q)
  {
    hide RecordStep, Shadowed;
    forall uid | uid in st.modules ensures RecordStep(st.modules[uid], next.modules[uid], q) {
      RecordStepSelf(st.modules[uid], q);
    }
  }

  lemma PutStep(st: State, next: State, uid: nat, r: ModuleRecord, q: nat)
    requires uid in st.modules && RecordStep(st.modules[uid], r, q)
    requires next.sources == st.sources && next.modules == st.modules[uid := r] && next.ports == st.ports
    ensures StepOk(st, next, q)
  {
    hide RecordStep, Shadowed;
    forall u | u in st.modules ensures RecordStep(st.modules[u], next.modules[u], q) {
      RecordStepSelf(st.modules[u], q);
    }
  }

  /** A record whose evidence lists are untouched. */
  lemma SameLists(before: ModuleRecord, after: ModuleRecord, q: nat)
    requires before.incarnation <= after.incarnation && after.claims == before.claims
    requires after.declarations == before.declarations && after.samples == before.samples
    ensures RecordStep(before, after, q)
  {
    hide Shadowed;
  }

  // ----- Trimming after an append -----

  lemma TrimKeepsShadow<V(!new)>(kind: ClaimKind, s: seq<Claim<V>>, maxTotal: nat, maxHistory: nat, c: Claim<V>)
    requires OneSubject(kind, s) && TrimList(kind, s, maxTotal, maxHistory).Ok?
    requires c in TrimList(kind, s, maxTotal, maxHistory).value
    ensures c in s
    ensures Shadowed(kind, TrimList(kind, s, maxTotal, maxHistory).value, c) <==> Shadowed(kind, s, c)
  {
    hide Shrink, OneSubject, Shadowed, KeepRecent;
    var r := Shrink(kind, s, maxTotal).value;
    ShrinkFaithful(kind, s, maxTotal, 0);
    RecentKeepsShadow(kind, r, maxHistory, c);
    KeepRecentSubsequence(r, maxHistory);
    SubsequenceTidy(kind, KeepRecent(r, maxHistory), r);
    FaithfulIsSubsequence(kind, s, r, 0);
    SubsequenceTidy(kind, r, s);
    assert c in r;
  }

  lemma AppendShadows<V>(kind: ClaimKind, s: seq<Claim<V>>, added: seq<Claim<V>>, c: Claim<V>)
    requires Shadowed(kind, s, c)
    ensures Shadowed(kind, s + added, c)
  {
    var j :| 0 <= j < |s| && Shadows(kind, s[j], c);
    assert (s + added)[j] == s[j];
  }

  lemma AppendTrimStep<V(!new)>(kind: ClaimKind, s: seq<Claim<V>>, added: seq<Claim<V>>, maxTotal: nat, maxHistory: nat,
                                q: nat)
    requires OneSubject(kind, s + added) && TrimList(kind, s + added, maxTotal, maxHistory).Ok?
    requires forall c :: c in added ==> c.sequence == q
    ensures ListStep(kind, s, TrimList(kind, s + added, maxTotal, maxHistory).value, q)
  {
    hide TrimList, OneSubject, Shadowed;
    var after := TrimList(kind, s + added, maxTotal, maxHistory).value;
    forall c | c in after && c.sequence != q
      ensures c in s && (Shadowed(kind, s, c) ==> Shadowed(kind, after, c))
    {
      TrimKeepsShadow(kind, s + added, maxTotal, maxHistory, c);
      if Shadowed(kind, s, c) {
        AppendShadows(kind, s, added, c);
      }
    }
  }

  lemma ShrinkKeepsShadow(s: seq<Declaration>, maxTotal: nat, c: Declaration)
    requires OneSubject(OfPort, s) && Shrink(OfPort, s, maxTotal).Ok?
    requires c in Shrink(OfPort, s, maxTotal).value
    ensures c in s
    ensures Shadowed(OfPort, Shrink(OfPort, s, maxTotal).value, c) <==> Shadowed(OfPort, s, c)
  {
    hide Shrink, OneSubject, Shadowed;
    ShrinkFaithful(OfPort, s, maxTotal, 0);
    FaithfulIsSubsequence(OfPort, s, Shrink(OfPort, s, maxTotal).value, 0);
    SubsequenceTidy(OfPort, Shrink(OfPort, s, maxTotal).value, s);
  }

  // ----- Each body -----

  lemma UpdateIdentityStep(st: State, a: RegistryState.Authority, h: Handle, v: IdentityValue, config: Config, s: Stamp)
    requires Inv(st, s.sequence) && UpdateIdentityBody(st, a, h, v, config, s).Ok?
    ensures StepOk(st, UpdateIdentityBody(st, a, h, v, config, s).value, s.sequence)
  {
    hide ModuleAt, Inv, RecordOk, ClaimsOk, ClaimOk, Known, NewClaim, TrimList, ListStep, OneSubject, StepOk;
    var q, e := s.sequence, Epochs(st.sources);
    ReachedModule(st, a, h, q);
    var r := st.modules[h.uid];
    OwnLists(r, h.uid, e, q);
    var c := NewClaim(v.attr, v.subkey, v.value, a, r.uid, r.incarnation, [], s);
    NewClaimOk(v.attr, v.subkey, v.value, a, r.uid, r.incarnation, [], s, e);
    PushOk(r.claims, c, h.uid, r.incarnation, [], e, q);
    ListsAreTrimmable(OfIdentity, r.claims + [c], h.uid, r.incarnation, [], e, q + 1);
    AppendTrimStep(OfIdentity, r.claims, [c], config.maxClaimsPerModule, config.maxClaimHistory, q);
    var claims := TrimList(OfIdentity, r.claims + [c], config.maxClaimsPerModule, config.maxClaimHistory).value;
    RecordStepSelf(r, q);
    PutStep(st, PutModule(st, h.uid, r.(claims := claims)), h.uid, r.(claims := claims), q);
  }

  lemma PublishCapabilityStep(st: State, a: RegistryState.Authority, h: Handle, key: nat, subkey: Text,
                              value: CapabilityValue, config: Config, s: Stamp)
    requires Inv(st, s.sequence) && PublishCapabilityBody(st, a, h, key, subkey, value, config, s).Ok?
    ensures StepOk(st, PublishCapabilityBody(st, a, h, key, subkey, value, config, s).value, s.sequence)
  {
    hide ModuleAt, Inv, RecordOk, ClaimsOk, ClaimOk, Known, NewClaim, TrimList, ListStep, OneSubject, StepOk;
    var q, e := s.sequence, Epochs(st.sources);
    ReachedModule(st, a, h, q);
    var r := st.modules[h.uid];
    OwnLists(r, h.uid, e, q);
    var d := NewClaim(key, subkey, value, a, r.uid, r.incarnation, [], s);
    NewClaimOk(key, subkey, value, a, r.uid, r.incarnation, [], s, e);
    PushOk(r.declarations, d, h.uid, r.incarnation, [], e, q);
    var all := r.declarations + [d];
    ListsAreTrimmable(OfModule, all, h.uid, r.incarnation, [], e, q + 1);
    AppendTrimStep(OfModule, r.declarations, [d], config.maxDeclarationsPerModule, config.maxClaimHistory, q);
    var kept := TrimList(OfModule, all, config.maxDeclarationsPerModule, config.maxClaimHistory).value;
    RecordStepSelf(r, q);
    PutStep(st, PutModule(st, h.uid, r.(declarations := kept)), h.uid, r.(declarations := kept), q);
  }

  lemma PublishOnPortStep(s: seq<Declaration>, d: Declaration, max: U32, port: Text, e: map<nat, nat>, q: nat)
    requires ClaimsOk(s, 0, 0, port, e, q)
    requires ClaimOk(d, 0, 0, port, e, q + 1) && d.sequence == q && d.incarnation == 0
    requires PublishOnPort(s, d, max).Ok?
    ensures ListStep(OfPort, s, PublishOnPort(s, d, max).value, q)
  {
    hide ClaimsOk, ClaimOk, Shrink, OneBelow, OneSubject, Shadowed;
    var room := if |s| >= max then Shrink(OfPort, s, OneBelow(max)).value else s;
    ListsAreTrimmable(OfPort, s, 0, 0, port, e, q);
    if |s| >= max {
      ShrinkOk(s, OneBelow(max), port, e, q);
    }
    PushOk(room, d, 0, 0, port, e, q);
    ListsAreTrimmable(OfPort, room + [d], 0, 0, port, e, q + 1);
    var after := Shrink(OfPort, room + [d], max).value;
    forall c | c in after && c.sequence != q
      ensures c in s && (Shadowed(OfPort, s, c) ==> Shadowed(OfPort, after, c))
    {
      ShrinkKeepsShadow(room + [d], max, c);
      assert c in room;
      if |s| >= max {
        ShrinkKeepsShadow(s, OneBelow(max), c);
      }
      if Shadowed(OfPort, room, c) {
        AppendShadows(OfPort, room, [d], c);
      }
    }
  }

  lemma PublishPortStep(st: State, a: RegistryState.Authority, port: Text, key: nat, subkey: Text,
                        value: CapabilityValue, config: Config, s: Stamp)
    requires Inv(st, s.sequence) && PublishPortCapabilityBody(st, a, port, key, subkey, value, config, s).Ok?
    ensures StepOk(st, PublishPortCapabilityBody(st, a, port, key, subkey, value, config, s).value, s.sequence)
  {
    hide Authorize, Inv, ClaimsOk, ClaimOk, Known, NewClaim, PublishOnPort, ListStep, StepOk;
    var q, e := s.sequence, Epochs(st.sources);
    var next := PublishPortCapabilityBody(st, a, port, key, subkey, value, config, s).value;
    KnownAuthority(st, a, q, q + 1);
    var r := if port in st.ports then st.ports[port] else PortRecord(port, s.generation, s.sequence, s.now, []);
    if port in st.ports {
      PortAt(st, port, q);
    } else {
      NothingOk<CapabilityValue>(0, 0, port, e, q);
    }
    var d := NewClaim(key, subkey, value, a, 0, 0, port, s);
    NewClaimOk(key, subkey, value, a, 0, 0, port, s, e);
    PublishOnPortStep(r.declarations, d, config.maxDeclarationsPerPort, port, e, q);
    var kept := PublishOnPort(r.declarations, d, config.maxDeclarationsPerPort).value;
    SameTables(st, st, q);
    OnePortStep(st, next, port, r.(declarations := kept), q);
  }

  lemma OnePortStep(st: State, next: State, port: Text, r: PortRecord, q: nat)
    requires StepOk(st, st, q) && next == st.(ports := st.ports[port := r])
    requires ListStep(OfPort, if port in st.ports then st.ports[port].declarations else [], r.declarations, q)
    ensures StepOk(st, next, q)
  {
    hide ListStep, ModulesStep, Later;
  }

  lemma RegisterSourceStep(st: State, name: Text, instanceId: Text, description: Text, config: Config, s: Stamp)
    requires Inv(st, s.sequence) && RegisterSourceBody(st, name, instanceId, description, config, s).Ok?
    ensures StepOk(st, RegisterSourceBody(st, name, instanceId, description, config, s).value, s.sequence)
  {
    hide Inv, Later, ModulesStep, PortsStep;
    RegisterSourceKeeps(st, name, instanceId, description, config, s);
    SameTables(st, st, s.sequence);
  }

  lemma MovedStep(st: State, next: State, uid: nat, to: LifecycleState, a: RegistryState.Authority, config: Config,
                  s: Stamp)
    requires uid in st.modules && next.sources == st.sources && next.ports == st.ports
    requires next.modules == st.modules[uid := Capped(Advanced(st.modules[uid], to, a, s), config)]
    ensures StepOk(st, next, s.sequence)
  {
    hide StepOk, RecordStep;
    var r := Capped(Advanced(st.modules[uid], to, a, s), config);
    SameLists(st.modules[uid], r, s.sequence);
    PutStep(st, next, uid, r, s.sequence);
  }

  lemma TransitionStep(st: State, a: RegistryState.Authority, h: Handle, to: LifecycleState, config: Config, s: Stamp)
    requires TransitionBody(st, a, h, to, config, s).Ok?
    ensures StepOk(st, TransitionBody(st, a, h, to, config, s).value, s.sequence)
  {
    hide StepOk, ModuleAt, Advanced, Capped, TransitionAllowed;
    ReachedIsAuthorized(st, a, h);
    MovedStep(st, TransitionBody(st, a, h, to, config, s).value, h.uid, to, a, config, s);
  }

  lemma ReconcileStep(st: State, a: RegistryState.Authority, h: Handle, config: Config, clock: Clock, s: Stamp)
    requires ReconcileBody(st, a, h, config, clock, s).Ok?
    ensures StepOk(st, ReconcileBody(st, a, h, config, clock, s).value, s.sequence)
  {
    hide StepOk, ModuleAt, Advanced, Capped, TransitionAllowed, ReportOf, EvidenceOf, ReconcileTarget;
    ReachedIsAuthorized(st, a, h);
    var next := ReconcileBody(st, a, h, config, clock, s).value;
    var target := ReconcileTarget(st.modules[h.uid].state, ReportOf(EvidenceOf(st, st.modules[h.uid], config,
                                                                               clock.reportWallNs)));
    if target == st.modules[h.uid].state {
      SameTables(st, next, s.sequence);
    } else {
      MovedStep(st, next, h.uid, target, a, config, s);
    }
  }

  lemma AttachStep(st: State, a: RegistryState.Authority, h: Handle, slot: Text, portIndex: nat, config: Config,
                   s: Stamp)
    requires AttachBody(st, a, h, slot, portIndex, config, s).Ok?
    ensures StepOk(st, AttachBody(st, a, h, slot, portIndex, config, s).value, s.sequence)
  {
    hide StepOk, ModuleAt, Advanced, Capped, TransitionAllowed, LiveSlots, HeldBy;
    ReachedIsAuthorized(st, a, h);
    var next := AttachBody(st, a, h, slot, portIndex, config, s).value;
    var record := st.modules[h.uid];
    if HeldBy(st.attachments, slot, record) {
      SameTables(st, next, s.sequence);
    } else if record.state != Attached {
      MovedStep(st, next, h.uid, Attached, a, config, s);
    } else {
      PutSame(st, h.uid);
      SameTables(st, next, s.sequence);
    }
  }

  lemma DetachStep(st: State, a: RegistryState.Authority, slot: Text, config: Config, s: Stamp)
    requires DetachBody(st, a, slot, config, s).Ok?
    ensures StepOk(st, DetachBody(st, a, slot, config, s).value, s.sequence)
  {
    hide StepOk, Advanced, Capped, TransitionAllowed, Authorize, ImpliesAttachment;
    var next := DetachBody(st, a, slot, config, s).value;
    var attachment := st.attachments[slot];
    if next.modules == st.modules {
      SameTables(st, next, s.sequence);
    } else {
      MovedStep(st, next, attachment.uid, Removed, a, config, s);
    }
  }

  lemma IngestStep(st: State, a: RegistryState.Authority, h: Handle, input: SampleInput, config: Config, clock: Clock,
                   s: Stamp)
    requires IngestBody(st, a, h, input, config, clock, s).Ok?
    ensures StepOk(st, IngestBody(st, a, h, input, config, clock, s).value, s.sequence)
  {
    hide StepOk, ModuleAt, StoredSample, Replayed, Latched, TrimRing, LiveThresholds, SampleSeries, CountOf, ListStep,
         Subsequence;
    ReachedIsAuthorized(st, a, h);
    var q := s.sequence;
    var r := st.modules[h.uid];
    var x := StoredSample(input, r, a, clock, s);
    StoredSampleFacts(input, r, a, clock, s);
    var ring := TrimRing(Pushed(r, x), config.maxSamplesPerSeries, config.maxSamplesPerModule);
    TrimRingSubsequence(Pushed(r, x), config.maxSamplesPerSeries, config.maxSamplesPerModule);
    SubsequenceMembers(ring.samples, r.samples + [x]);
    LatchedFacts(r, LiveThresholds(st.thresholds), x);
    var t := Latched(r, LiveThresholds(st.thresholds), x).(samples := ring.samples, seriesCounts := ring.counts);
    RecordStepSelf(r, q);
    PutStep(st, IngestBody(st, a, h, input, config, clock, s).value, h.uid, t, q);
  }

  lemma SubsequenceMembers<T>(a: seq<T>, b: seq<T>)
    requires Subsequence(a, b)
    ensures forall x :: x in a ==> x in b
  {
  }

  lemma OpenStep(st: State, key: Text, intent: Intent, a: RegistryState.Authority, config: Config, s: Stamp)
    requires Inv(st, s.sequence) && OpenModule(st, key, intent, a, config, s).Ok?
    ensures StepOk(st, OpenModule(st, key, intent, a, config, s).value.st, s.sequence)
  {
    hide Inv, NextIncarnation, NewModule, DetachAll, Gone, StepOk;
    var next := OpenModule(st, key, intent, a, config, s).value.st;
    if key !in st.moduleUidByKey {
      SameTables(st, st, s.sequence);
      UidIsNew(st, s.sequence);
      AddStep(st, next, st.nextModuleUid, NewModule(key, st.nextModuleUid, a, s), s.sequence) by {
        EmptyLists(key, st.nextModuleUid, a, s);
      }
    } else if intent == EnsureCurrent {
      SameTables(st, next, s.sequence);
    } else {
      var uid := st.moduleUidByKey[key];
      ModuleFound(st, key, s.sequence);
      NextIncarnationLists(st.modules[uid], a, s);
      var r := NextIncarnation(st.modules[uid], a, s).value;
      SameLists(st.modules[uid], r, s.sequence);
      PutStep(st, next, uid, r, s.sequence);
    }
  }

  lemma EmptyLists(key: Text, uid: nat, a: RegistryState.Authority, s: Stamp)
    ensures var r := NewModule(key, uid, a, s); r.claims == [] && r.declarations == [] && r.samples == []
  {
  }

  lemma NextIncarnationLists(r: ModuleRecord, a: RegistryState.Authority, s: Stamp)
    requires NextIncarnation(r, a, s).Ok?
    ensures var t := NextIncarnation(r, a, s).value;
      && t.incarnation == r.incarnation + 1 && t.claims == r.claims && t.declarations == r.declarations
      && t.samples == r.samples
  {
  }

  lemma AddStep(st: State, next: State, uid: nat, r: ModuleRecord, q: nat)
    requires StepOk(st, st, q) && uid !in st.modules
    requires r.claims == [] && r.declarations == [] && r.samples == []
    requires next.sources == st.sources && next.ports == st.ports && next.modules == st.modules[uid := r]
    ensures StepOk(st, next, q)
  {
    hide RecordStep, PortsStep, Later, Shadowed;
  }

  lemma RegisterModuleStep(st: State, key: Text, identity: seq<IdentityValue>, intent: Intent,
                           a: RegistryState.Authority, config: Config, s: Stamp)
    requires Inv(st, s.sequence) && NoRepeats(identity)
    requires RegisterModuleBody(st, key, identity, intent, a, config, s).Ok?
    ensures StepOk(st, RegisterModuleBody(st, key, identity, intent, a, config, s).value, s.sequence)
  {
    hide Inv, Authorize, OpenModule, RecordOk, ClaimsOk, Known, EnsureRegistered, IdentityClaims, Capped, NoRepeats,
         StepOk, TrimList, ListStep, OneSubject, RecordStep;
    var q, e := s.sequence, Epochs(st.sources);
    KnownAuthority(st, a, q, q + 1);
    OpenKeeps(st, key, intent, a, config, s);
    OpenStep(st, key, intent, a, config, s);
    var found := OpenModule(st, key, intent, a, config, s).value;
    var r := found.st.modules[found.uid];
    RecordAt(found.st, found.uid, q + 1);
    OwnUid(r, found.uid, e, q + 1);
    EnsureRegisteredLists(r, a, s);
    var t := EnsureRegistered(r, a, s);
    var added := IdentityClaims(identity, a, t.uid, t.incarnation, s);
    PushAllOk(t.claims, identity, a, t.uid, t.incarnation, s, e);
    AddedFacts(identity, a, t.uid, t.incarnation, s, e);
    ListsAreTrimmable(OfIdentity, t.claims + added, t.uid, t.incarnation, [], e, q + 1);
    AppendTrimStep(OfIdentity, t.claims, added, config.maxClaimsPerModule, config.maxClaimHistory, q);
    var kept := TrimList(OfIdentity, t.claims + added, config.maxClaimsPerModule, config.maxClaimHistory).value;
    var last := Capped(t.(claims := kept), config);
    CappedLists(t.(claims := kept), config);
    OneListStep(r, last, q);
    PutStep(found.st, PutModule(found.st, found.uid, last), found.uid, last, q);
    StepTwice(st, found.st, PutModule(found.st, found.uid, last), q);
  }

  lemma EnsureRegisteredLists(r: ModuleRecord, a: RegistryState.Authority, s: Stamp)
    ensures var t := EnsureRegistered(r, a, s);
      && t.incarnation == r.incarnation && t.uid == r.uid && t.claims == r.claims
      && t.declarations == r.declarations && t.samples == r.samples
  {
  }

  lemma CappedLists(r: ModuleRecord, config: Config)
    ensures var t := Capped(r, config);
      && t.incarnation == r.incarnation && t.claims == r.claims && t.declarations == r.declarations
      && t.samples == r.samples
  {
  }

  lemma OneListStep(before: ModuleRecord, after: ModuleRecord, q: nat)
    requires before.incarnation == after.incarnation && after.declarations == before.declarations
    requires after.samples == before.samples && ListStep(OfIdentity, before.claims, after.claims, q)
    ensures RecordStep(before, after, q)
  {
    hide Shadowed;
  }

  lemma ListStepTwice<V>(kind: ClaimKind, a: seq<Claim<V>>, b: seq<Claim<V>>, c: seq<Claim<V>>, q: nat)
    requires ListStep(kind, a, b, q) && ListStep(kind, b, c, q)
    ensures ListStep(kind, a, c, q)
  {
    hide Shadowed;
  }

  lemma RecordStepTwice(a: ModuleRecord, b: ModuleRecord, c: ModuleRecord, q: nat)
    requires RecordStep(a, b, q) && RecordStep(b, c, q)
    ensures RecordStep(a, c, q)
  {
    hide ListStep;
    ListStepTwice(OfIdentity, a.claims, b.claims, c.claims, q);
    ListStepTwice(OfModule, a.declarations, b.declarations, c.declarations, q);
  }

  lemma StepTwice(a: State, b: State, c: State, q: nat)
    requires StepOk(a, b, q) && StepOk(b, c, q)
    ensures StepOk(a, c, q)
  {
    LaterTwice(Epochs(a.sources), Epochs(b.sources), Epochs(c.sources));
    ModulesStepTwice(a.modules, b.modules, c.modules, q);
    PortsStepTwice(a.ports, b.ports, c.ports, q);
    hide Later, ModulesStep, PortsStep, Epochs;
  }

  lemma LaterTwice(a: map<nat, nat>, b: map<nat, nat>, c: map<nat, nat>)
    requires Later(a, b) && Later(b, c)
    ensures Later(a, c)
  {
  }

  lemma ModulesStepTwice(a: map<nat, ModuleRecord>, b: map<nat, ModuleRecord>, c: map<nat, ModuleRecord>, q: nat)
    requires ModulesStep(a, b, q) && ModulesStep(b, c, q)
    ensures ModulesStep(a, c, q)
  {
    forall uid | uid in a ensures uid in c && RecordStep(a[uid], c[uid], q) {
      RecordStepTwice(a[uid], b[uid], c[uid], q);
    }
    hide ListStep;
    forall uid | uid in c && uid !in a
      ensures ListStep(OfIdentity, [], c[uid].claims, q) && ListStep(OfModule, [], c[uid].declarations, q)
      ensures SampleStep([], c[uid].samples, q)
    {
      if uid in b {
        assert RecordStep(b[uid], c[uid], q);
        ListStepTwice(OfIdentity, [], b[uid].claims, c[uid].claims, q);
        ListStepTwice(OfModule, [], b[uid].declarations, c[uid].declarations, q);
      }
    }
  }

  lemma PortsStepTwice(a: map<Text, PortRecord>, b: map<Text, PortRecord>, c: map<Text, PortRecord>, q: nat)
    requires PortsStep(a, b, q) && PortsStep(b, c, q)
    ensures PortsStep(a, c, q)
  {
    hide ListStep;
    forall port | port in c
      ensures ListStep(OfPort, if port in a then a[port].declarations else [], c[port].declarations, q)
    {
      if port in b {
        ListStepTwice(OfPort, if port in a then a[port].declarations else [], b[port].declarations,
                      c[port].declarations, q);
      }
    }
  }

  // ----- Every call -----

  lemma BodyStep(st: State, call: Call, config: Config, s: Stamp)
    requires Inv(st, s.sequence) && Body(st, call, config, s).Ok?
    requires CheckCall(call.op, config, call.clock.wallNs).Ok?
    ensures StepOk(st, Body(st, call, config, s).value, s.sequence)
  {
    hide Inv, StepOk, RegisterSourceBody, RegisterModuleBody, UpdateIdentityBody, PublishCapabilityBody,
         PublishPortCapabilityBody, AttachBody, DetachBody, IngestBody, TransitionBody, ReconcileBody, CheckCall,
         NoRepeats, Authorize, Retire, BoundHistory, LiveThresholds;
    match call.op
    case RegisterSource(name, instanceId, description) =>
      RegisterSourceStep(st, name, instanceId, description, config, s);
    case RegisterModule(key, identity, intent, _, _, a) =>
      ChecksNoRepeats(call, config);
      RegisterModuleStep(st, key, identity, intent, a, config, s);
    case UpdateIdentity(a, h, v, _) => UpdateIdentityStep(st, a, h, v, config, s);
    case PublishCapability(a, h, key, subkey, value, _, _) =>
      PublishCapabilityStep(st, a, h, key, subkey, value, config, s);
    case PublishPortCapability(a, port, key, subkey, value, _, _) =>
      PublishPortStep(st, a, port, key, subkey, value, config, s);
    case Attach(a, h, slot, portIndex) => AttachStep(st, a, h, slot, portIndex, config, s);
    case Detach(a, slot) => DetachStep(st, a, slot, config, s);
    case IngestHealth(a, h, input) => IngestStep(st, a, h, input, config, call.clock, s);
    case PublishThreshold(a, t) => SameTables(st, Body(st, call, config, s).value, s.sequence);
    case PublishRule(a, rule, _) => SameTables(st, Body(st, call, config, s).value, s.sequence);
    case RetireRule(a, id) => SameTables(st, Body(st, call, config, s).value, s.sequence);
    case Transition(a, h, to, _) => TransitionStep(st, a, h, to, config, s);
    case Reconcile(a, h) => ReconcileStep(st, a, h, config, call.clock, s);
  }

  lemma SamePartsStep(st: State, next: State, x: State, y: State, q: nat)
    requires StepOk(st, next, q)
    requires x.sources == st.sources && x.modules == st.modules && x.ports == st.ports
    requires y.sources == next.sources && y.modules == next.modules && y.ports == next.ports
    ensures StepOk(x, y, q)
  {
    hide ModulesStep, PortsStep, Later;
  }

  lemma CommitStep(st: State, call: Call, config: Config)
    requires Good(st) && Attempt(st, call, config).Ok?
    ensures StepOk(st, Attempt(st, call, config).value, st.nextSequence)
  {
    hide Inv, Body, CheckCall, Attempt, StepOk;
    CommitParts(st, call, config);
    var begun := st.(nextSequence := st.nextSequence + 1);
    InvIgnoresCounters(st, begun, st.nextSequence);
    BodyStep(begun, call, config, StampOf(st, call));
    SamePartsStep(begun, Body(begun, call, config, StampOf(st, call)).value, st, Attempt(st, call, config).value,
                  st.nextSequence);
  }

  // ----- No resurrection -----

  /** An entry counts: stored, of the current incarnation and epoch, and not revised. */
  ghost predicate ClaimLive<V>(kind: ClaimKind, s: seq<Claim<V>>, incarnation: nat, epochs: map<nat, nat>,
                               c: Claim<V>) {
    && c in s && c.incarnation == incarnation && A.SourceIsLive(epochs, c.source, c.epoch)
    && !Shadowed(kind, s, c)
  }

  ghost predicate IdentityLive(st: State, uid: nat, c: IdentityClaim) {
    uid in st.modules && ClaimLive(OfIdentity, st.modules[uid].claims, st.modules[uid].incarnation, Epochs(st.sources),
                                   c)
  }

  ghost predicate DeclarationLive(st: State, uid: nat, c: Declaration) {
    uid in st.modules && ClaimLive(OfModule, st.modules[uid].declarations, st.modules[uid].incarnation,
                                   Epochs(st.sources), c)
  }

  ghost predicate PortDeclarationLive(st: State, port: Text, c: Declaration) {
    port in st.ports && ClaimLive(OfPort, st.ports[port].declarations, 0, Epochs(st.sources), c)
  }

  ghost predicate SampleLive(st: State, uid: nat, x: HealthSample) {
    && uid in st.modules && x in st.modules[uid].samples && x.incarnation == st.modules[uid].incarnation
    && A.SourceIsLive(Epochs(st.sources), x.source, x.epoch)
  }

  lemma DeadClaimStays<V>(kind: ClaimKind, s: seq<Claim<V>>, t: seq<Claim<V>>, uid: nat, i: nat, j: nat, port: Text,
                          e: map<nat, nat>, f: map<nat, nat>, c: Claim<V>, q: nat)
    requires ClaimsOk(s, uid, i, port, e, q) && ListStep(kind, s, t, q) && i <= j && Later(e, f)
    requires c.sequence < q && !ClaimLive(kind, s, i, e, c)
    ensures !ClaimLive(kind, t, j, f, c)
  {
    hide Shadowed, Orderly;
    if c in s {
      assert ClaimOk(c, uid, i, port, e, q);
    }
  }

  lemma NothingLive<V>(kind: ClaimKind, t: seq<Claim<V>>, j: nat, f: map<nat, nat>, c: Claim<V>, q: nat)
    requires ListStep(kind, [], t, q) && c.sequence < q
    ensures !ClaimLive(kind, t, j, f, c)
  {
    hide Shadowed;
  }

  lemma DeadIdentityStays(st: State, next: State, uid: nat, c: IdentityClaim)
    requires Good(st) && StepOk(st, next, st.nextSequence)
    requires c.sequence < st.nextSequence && !IdentityLive(st, uid, c)
    ensures !IdentityLive(next, uid, c)
  {
    hide Inv, ClaimLive, ClaimsOk, ListStep, RecordOk, Later;
    var q := st.nextSequence;
    var e, f := Epochs(st.sources), Epochs(next.sources);
    if uid in st.modules {
      RecordAt(st, uid, q);
      var r, t := st.modules[uid], next.modules[uid];
      assert RecordStep(r, t, q);
      OwnLists(r, uid, e, q);
      DeadClaimStays(OfIdentity, r.claims, t.claims, uid, r.incarnation, t.incarnation, [], e, f, c, q);
    } else if uid in next.modules {
      NothingLive(OfIdentity, next.modules[uid].claims, next.modules[uid].incarnation, f, c, q);
    }
  }

  lemma DeadDeclarationStays(st: State, next: State, uid: nat, c: Declaration)
    requires Good(st) && StepOk(st, next, st.nextSequence)
    requires c.sequence < st.nextSequence && !DeclarationLive(st, uid, c)
    ensures !DeclarationLive(next, uid, c)
  {
    hide Inv, ClaimLive, ClaimsOk, ListStep, RecordOk, Later;
    var q := st.nextSequence;
    var e, f := Epochs(st.sources), Epochs(next.sources);
    if uid in st.modules {
      RecordAt(st, uid, q);
      var r, t := st.modules[uid], next.modules[uid];
      assert RecordStep(r, t, q);
      OwnLists(r, uid, e, q);
      DeadClaimStays(OfModule, r.declarations, t.declarations, uid, r.incarnation, t.incarnation, [], e, f, c, q);
    } else if uid in next.modules {
      NothingLive(OfModule, next.modules[uid].declarations, next.modules[uid].incarnation, f, c, q);
    }
  }

  lemma DeadPortDeclarationStays(st: State, next: State, port: Text, c: Declaration)
    requires Good(st) && StepOk(st, next, st.nextSequence)
    requires c.sequence < st.nextSequence && !PortDeclarationLive(st, port, c)
    ensures !PortDeclarationLive(next, port, c)
  {
    hide Inv, ClaimLive, ClaimsOk, ListStep, ModulesStep, Later;
    var q := st.nextSequence;
    var e, f := Epochs(st.sources), Epochs(next.sources);
    if port in st.ports {
      PortAt(st, port, q);
      DeadClaimStays(OfPort, st.ports[port].declarations, next.ports[port].declarations, 0, 0, 0, port, e, f, c, q);
    } else if port in next.ports {
      NothingLive(OfPort, next.ports[port].declarations, 0, f, c, q);
    }
  }

  lemma DeadSampleStays(st: State, next: State, uid: nat, x: HealthSample)
    requires Good(st) && StepOk(st, next, st.nextSequence)
    requires x.sequence < st.nextSequence && !SampleLive(st, uid, x)
    ensures !SampleLive(next, uid, x)
  {
    hide Inv, ClaimsOk, ListStep, RecordOk;
    if uid in st.modules {
      RecordAt(st, uid, st.nextSequence);
      OwnLists(st.modules[uid], uid, Epochs(st.sources), st.nextSequence);
      assert RecordStep(st.modules[uid], next.modules[uid], st.nextSequence);
    }
  }

  /** Dead now, dead after any further run: identity claims, declarations of either kind, and samples. */
  lemma {:induction false} NoResurrection(st: State, calls: seq<Call>, config: Config, uid: nat, port: Text,
                                          c: IdentityClaim, d: Declaration, x: HealthSample)
    requires Good(st)
    ensures var later := RunCalls(st, calls, config);
      && (c.sequence < st.nextSequence && !IdentityLive(st, uid, c) ==> !IdentityLive(later, uid, c))
      && (d.sequence < st.nextSequence && !DeclarationLive(st, uid, d) ==> !DeclarationLive(later, uid, d))
      && (d.sequence < st.nextSequence && !PortDeclarationLive(st, port, d) ==> !PortDeclarationLive(later, port, d))
      && (x.sequence < st.nextSequence && !SampleLive(st, uid, x) ==> !SampleLive(later, uid, x))
  {
    hide Good, IdentityLive, DeclarationLive, PortDeclarationLive, SampleLive, Attempt, StepOk;
    if calls != [] {
      var front, call := calls[..|calls| - 1], calls[|calls| - 1];
      NoResurrection(st, front, config, uid, port, c, d, x);
      RunKeepsInvariant(st, front, config);
      GenerationCountsCommits(st, front, config);
      var before := RunCalls(st, front, config);
      if Attempt(before, call, config).Ok? {
        CommitStep(before, call, config);
        var next := Attempt(before, call, config).value;
        if !IdentityLive(before, uid, c) && c.sequence < st.nextSequence { DeadIdentityStays(before, next, uid, c); }
        if !DeclarationLive(before, uid, d) && d.sequence < st.nextSequence {
          DeadDeclarationStays(before, next, uid, d);
        }
        if !PortDeclarationLive(before, port, d) && d.sequence < st.nextSequence {
          DeadPortDeclarationStays(before, next, port, d);
        }
        if !SampleLive(before, uid, x) && x.sequence < st.nextSequence { DeadSampleStays(before, next, uid, x); }
      }
    }
  }

  // ----- Retired tokens -----

  function AuthorityOf(op: Op): Option<RegistryState.Authority> {
    match op
    case RegisterSource(_, _, _) => None
    case RegisterModule(_, _, _, _, _, a) => Some(a)
    case UpdateIdentity(a, _, _, _) => Some(a)
    case PublishCapability(a, _, _, _, _, _, _) => Some(a)
    case PublishPortCapability(a, _, _, _, _, _, _) => Some(a)
    case Attach(a, _, _, _) => Some(a)
    case Detach(a, _) => Some(a)
    case IngestHealth(a, _, _) => Some(a)
    case PublishThreshold(a, _) => Some(a)
    case PublishRule(a, _, _) => Some(a)
    case RetireRule(a, _) => Some(a)
    case Transition(a, _, _, _) => Some(a)
    case Reconcile(a, _) => Some(a)
  }

  ghost predicate RetiredToken(st: State, a: RegistryState.Authority) {
    a.source != 0 && a.source in st.sources && a.epoch < st.sources[a.source].epoch
  }

  /** A body refuses a retired token before it looks at anything else. */
  lemma BodyRefusesRetired(st: State, call: Call, config: Config, s: Stamp, a: RegistryState.Authority)
    requires AuthorityOf(call.op) == Some(a) && RetiredToken(st, a)
    ensures Body(st, call, config, s) == Err(StaleAuthority)
  {
    assert Authorize(st, a) == Err(StaleAuthority);
    hide Authorize, TrimList, OpenModule, Shrink, TrimRing, ReportOf, Advanced, EnsureRegistered, TrimClaims, Retire,
         BoundHistory, LiveThresholds, Replayed, StoredSample, Latched, RegisterSourceBody, RetiredToken;
  }

  lemma RetiredStays(st: State, next: State, a: RegistryState.Authority, q: nat)
    requires RetiredToken(st, a) && StepOk(st, next, q)
    ensures RetiredToken(next, a)
  {
    hide ModulesStep, PortsStep;
    assert Epochs(st.sources)[a.source] <= Epochs(next.sources)[a.source];
  }

  /** An authority token whose epoch was retired never commits anything again. */
  lemma {:induction false} RetiredTokenNeverCommits(st: State, calls: seq<Call>, config: Config,
                                                    a: RegistryState.Authority, i: nat)
    requires Good(st) && RetiredToken(st, a) && i < |calls| && AuthorityOf(calls[i].op) == Some(a)
    ensures !Commits(st, calls, config, i)
  {
    hide Good, RetiredToken, Attempt, Body, StepOk;
    RetiredForever(st, calls[..i], config, a);
    var now := RunCalls(st, calls[..i], config);
    if Attempt(now, calls[i], config).Ok? {
      CommitParts(now, calls[i], config);
      SameRetired(now, now.(nextSequence := now.nextSequence + 1), a);
      BodyRefusesRetired(now.(nextSequence := now.nextSequence + 1), calls[i], config, StampOf(now, calls[i]), a);
    }
  }

  lemma SameRetired(st: State, next: State, a: RegistryState.Authority)
    requires RetiredToken(st, a) && next.sources == st.sources
    ensures RetiredToken(next, a)
  {
  }

  lemma {:induction false} RetiredForever(st: State, calls: seq<Call>, config: Config, a: RegistryState.Authority)
    requires Good(st) && RetiredToken(st, a)
    ensures RetiredToken(RunCalls(st, calls, config), a)
  {
    hide Good, RetiredToken, Attempt, StepOk;
    if calls != [] {
      var front, call := calls[..|calls| - 1], calls[|calls| - 1];
      RetiredForever(st, front, config, a);
      RunKeepsInvariant(st, front, config);
      var before := RunCalls(st, front, config);
      if Attempt(before, call, config).Ok? {
        CommitStep(before, call, config);
        RetiredStays(before, Attempt(before, call, config).value, a, before.nextSequence);
      }
    }
  }
}
