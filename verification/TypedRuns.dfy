/** Every state of a run holds what the fields' types hold, so that the theorem on files applies to every save. */
module TypedRuns {
  import opened Bytes
  import opened Provenances
  import Utf8
  import opened Ordering
  import opened Consensus
  import opened Capability
  import Compatibility
  import opened Lifecycle
  import opened Latch
  import opened Health
  import opened HealthReport
  import opened Trim
  import opened Samples
  import opened RegistryState
  import opened Validation
  import opened Mutations
  import opened RegistryInvariant
  import opened InvariantSteps
  import opened Runs
  import LifecyclePath
  import Resurrection
  import opened Documents
  import RecordStream
  import opened SnapshotState
  import SnapshotRecovery
  import opened Snapshot
  import opened SnapshotSaved
  import opened EvidenceDocuments
  import opened TableDocuments
  import opened RecordDocuments
  import opened SnapshotDocuments
  import LostSnapshots

  // ----- What the types of arguments hold -----

  predicate AuthorityTyped(a: RegistryState.Authority) { a.source <= MAX_U32 && a.epoch <= MAX_U32 }

  predicate SampleInputTyped(input: SampleInput, d: Doubles) {
    Exact(d, input.value) && Storable(input.wallNs) && input.monotonicNs <= MOST && input.clockDomain <= MOST
  }

  /** Enumerations, keys, capability values and doubles as the C++ types of the arguments admit them. */
  ghost predicate OpTyped(op: RegistryState.Op, d: Doubles) {
    && (Resurrection.AuthorityOf(op).Some? ==> AuthorityTyped(Resurrection.AuthorityOf(op).value))
    && match op
       case RegisterModule(key, identity, _, _, _, _) =>
         (key == [] || IsKeyText(key)) && forall v :: v in identity ==> v.attr <= LAST_IDENTITY_FIELD
       case UpdateIdentity(_, _, v, _) => v.attr <= LAST_IDENTITY_FIELD
       case PublishCapability(_, _, key, _, value, _, _) => key <= LAST_CAPABILITY && ValueTyped(value, d)
       case PublishPortCapability(_, port, key, _, value, _, _) =>
         (port == [] || IsKeyText(port)) && key <= LAST_CAPABILITY && ValueTyped(value, d)
       case Attach(_, _, slot, portIndex) => (slot == [] || IsKeyText(slot)) && portIndex <= MAX_U32
       case IngestHealth(_, _, input) => SampleInputTyped(input, d)
       case PublishThreshold(_, t) => ThresholdTyped(t.(source := 0, epoch := 0, generation := 0, sequence := 0), d)
       case PublishRule(_, rule, _) => ContentTyped(ContentOf(rule), d)
       case _ => true
  }

  predicate ClockTyped(c: Clock) { Storable(c.wallNs) && c.monotonicNs <= MOST && c.domain <= MOST }

  ghost predicate CallsTyped(calls: seq<Call>, d: Doubles) {
    forall i :: 0 <= i < |calls| ==> OpTyped(calls[i].op, d) && ClockTyped(calls[i].clock)
  }

  // ----- What the tables hold -----

  ghost predicate ModuleHeld(r: ModuleRecord, d: Doubles) {
    ModuleCountersTyped(r) && ModuleListsTyped(r, d) && r.incarnationCount == r.incarnation
  }

  ghost predicate SourcesHeld(sources: map<nat, SourceRecord>) {
    forall id :: id in sources ==>
      RegisteredForm(sources[id]) && Storable(sources[id].generation) && Storable(sources[id].sequence)
  }

  ghost predicate ModulesHeld(modules: map<nat, ModuleRecord>, d: Doubles) {
    forall uid :: uid in modules ==> ModuleHeld(modules[uid], d)
  }

  ghost predicate PortsHeld(ports: map<Text, PortRecord>, d: Doubles) {
    forall port :: port in ports ==> PortTyped(ports[port], d)
  }

  ghost predicate AttachmentsHeld(attachments: map<Text, AttachmentRecord>) {
    forall slot :: slot in attachments ==> AttachmentTyped(attachments[slot])
  }

  ghost predicate ThresholdsHeld(thresholds: seq<ThresholdRecord>, d: Doubles) {
    forall t :: t in thresholds ==> ThresholdTyped(t.threshold, d)
  }

  ghost predicate RulesHeld(rules: map<nat, Compatibility.Rule>, d: Doubles) {
    forall id :: id in rules ==> RuleTyped(rules[id], d)
  }

  ghost predicate Held(st: State, d: Doubles) {
    && SourcesHeld(st.sources) && ModulesHeld(st.modules, d) && PortsHeld(st.ports, d)
       && AttachmentsHeld(st.attachments)
    && ThresholdsHeld(st.thresholds, d) && RulesHeld(st.rules, d)
  }

  predicate StampTyped(s: Stamp) { Word(s.generation) && Word(s.sequence) && Storable(s.now) }

  // ----- Lists -----

  lemma {:induction false} ShrinkMembers<V>(kind: ClaimKind, s: seq<Claim<V>>, maxTotal: nat)
    requires Shrink(kind, s, maxTotal).Ok?
    ensures forall c :: c in Shrink(kind, s, maxTotal).value ==> c in s
    decreases |s|
  {
    hide FirstSuperseded;
    if |s| > maxTotal {
      var i := FirstSuperseded(kind, s, 0);
      ShrinkMembers(kind, Erase(s, i), maxTotal);
      forall c | c in Erase(s, i) ensures c in s {
      }
    }
  }

  lemma TrimMembers<V>(kind: ClaimKind, s: seq<Claim<V>>, maxTotal: nat, maxHistory: nat)
    requires TrimList(kind, s, maxTotal, maxHistory).Ok?
    ensures forall c :: c in TrimList(kind, s, maxTotal, maxHistory).value ==> c in s
  {
    hide Shrink, KeepRecent, Subsequence;
    var r := Shrink(kind, s, maxTotal).value;
    ShrinkMembers(kind, s, maxTotal);
    KeepRecentSubsequence(r, maxHistory);
    Resurrection.SubsequenceMembers(KeepRecent(r, maxHistory), r);
  }

  lemma PortMembersKept(s: seq<Declaration>, c: Declaration, max: U32)
    requires PublishOnPort(s, c, max).Ok?
    ensures forall x :: x in PublishOnPort(s, c, max).value ==> x in s || x == c
  {
    hide Shrink;
    var room := if |s| >= max then Shrink(OfPort, s, OneBelow(max)).value else s;
    if |s| >= max {
      ShrinkMembers(OfPort, s, OneBelow(max));
    }
    ShrinkMembers(OfPort, room + [c], max);
  }

  lemma NewClaimTyped(v: IdentityValue, a: RegistryState.Authority, uid: nat, incarnation: nat, s: Stamp)
    requires v.attr <= LAST_IDENTITY_FIELD && AuthorityTyped(a) && Word(uid) && incarnation <= MAX_U32 && StampTyped(s)
    ensures ClaimTyped(NewClaim(v.attr, v.subkey, v.value, a, uid, incarnation, [], s))
  {
  }

  lemma NewDeclarationTyped(key: nat, subkey: Text, value: CapabilityValue, a: RegistryState.Authority, uid: nat,
                            incarnation: nat, port: Text, s: Stamp, d: Doubles)
    requires key <= LAST_CAPABILITY && ValueTyped(value, d) && (port == [] || IsKeyText(port))
    requires AuthorityTyped(a) && Word(uid) && incarnation <= MAX_U32 && StampTyped(s)
    ensures DeclarationTyped(NewClaim(key, subkey, value, a, uid, incarnation, port, s), d)
  {
    hide ValueTyped, IsKeyText;
  }

  // ----- Modules -----

  lemma LoggedHeld(r: ModuleRecord, e: LifecycleEvent, d: Doubles)
    requires ModuleHeld(r, d) && EventTyped(e)
    ensures ModuleHeld(Logged(r, e), d)
  {
    hide ClaimTyped, DeclarationTyped, SampleTyped, LatchTyped, EventTyped, ModuleCountersTyped;
    var t := Logged(r, e);
    assert ModuleCountersTyped(t) by { SameCounters(r, t); }
  }

  lemma SameCounters(r: ModuleRecord, t: ModuleRecord)
    requires ModuleCountersTyped(r)
    requires t == r.(claims := t.claims, declarations := t.declarations, samples := t.samples, lifecycle := t.lifecycle,
                     latches := t.latches, seriesCounts := t.seriesCounts)
    ensures ModuleCountersTyped(t)
  {
  }

  lemma MovedHeld(r: ModuleRecord, to: LifecycleState, a: RegistryState.Authority, config: Config, s: Stamp, d: Doubles)
    requires ModuleHeld(r, d) && AuthorityTyped(a) && StampTyped(s)
    ensures ModuleHeld(Advanced(r, to, a, s), d) && ModuleHeld(Capped(Advanced(r, to, a, s), config), d)
  {
    hide ClaimTyped, DeclarationTyped, SampleTyped, LatchTyped, IsKeyText, ReasonFor;
    var e := EventOf(r.state, to, r.incarnation, a, s);
    assert EventTyped(e);
    hide EventTyped;
    var t := Advanced(r, to, a, s);
    assert ModuleListsTyped(t, d);
    assert ModuleHeld(t, d);
    CappedHeld(t, config, d);
  }

  lemma CappedHeld(r: ModuleRecord, config: Config, d: Doubles)
    requires ModuleHeld(r, d)
    ensures ModuleHeld(Capped(r, config), d)
  {
    hide ClaimTyped, DeclarationTyped, SampleTyped, LatchTyped, EventTyped, ModuleCountersTyped;
    var t := Capped(r, config);
    SameCounters(r, t);
    forall e | e in t.lifecycle ensures e in r.lifecycle {
    }
  }

  lemma PutHeld(st: State, uid: nat, r: ModuleRecord, d: Doubles)
    requires Held(st, d) && ModuleHeld(r, d)
    ensures Held(PutModule(st, uid, r), d)
  {
    hide ModuleHeld, SourcesHeld, PortsHeld, AttachmentsHeld, ThresholdsHeld, RulesHeld;
  }

  lemma ReachedHeld(st: State, a: RegistryState.Authority, h: Handle, d: Doubles)
    requires Held(st, d) && ModuleAt(st, a, h).Ok?
    ensures h.uid in st.modules && ModuleAt(st, a, h).value == st.modules[h.uid] && ModuleHeld(st.modules[h.uid], d)
  {
    hide ModuleHeld, SourcesHeld, PortsHeld, AttachmentsHeld, ThresholdsHeld, RulesHeld;
  }

  lemma TransitionHeld(st: State, a: RegistryState.Authority, h: Handle, to: LifecycleState, config: Config, s: Stamp,
                       d: Doubles)
    requires Held(st, d) && AuthorityTyped(a) && StampTyped(s) && TransitionBody(st, a, h, to, config, s).Ok?
    ensures Held(TransitionBody(st, a, h, to, config, s).value, d)
  {
    hide Held, ModuleHeld, ModuleAt, Advanced, Capped, TransitionAllowed, PutModule;
    ReachedHeld(st, a, h, d);
    var r := st.modules[h.uid];
    MovedHeld(r, to, a, config, s, d);
    PutHeld(st, h.uid, Capped(Advanced(r, to, a, s), config), d);
  }

  lemma ReconcileHeld(st: State, a: RegistryState.Authority, h: Handle, config: Config, clock: Clock, s: Stamp,
                      d: Doubles)
    requires Held(st, d) && AuthorityTyped(a) && StampTyped(s) && ReconcileBody(st, a, h, config, clock, s).Ok?
    ensures Held(ReconcileBody(st, a, h, config, clock, s).value, d)
  {
    hide Held, ModuleHeld, ModuleAt, Advanced, Capped, TransitionAllowed, PutModule, ReconcileTarget, ReportOf,
         EvidenceOf;
    ReachedHeld(st, a, h, d);
    var r := st.modules[h.uid];
    var target := ReconcileTarget(r.state, ReportOf(EvidenceOf(st, r, config, clock.reportWallNs)));
    MovedHeld(r, target, a, config, s, d);
    PutHeld(st, h.uid, Capped(Advanced(r, target, a, s), config), d);
  }

  lemma ClaimsHeld(r: ModuleRecord, claims: seq<IdentityClaim>, d: Doubles)
    requires ModuleHeld(r, d) && forall c :: c in claims ==> ClaimTyped(c)
    ensures ModuleHeld(r.(claims := claims), d)
  {
    hide ClaimTyped, DeclarationTyped, SampleTyped, LatchTyped, EventTyped, ModuleCountersTyped;
    SameCounters(r, r.(claims := claims));
  }

  lemma ListedClaim(r: ModuleRecord, c: IdentityClaim, d: Doubles)
    requires ModuleHeld(r, d) && c in r.claims
    ensures ClaimTyped(c)
  {
  }

  lemma UpdateIdentityHeld(st: State, a: RegistryState.Authority, h: Handle, v: IdentityValue, config: Config, s: Stamp,
                           d: Doubles)
    requires Held(st, d) && AuthorityTyped(a) && StampTyped(s) && v.attr <= LAST_IDENTITY_FIELD
    requires UpdateIdentityBody(st, a, h, v, config, s).Ok?
    ensures Held(UpdateIdentityBody(st, a, h, v, config, s).value, d)
  {
    hide Held, ModuleAt, PutModule, TrimList, ClaimTyped, ModuleListsTyped;
    ReachedHeld(st, a, h, d);
    var r := st.modules[h.uid];
    var c := NewClaim(v.attr, v.subkey, v.value, a, r.uid, r.incarnation, [], s);
    NewClaimTyped(v, a, r.uid, r.incarnation, s);
    hide ModuleHeld, NewClaim;
    TrimMembers(OfIdentity, r.claims + [c], config.maxClaimsPerModule, config.maxClaimHistory);
    var kept := TrimList(OfIdentity, r.claims + [c], config.maxClaimsPerModule, config.maxClaimHistory).value;
    forall x | x in kept ensures ClaimTyped(x) {
      if x in r.claims {
        ListedClaim(r, x, d);
      }
    }
    ClaimsHeld(r, kept, d);
    assert r.(claims := r.claims + [c]).(claims := kept) == r.(claims := kept);
    PutHeld(st, h.uid, r.(claims := kept), d);
  }

  lemma DeclarationsHeld(r: ModuleRecord, declarations: seq<Declaration>, d: Doubles)
    requires ModuleHeld(r, d) && forall c :: c in declarations ==> DeclarationTyped(c, d)
    ensures ModuleHeld(r.(declarations := declarations), d)
  {
    hide ClaimTyped, DeclarationTyped, SampleTyped, LatchTyped, EventTyped, ModuleCountersTyped;
    SameCounters(r, r.(declarations := declarations));
  }

  lemma ListedDeclaration(r: ModuleRecord, c: Declaration, d: Doubles)
    requires ModuleHeld(r, d) && c in r.declarations
    ensures DeclarationTyped(c, d)
  {
  }

  lemma PublishCapabilityHeld(st: State, a: RegistryState.Authority, h: Handle, key: nat, subkey: Text,
                              value: CapabilityValue, config: Config, s: Stamp, d: Doubles)
    requires Held(st, d) && AuthorityTyped(a) && StampTyped(s) && key <= LAST_CAPABILITY && ValueTyped(value, d)
    requires PublishCapabilityBody(st, a, h, key, subkey, value, config, s).Ok?
    ensures Held(PublishCapabilityBody(st, a, h, key, subkey, value, config, s).value, d)
  {
    hide Held, ModuleAt, PutModule, TrimList, DeclarationTyped, ModuleListsTyped, ValueTyped;
    ReachedHeld(st, a, h, d);
    var r := st.modules[h.uid];
    var c := NewClaim(key, subkey, value, a, r.uid, r.incarnation, [], s);
    NewDeclarationTyped(key, subkey, value, a, r.uid, r.incarnation, [], s, d);
    hide ModuleHeld, NewClaim;
    TrimMembers(OfModule, r.declarations + [c], config.maxDeclarationsPerModule, config.maxClaimHistory);
    var kept := TrimList(OfModule, r.declarations + [c], config.maxDeclarationsPerModule, config.maxClaimHistory).value;
    forall x | x in kept ensures DeclarationTyped(x, d) {
      if x in r.declarations {
        ListedDeclaration(r, x, d);
      }
    }
    DeclarationsHeld(r, kept, d);
    PutHeld(st, h.uid, r.(declarations := kept), d);
  }

  lemma PublishPortHeld(st: State, a: RegistryState.Authority, port: Text, key: nat, subkey: Text,
                        value: CapabilityValue, config: Config, s: Stamp, d: Doubles)
    requires Held(st, d) && AuthorityTyped(a) && StampTyped(s) && key <= LAST_CAPABILITY && ValueTyped(value, d)
    requires IsKeyText(port) && PublishPortCapabilityBody(st, a, port, key, subkey, value, config, s).Ok?
    ensures Held(PublishPortCapabilityBody(st, a, port, key, subkey, value, config, s).value, d)
  {
    hide SourcesHeld, ModulesHeld, AttachmentsHeld, ThresholdsHeld, RulesHeld, Authorize, PublishOnPort,
         DeclarationTyped, ValueTyped, IsKeyText, NewClaim;
    var r := if port in st.ports then st.ports[port] else PortRecord(port, s.generation, s.sequence, s.now, []);
    var c := NewClaim(key, subkey, value, a, 0, 0, port, s);
    NewDeclarationTyped(key, subkey, value, a, 0, 0, port, s, d);
    PortMembersKept(r.declarations, c, config.maxDeclarationsPerPort);
    assert PortTyped(r, d);
    var kept := PublishOnPort(r.declarations, c, config.maxDeclarationsPerPort).value;
    assert PortTyped(r.(declarations := kept), d);
  }

  // ----- Registration -----

  lemma RegistrationStamps(st: State, name: Text, instanceId: Text, description: Text, config: Config, s: Stamp)
    requires RegisterSourceBody(st, name, instanceId, description, config, s).Ok?
    ensures var next := RegisterSourceBody(st, name, instanceId, description, config, s).value;
      && next == st.(sources := next.sources, sourceIdByName := next.sourceIdByName, nextSourceId := next.nextSourceId)
      && forall id :: id in next.sources ==>
           || (id in st.sources && next.sources[id] == st.sources[id])
           || (next.sources[id].generation == s.generation && next.sources[id].sequence == s.sequence)
  {
  }

  lemma SourceHeld(st: State, name: Text, instanceId: Text, description: Text, config: Config, s: Stamp, d: Doubles)
    requires Held(st, d) && st.nextSourceId >= 1 && StampTyped(s)
    requires CheckCall(RegisterSource(name, instanceId, description), config, s.now).Ok?
    requires RegisterSourceBody(st, name, instanceId, description, config, s).Ok?
    ensures Held(RegisterSourceBody(st, name, instanceId, description, config, s).value, d)
  {
    hide Held, RegisterSourceBody, RegisteredForm, Utf8.Valid;
    HeldSources(st, d);
    LostSnapshots.SourceBodyForm(st, name, instanceId, description, config, s);
    RegistrationStamps(st, name, instanceId, description, config, s);
    var next := RegisterSourceBody(st, name, instanceId, description, config, s).value;
    SourcesPut(st, next, d);
  }

  lemma HeldSources(st: State, d: Doubles)
    requires Held(st, d)
    ensures SourcesHeld(st.sources)
  {
  }

  lemma SourcesPut(st: State, next: State, d: Doubles)
    requires Held(st, d) && SourcesHeld(next.sources)
    requires next == st.(sources := next.sources, sourceIdByName := next.sourceIdByName,
                         nextSourceId := next.nextSourceId)
    ensures Held(next, d)
  {
    hide SourcesHeld, ModulesHeld, PortsHeld, AttachmentsHeld, ThresholdsHeld, RulesHeld;
  }

  lemma NewModuleHeld(key: Text, uid: nat, a: RegistryState.Authority, s: Stamp, d: Doubles)
    requires IsKeyText(key) && 1 <= uid && Word(uid) && AuthorityTyped(a) && StampTyped(s)
    ensures ModuleHeld(NewModule(key, uid, a, s), d)
  {
    hide IsKeyText, ReasonFor;
  }

  lemma NextIncarnationHeld(r: ModuleRecord, a: RegistryState.Authority, s: Stamp, d: Doubles)
    requires ModuleHeld(r, d) && AuthorityTyped(a) && StampTyped(s) && NextIncarnation(r, a, s).Ok?
    ensures ModuleHeld(NextIncarnation(r, a, s).value, d)
  {
    hide ClaimTyped, DeclarationTyped, SampleTyped, LatchTyped, IsKeyText, ReasonFor;
    var replaced := EventOf(r.state, Replaced, r.incarnation, a, s);
    var birth := EventOf(Discovered, Discovered, r.incarnation + 1, a, s);
    assert EventTyped(replaced) && EventTyped(birth);
    hide EventTyped;
  }

  lemma DetachedHeld(st: State, uid: nat, d: Doubles)
    requires Held(st, d)
    ensures Held(st.(attachments := DetachAll(st.attachments, uid)), d)
  {
    hide SourcesHeld, ModulesHeld, PortsHeld, ThresholdsHeld, RulesHeld, IsKeyText;
  }

  lemma OpenHeld(st: State, key: Text, intent: Intent, a: RegistryState.Authority, config: Config, s: Stamp, d: Doubles)
    requires Held(st, d) && AuthorityTyped(a) && StampTyped(s) && IsKeyText(key)
    requires 1 <= st.nextModuleUid && Word(st.nextModuleUid) && OpenModule(st, key, intent, a, config, s).Ok?
    ensures Held(OpenModule(st, key, intent, a, config, s).value.st, d)
  {
    hide Held, ModuleHeld, IsKeyText, NewModule, NextIncarnation, DetachAll, Gone;
    if key !in st.moduleUidByKey {
      var uid := st.nextModuleUid;
      NewModuleHeld(key, uid, a, s, d);
      PutHeld(st, uid, NewModule(key, uid, a, s), d);
      SameTables(PutModule(st, uid, NewModule(key, uid, a, s)), OpenModule(st, key, intent, a, config, s).value.st, d);
    } else if intent == NewIncarnation {
      var uid := st.moduleUidByKey[key];
      var r := st.modules[uid];
      assert ModuleHeld(r, d) by { HeldModule(st, uid, d); }
      NextIncarnationHeld(r, a, s, d);
      PutHeld(st, uid, NextIncarnation(r, a, s).value, d);
      DetachedHeld(PutModule(st, uid, NextIncarnation(r, a, s).value), r.uid, d);
    }
  }

  lemma HeldModule(st: State, uid: nat, d: Doubles)
    requires Held(st, d) && uid in st.modules
    ensures ModuleHeld(st.modules[uid], d)
  {
    hide ModuleHeld, SourcesHeld, PortsHeld, AttachmentsHeld, ThresholdsHeld, RulesHeld;
  }

  lemma SameTables(st: State, t: State, d: Doubles)
    requires Held(st, d) && t.sources == st.sources && t.modules == st.modules && t.ports == st.ports
    requires t.attachments == st.attachments && t.thresholds == st.thresholds && t.rules == st.rules
    ensures Held(t, d)
  {
    hide SourcesHeld, ModulesHeld, PortsHeld, AttachmentsHeld, ThresholdsHeld, RulesHeld;
  }

  lemma EnsureRegisteredHeld(r: ModuleRecord, a: RegistryState.Authority, config: Config, s: Stamp, d: Doubles)
    requires ModuleHeld(r, d) && AuthorityTyped(a) && StampTyped(s)
    ensures ModuleHeld(EnsureRegistered(r, a, s), d)
  {
    hide ModuleHeld, Advanced;
    MovedHeld(r, Registered, a, config, s, d);
  }

  lemma AddedClaims(identity: seq<IdentityValue>, a: RegistryState.Authority, uid: nat, incarnation: nat, s: Stamp)
    requires AuthorityTyped(a) && Word(uid) && incarnation <= MAX_U32 && StampTyped(s)
    requires forall v :: v in identity ==> v.attr <= LAST_IDENTITY_FIELD
    ensures forall c :: c in IdentityClaims(identity, a, uid, incarnation, s) ==> ClaimTyped(c)
  {
    hide ClaimTyped, NewClaim;
    var claims := IdentityClaims(identity, a, uid, incarnation, s);
    forall i | 0 <= i < |claims| ensures ClaimTyped(claims[i]) {
      NewClaimTyped(identity[i], a, uid, incarnation, s);
    }
  }

  lemma RegisterModuleHeld(st: State, key: Text, identity: seq<IdentityValue>, intent: Intent,
                           a: RegistryState.Authority, config: Config, s: Stamp, d: Doubles)
    requires Held(st, d) && AuthorityTyped(a) && StampTyped(s) && IsKeyText(key)
    requires 1 <= st.nextModuleUid && Word(st.nextModuleUid)
    requires forall v :: v in identity ==> v.attr <= LAST_IDENTITY_FIELD
    requires RegisterModuleBody(st, key, identity, intent, a, config, s).Ok?
    ensures Held(RegisterModuleBody(st, key, identity, intent, a, config, s).value, d)
  {
    hide Held, ModuleHeld, Authorize, OpenModule, PutModule, TrimList, ClaimTyped, EnsureRegistered, IdentityClaims,
         IsKeyText, Capped;
    OpenHeld(st, key, intent, a, config, s, d);
    var found := OpenModule(st, key, intent, a, config, s).value;
    HeldModule(found.st, found.uid, d);
    EnsureRegisteredHeld(found.st.modules[found.uid], a, config, s, d);
    var r := EnsureRegistered(found.st.modules[found.uid], a, s);
    var added := IdentityClaims(identity, a, r.uid, r.incarnation, s);
    assert Word(r.uid) && r.incarnation <= MAX_U32 by { HeldNumbers(r, d); }
    AddedClaims(identity, a, r.uid, r.incarnation, s);
    TrimMembers(OfIdentity, r.claims + added, config.maxClaimsPerModule, config.maxClaimHistory);
    var kept := TrimList(OfIdentity, r.claims + added, config.maxClaimsPerModule, config.maxClaimHistory).value;
    forall x | x in kept ensures ClaimTyped(x) {
      if x in r.claims {
        ListedClaim(r, x, d);
      }
    }
    ClaimsHeld(r, kept, d);
    assert r.(claims := r.claims + added).(claims := kept) == r.(claims := kept);
    CappedHeld(r.(claims := kept), config, d);
    PutHeld(found.st, found.uid, Capped(r.(claims := kept), config), d);
  }

  lemma HeldNumbers(r: ModuleRecord, d: Doubles)
    requires ModuleHeld(r, d)
    ensures Word(r.uid) && r.incarnation <= MAX_U32
  {
  }

  // ----- Attachments, samples, thresholds, rules -----

  lemma SlotHeld(st: State, slot: Text, x: AttachmentRecord, d: Doubles)
    requires Held(st, d) && AttachmentTyped(x)
    ensures Held(st.(attachments := st.attachments[slot := x]), d)
  {
    hide SourcesHeld, ModulesHeld, PortsHeld, ThresholdsHeld, RulesHeld, AttachmentTyped;
  }

  lemma AttachHeld(st: State, a: RegistryState.Authority, h: Handle, slot: Text, portIndex: nat, config: Config,
                   s: Stamp, d: Doubles)
    requires Held(st, d) && AuthorityTyped(a) && StampTyped(s) && IsKeyText(slot) && portIndex <= MAX_U32
    requires AttachBody(st, a, h, slot, portIndex, config, s).Ok?
    ensures Held(AttachBody(st, a, h, slot, portIndex, config, s).value, d)
  {
    hide Held, ModuleHeld, ModuleAt, Advanced, Capped, TransitionAllowed, LiveSlots, HeldBy, IsKeyText;
    ReachedHeld(st, a, h, d);
    var r := st.modules[h.uid];
    HeldNumbers(r, d);
    MovedHeld(r, Attached, a, config, s, d);
    var x := AttachmentRecord(slot, portIndex, r.uid, r.incarnation, a.source, a.epoch, s.generation, s.sequence, s.now,
                              true);
    var moved := if r.state != Attached then Capped(Advanced(r, Attached, a, s), config) else r;
    PutHeld(st, h.uid, moved, d);
    SlotHeld(PutModule(st, h.uid, moved), slot, x, d);
  }

  lemma SlotTyped(st: State, slot: Text, d: Doubles)
    requires Held(st, d) && slot in st.attachments
    ensures AttachmentTyped(st.attachments[slot].(live := false))
  {
    hide SourcesHeld, ModulesHeld, PortsHeld, ThresholdsHeld, RulesHeld, IsKeyText;
  }

  lemma DetachHeld(st: State, a: RegistryState.Authority, slot: Text, config: Config, s: Stamp, d: Doubles)
    requires Held(st, d) && AuthorityTyped(a) && StampTyped(s) && DetachBody(st, a, slot, config, s).Ok?
    ensures Held(DetachBody(st, a, slot, config, s).value, d)
  {
    hide Held, ModuleHeld, Authorize, Advanced, Capped, TransitionAllowed, ImpliesAttachment, AttachmentTyped;
    var x := st.attachments[slot];
    SlotTyped(st, slot, d);
    SlotHeld(st, slot, x.(live := false), d);
    if x.uid in st.modules {
      HeldModule(st, x.uid, d);
      MovedHeld(st.modules[x.uid], Removed, a, config, s, d);
      PutHeld(st.(attachments := st.attachments[slot := x.(live := false)]), x.uid,
              Capped(Advanced(st.modules[x.uid], Removed, a, s), config), d);
    }
  }

  lemma StoredSampleTyped(input: SampleInput, r: ModuleRecord, a: RegistryState.Authority, clock: Clock, s: Stamp,
                          d: Doubles)
    requires SampleInputTyped(input, d) && Exact(d, 0.0) && ClockTyped(clock) && AuthorityTyped(a) && StampTyped(s)
    requires Word(r.uid) && r.incarnation <= MAX_U32
    ensures SampleTyped(StoredSample(input, r, a, clock, s), d)
  {
    hide Exact;
  }

  lemma AdvancedLatchTyped(t: Threshold, latch: Latch, value: real, wallNs: int, sequence: nat, generation: nat)
    requires LatchTyped(latch) && Storable(wallNs) && Word(sequence) && Word(generation)
    ensures LatchTyped(AdvanceLatch(t, latch, value, wallNs, sequence, generation))
  {
    hide Zone, ZoneRank;
  }

  lemma LatchesTyped(r: ModuleRecord, thresholds: seq<Threshold>, x: HealthSample, d: Doubles)
    requires ModuleHeld(r, d) && SampleTyped(x, d)
    ensures forall l :: l in Latched(r, thresholds, x).latches ==> LatchTyped(l.latch)
    ensures Latched(r, thresholds, x) == r.(latches := Latched(r, thresholds, x).latches)
  {
    hide AdvanceLatch, SelectedThreshold, ClaimTyped, DeclarationTyped, EventTyped, Exact, IsKeyText;
    if x.presence == Present && SelectedThreshold(thresholds, x.metric, x.lane).Some? {
      var t := SelectedThreshold(thresholds, x.metric, x.lane).value;
      var i := LatchIndex(r.latches, x.metric, x.lane);
      var before := if i < |r.latches| then r.latches[i].latch else EMPTY_LATCH;
      if i < |r.latches| {
        assert r.latches[i] in r.latches;
      }
      assert LatchTyped(before);
      AdvancedLatchTyped(t, before, x.value, x.wallNs, x.sequence, x.generation);
      var next := AdvanceSeries(r.latches, t, x);
      forall k | 0 <= k < |next| ensures LatchTyped(next[k].latch) {
        if k < |r.latches| {
          assert r.latches[k] in r.latches;
        }
      }
    }
  }

  lemma IngestHeld(st: State, a: RegistryState.Authority, h: Handle, input: SampleInput, config: Config, clock: Clock,
                   s: Stamp, d: Doubles)
    requires Held(st, d) && AuthorityTyped(a) && StampTyped(s) && SampleInputTyped(input, d) && Exact(d, 0.0)
    requires ClockTyped(clock) && IngestBody(st, a, h, input, config, clock, s).Ok?
    ensures Held(IngestBody(st, a, h, input, config, clock, s).value, d)
  {
    hide Held, ModuleHeld, ModuleAt, Replayed, LiveThresholds, Latched, StoredSample, SampleTyped, TrimRing, PutModule,
         SampleInputTyped, Subsequence, LatchTyped, SampleSeries, CountOf, Exact;
    ReachedHeld(st, a, h, d);
    var r := st.modules[h.uid];
    HeldNumbers(r, d);
    var x := StoredSample(input, r, a, clock, s);
    StoredSampleTyped(input, r, a, clock, s, d);
    var ring := TrimRing(Pushed(r, x), config.maxSamplesPerSeries, config.maxSamplesPerModule);
    TrimRingSubsequence(Pushed(r, x), config.maxSamplesPerSeries, config.maxSamplesPerModule);
    Resurrection.SubsequenceMembers(ring.samples, r.samples + [x]);
    LatchesTyped(r, LiveThresholds(st.thresholds), x, d);
    var latches := Latched(r, LiveThresholds(st.thresholds), x).latches;
    var t := r.(latches := latches, samples := ring.samples, seriesCounts := ring.counts);
    RingHeld(r, x, t, d);
    PutHeld(st, h.uid, t, d);
    SameTables(PutModule(st, h.uid, t), IngestBody(st, a, h, input, config, clock, s).value, d) by {
      PutTables(st, h.uid, t, st.droppedSamples + ring.dropped);
    }
  }

  lemma PutTables(st: State, uid: nat, t: ModuleRecord, dropped: nat)
    ensures var u, next := PutModule(st, uid, t), PutModule(st, uid, t).(droppedSamples := dropped);
      && next.sources == u.sources && next.modules == u.modules && next.ports == u.ports
      && next.attachments == u.attachments && next.thresholds == u.thresholds && next.rules == u.rules
  {
  }

  lemma RingHeld(r: ModuleRecord, x: HealthSample, t: ModuleRecord, d: Doubles)
    requires ModuleHeld(r, d) && SampleTyped(x, d)
    requires t == r.(latches := t.latches, samples := t.samples, seriesCounts := t.seriesCounts)
    requires forall y :: y in t.samples ==> y in r.samples + [x]
    requires forall l :: l in t.latches ==> LatchTyped(l.latch)
    ensures ModuleHeld(t, d)
  {
    hide ClaimTyped, DeclarationTyped, SampleTyped, LatchTyped, EventTyped, ModuleCountersTyped;
    SameCounters(r, t);
  }

  lemma PublishThresholdHeld(st: State, a: RegistryState.Authority, t: Threshold, config: Config, s: Stamp, d: Doubles)
    requires Held(st, d) && AuthorityTyped(a) && StampTyped(s)
    requires ThresholdTyped(t.(source := 0, epoch := 0, generation := 0, sequence := 0), d)
    requires PublishThresholdBody(st, a, t, config, s).Ok?
    ensures Held(PublishThresholdBody(st, a, t, config, s).value, d)
  {
    hide SourcesHeld, ModulesHeld, PortsHeld, AttachmentsHeld, RulesHeld, Authorize, Exact, SameSubject, LiveThresholds,
         HistoryOf, FirstRetired;
    var published := t.(source := a.source, epoch := a.epoch, generation := s.generation, sequence := s.sequence,
                        live := true);
    assert ThresholdTyped(published, d);
    hide ThresholdTyped;
    var all := Retire(st.thresholds, t) + [ThresholdRecord(published, true)];
    forall x | x in all ensures ThresholdTyped(x.threshold, d) {
      var i :| 0 <= i < |all| && all[i] == x;
      if i < |st.thresholds| {
        assert st.thresholds[i] in st.thresholds;
      }
    }
    forall x | x in BoundHistory(all, t, config.maxClaimHistory) ensures x in all {
    }
  }

  lemma PublishRuleHeld(st: State, a: RegistryState.Authority, rule: Compatibility.Rule, config: Config, s: Stamp,
                        d: Doubles)
    requires Held(st, d) && AuthorityTyped(a) && StampTyped(s) && ContentTyped(ContentOf(rule), d)
    requires PublishRuleBody(st, a, rule, config, s).Ok?
    ensures Held(PublishRuleBody(st, a, rule, config, s).value, d)
  {
    hide SourcesHeld, ModulesHeld, PortsHeld, AttachmentsHeld, ThresholdsHeld, Authorize, ContentTyped;
    var id := st.nextRuleId % 0x1_0000_0000;
    var record := rule.(id := id, source := a.source, epoch := a.epoch, generation := s.generation,
                        sequence := s.sequence, live := true);
    assert ContentOf(record) == ContentOf(rule);
    assert RuleTyped(record, d);
  }

  lemma RetireRuleHeld(st: State, a: RegistryState.Authority, id: nat, s: Stamp, d: Doubles)
    requires Held(st, d) && StampTyped(s) && RetireRuleBody(st, a, id, s).Ok?
    ensures Held(RetireRuleBody(st, a, id, s).value, d)
  {
    hide SourcesHeld, ModulesHeld, PortsHeld, AttachmentsHeld, ThresholdsHeld, Authorize, ContentTyped;
    var record := st.rules[id].(live := false, generation := s.generation, sequence := s.sequence);
    assert ContentOf(record) == ContentOf(st.rules[id]);
    assert RuleTyped(record, d);
  }

  // ----- One call, and runs -----

  lemma BodyHeld(st: State, call: Call, config: Config, s: Stamp, d: Doubles)
    requires Held(st, d) && OpTyped(call.op, d) && ClockTyped(call.clock) && Exact(d, 0.0) && StampTyped(s)
    requires 1 <= st.nextSourceId && 1 <= st.nextModuleUid && Word(st.nextModuleUid) && s.now == call.clock.wallNs
    requires CheckCall(call.op, config, call.clock.wallNs).Ok? && Body(st, call, config, s).Ok?
    ensures Held(Body(st, call, config, s).value, d)
  {
    hide Held, StampTyped, ClockTyped, AuthorityTyped, Exact, ValueTyped, ContentTyped, ThresholdTyped,
         SampleInputTyped, IsKeyText, RegisterSourceBody, RegisterModuleBody, UpdateIdentityBody, PublishCapabilityBody,
         PublishPortCapabilityBody, AttachBody, DetachBody, IngestBody, PublishThresholdBody, PublishRuleBody,
         RetireRuleBody, TransitionBody, ReconcileBody, CheckProvenance, CheckIdentity, CheckSample, ValidateThreshold,
         Utf8.Valid, NoRepeats;
    match call.op
    case RegisterSource(name, instanceId, description) => SourceHeld(st, name, instanceId, description, config, s, d);
    case RegisterModule(key, identity, intent, _, _, a) =>
      RegisterModuleHeld(st, key, identity, intent, a, config, s, d);
    case UpdateIdentity(a, h, v, _) => UpdateIdentityHeld(st, a, h, v, config, s, d);
    case PublishCapability(a, h, key, subkey, value, _, _) =>
      PublishCapabilityHeld(st, a, h, key, subkey, value, config, s, d);
    case PublishPortCapability(a, port, key, subkey, value, _, _) =>
      PublishPortHeld(st, a, port, key, subkey, value, config, s, d);
    case Attach(a, h, slot, portIndex) => AttachHeld(st, a, h, slot, portIndex, config, s, d);
    case Detach(a, slot) => DetachHeld(st, a, slot, config, s, d);
    case IngestHealth(a, h, input) => IngestHeld(st, a, h, input, config, call.clock, s, d);
    case PublishThreshold(a, t) => PublishThresholdHeld(st, a, t, config, s, d);
    case PublishRule(a, rule, _) => PublishRuleHeld(st, a, rule, config, s, d);
    case RetireRule(a, id) => RetireRuleHeld(st, a, id, s, d);
    case Transition(a, h, to, _) => TransitionHeld(st, a, h, to, config, s, d);
    case Reconcile(a, h) => ReconcileHeld(st, a, h, config, call.clock, s, d);
  }

  lemma CountersOfGood(st: State)
    requires Good(st)
    ensures 1 <= st.nextSourceId && 1 <= st.nextModuleUid
  {
  }

  lemma AttemptHeld(st: State, call: Call, config: Config, d: Doubles)
    requires Good(st) && Held(st, d) && OpTyped(call.op, d) && ClockTyped(call.clock) && Exact(d, 0.0)
    requires Attempt(st, call, config).Ok? && HeaderStorable(HeaderOf(st))
    requires HeaderStorable(HeaderOf(Attempt(st, call, config).value))
    ensures Held(Attempt(st, call, config).value, d)
  {
    hide Good, Held, Attempt, Body, CheckCall, OpTyped, Exact;
    CommitParts(st, call, config);
    CommitAdvances(st, call, config);
    CountersOfGood(st);
    var begun, s := st.(nextSequence := st.nextSequence + 1), StampOf(st, call);
    assert Held(begun, d) by { SameTables(st, begun, d); }
    BodyHeld(begun, call, config, s, d);
    SameTables(Body(begun, call, config, s).value, Attempt(st, call, config).value, d);
  }

  /** The counters stay below 2^63 the whole run. */
  ghost predicate CountersFit(calls: seq<Call>, config: Config) {
    forall i :: 0 <= i <= |calls| ==> HeaderStorable(HeaderOf(RunCalls(EMPTY_STATE, calls[..i], config)))
  }

  lemma {:induction false} RunHeld(calls: seq<Call>, config: Config, d: Doubles)
    requires CallsTyped(calls, d) && Exact(d, 0.0) && CountersFit(calls, config)
    ensures Held(RunCalls(EMPTY_STATE, calls, config), d)
  {
    hide Good, Held, Attempt, OpTyped, ClockTyped, HeaderStorable, Exact;
    if calls == [] {
      EmptyHeld(d);
    } else {
      var front, call := calls[..|calls| - 1], calls[|calls| - 1];
      forall i | 0 <= i <= |front| ensures HeaderStorable(HeaderOf(RunCalls(EMPTY_STATE, front[..i], config))) {
        assert front[..i] == calls[..i];
      }
      RunHeld(front, config, d);
      var before := RunCalls(EMPTY_STATE, front, config);
      EmptyIsGood();
      RunKeepsInvariant(EMPTY_STATE, front, config);
      assert HeaderStorable(HeaderOf(before)) by { assert front[..|front|] == front; }
      assert calls[..|calls|] == calls;
      if Attempt(before, call, config).Ok? {
        AttemptHeld(before, call, config, d);
      }
    }
  }

  lemma EmptyHeld(d: Doubles)
    ensures Held(EMPTY_STATE, d)
  {
  }

  // ----- Saves of a run -----

  lemma SavedModuleTyped(r: ModuleRecord, t: ModuleRecord, d: Doubles)
    requires ModuleHeld(r, d) && r.lifecycle != [] && SavedModule(r, t)
    ensures ModuleTyped(t, d)
  {
    hide ClaimTyped, DeclarationTyped, SampleTyped, LatchTyped, EventTyped, ModuleCountersTyped, Recount;
    SameMembers(t.claims, r.claims);
    SameMembers(t.declarations, r.declarations);
    SameMembers(t.samples, r.samples);
    SameMembers(t.lifecycle, r.lifecycle);
    SameCounters(r, t);
    assert |multiset(t.lifecycle)| == |t.lifecycle| && |multiset(r.lifecycle)| == |r.lifecycle|;
  }

  lemma HistoriesKept(st: State, uid: nat, n: nat)
    requires LifecyclePath.PathsOk(st.modules, n) && uid in st.modules
    ensures st.modules[uid].lifecycle != []
  {
    hide LifecyclePath.Path, LifecyclePath.Timed;
  }

  lemma SavedRecords(st: State, t: State, l: Listing, r: Record, d: Doubles)
    requires Held(st, d) && HeaderStorable(HeaderOf(st)) && Saved(st, t) && ListingOf(l, t)
    requires forall uid :: uid in st.modules ==> st.modules[uid].lifecycle != []
    requires r in StateRecords(t, l)
    ensures TypedOf(r, d)
  {
    hide ModuleHeld, ModuleTyped, SavedModule, RegisteredForm, PortTyped, AttachmentTyped, ThresholdTyped, RuleTyped,
         HeaderStorable;
    match r
    case ModuleEntry(m) =>
      var uid :| uid in t.modules && t.modules[uid] == m;
      assert SavedModule(st.modules[uid], m);
      SavedModuleTyped(st.modules[uid], m, d);
    case _ =>
  }

  /**
   * Every run from an empty registry whose counters stay below 2^63, and every save of it: the intact file reads back
   * to the saved state exactly when all its texts are UTF-8, its numbers in range and its records within the limits.
   */
  lemma SavesReadBackExactly(calls: seq<Call>, config: Config, st: State, t: State, l: Listing, o: Options,
                             d: Doubles, crc: RecordStream.Checksum)
    requires CallsTyped(calls, d) && Exact(d, 0.0) && CountersFit(calls, config) && config.maxLifecycleHistory >= 1
    requires st == RunCalls(EMPTY_STATE, calls, config) && Saved(st, t) && ListingOf(l, t) && FileFits(t, l, d, crc)
    ensures AllTyped(t, l, d)
    ensures ParseSnapshot(FileOf(t, l, d, crc), o, DocumentCodec(d), crc)
         == Ok(Parsed(t, false, 0, 1 + SnapshotRecovery.Total(t, l), StreamOf(t, l, d, crc)))
       <==> AllReadBack(t, l, d) && AllFit(t, l, d)
  {
    hide Good, Held, Saved, ListingOf, StateRecords, RunCalls, HeaderStorable, TypedOf, FileFits, FileOf, StreamOf,
         DocumentCodec, ParseSnapshot, AllReadBack, AllFit, LifecyclePath.PathsOk, CallsTyped, Exact,
         SnapshotRecovery.Total;
    RunHeld(calls, config, d);
    LifecyclePath.NoPaths();
    EmptyIsGood();
    LifecyclePath.HistoryIsAPath(EMPTY_STATE, calls, config);
    StartedAtOne(calls, config);
    SavedIsGood(st, t);
    SavedCounters(st, t);
    assert HeaderStorable(HeaderOf(st)) by { assert calls[..|calls|] == calls; }
    forall uid | uid in st.modules ensures st.modules[uid].lifecycle != [] {
      HistoriesKept(st, uid, st.nextSequence);
    }
    forall r | r in StateRecords(t, l) ensures TypedOf(r, d) {
      SavedRecords(st, t, l, r, d);
    }
    FileReadsBackExactly(t, l, o, d, crc);
  }
}
