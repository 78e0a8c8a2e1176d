/** Every mutation body keeps the registry invariant. */
module InvariantSteps {
  import opened Bytes
  import opened Ordering
  import A = Authority
  import opened Consensus
  import opened Capability
  import opened Compatibility
  import opened Lifecycle
  import opened Latch
  import opened Health
  import opened HealthReport
  import opened Trim
  import opened Samples
  import opened RegistryState
  import opened Validation
  import opened Mutations
  import opened RegistryInvariant

  // ----- Capabilities -----

  lemma RecordWithDeclarations(r: ModuleRecord, declarations: seq<Declaration>, uid: nat, e: map<nat, nat>, n: nat)
    requires RecordOk(r, uid, e, n) && ClaimsOk(declarations, uid, r.incarnation, [], e, n)
    ensures RecordOk(r.(declarations := declarations), uid, e, n)
  {
    hide ClaimsOk, SamplesOk, EventsOk;
  }

  lemma PublishCapabilityKeeps(st: State, a: RegistryState.Authority, h: Handle, key: nat, subkey: Text,
                               value: CapabilityValue, config: Config, s: Stamp)
    requires Inv(st, s.sequence)
    requires PublishCapabilityBody(st, a, h, key, subkey, value, config, s).Ok?
    ensures Inv(PublishCapabilityBody(st, a, h, key, subkey, value, config, s).value, s.sequence + 1)
  {
    hide ModuleAt, Inv, RecordOk, ClaimsOk, ClaimOk, Known, NewClaim, TrimList, PutModule;
    var q := s.sequence;
    var e := Epochs(st.sources);
    InvLater(st, q, q + 1);
    ReachedModule(st, a, h, q);
    var r := st.modules[h.uid];
    OwnLists(r, h.uid, e, q);
    RecordLater(r, h.uid, e, e, q, q + 1) by { LaterSelf(e); }
    var d := NewClaim(key, subkey, value, a, r.uid, r.incarnation, [], s);
    NewClaimOk(key, subkey, value, a, r.uid, r.incarnation, [], s, e);
    PushOk(r.declarations, d, h.uid, r.incarnation, [], e, q);
    var pushed := r.declarations + [d];
    TrimListOk(OfModule, pushed, config.maxDeclarationsPerModule, config.maxClaimHistory, h.uid, r.incarnation, [], e,
               q + 1);
    var kept := TrimList(OfModule, pushed, config.maxDeclarationsPerModule, config.maxClaimHistory).value;
    RecordWithDeclarations(r, kept, h.uid, e, q + 1);
    PutKeeps(st, h.uid, r.(declarations := kept), q + 1);
  }

  lemma ShrinkOk(s: seq<Declaration>, maxTotal: nat, port: Text, e: map<nat, nat>, n: nat)
    requires ClaimsOk(s, 0, 0, port, e, n) && Shrink(OfPort, s, maxTotal).Ok?
    ensures ClaimsOk(Shrink(OfPort, s, maxTotal).value, 0, 0, port, e, n)
    ensures Subsequence(Shrink(OfPort, s, maxTotal).value, s)
  {
    hide ClaimsOk, Shrink, OneSubject, Orderly, UpTo, Faithful;
    ListsAreTrimmable(OfPort, s, 0, 0, port, e, n);
    ShrinkFaithful(OfPort, s, maxTotal, 0);
    FaithfulIsSubsequence(OfPort, s, Shrink(OfPort, s, maxTotal).value, 0);
    SubsequenceOk(Shrink(OfPort, s, maxTotal).value, s, 0, 0, port, e, n);
  }

  lemma PublishOnPortOk(s: seq<Declaration>, d: Declaration, max: U32, port: Text, e: map<nat, nat>, q: nat)
    requires ClaimsOk(s, 0, 0, port, e, q)
    requires ClaimOk(d, 0, 0, port, e, q + 1) && d.sequence == q && d.incarnation == 0
    requires PublishOnPort(s, d, max).Ok?
    ensures ClaimsOk(PublishOnPort(s, d, max).value, 0, 0, port, e, q + 1)
  {
    hide ClaimsOk, ClaimOk, Shrink, OneBelow;
    var room := if |s| >= max then Shrink(OfPort, s, OneBelow(max)).value else s;
    if |s| >= max {
      ShrinkOk(s, OneBelow(max), port, e, q);
    }
    PushOk(room, d, 0, 0, port, e, q);
    ShrinkOk(room + [d], max, port, e, q + 1);
  }

  lemma PortPutKeeps(st: State, port: Text, r: PortRecord, n: nat)
    requires Inv(st, n)
    requires r.key == port && r.sequence < n && ClaimsOk(r.declarations, 0, 0, port, Epochs(st.sources), n)
    ensures Inv(st.(ports := st.ports[port := r]), n)
  {
    hide ClaimsOk, RecordsOk, AttachmentsOk, ThresholdsOk, RulesOk, SourcesOk, ModuleIndexOk;
  }

  lemma PortAt(st: State, port: Text, n: nat)
    requires Inv(st, n) && port in st.ports
    ensures st.ports[port].key == port && st.ports[port].sequence < n
    ensures ClaimsOk(st.ports[port].declarations, 0, 0, port, Epochs(st.sources), n)
  {
    hide ClaimsOk;
  }

  lemma NothingOk<V>(uid: nat, incarnation: nat, port: Text, e: map<nat, nat>, n: nat)
    ensures ClaimsOk<V>([], uid, incarnation, port, e, n)
  {
  }

  lemma PublishPortKeeps(st: State, a: RegistryState.Authority, port: Text, key: nat, subkey: Text,
                         value: CapabilityValue, config: Config, s: Stamp)
    requires Inv(st, s.sequence)
    requires PublishPortCapabilityBody(st, a, port, key, subkey, value, config, s).Ok?
    ensures Inv(PublishPortCapabilityBody(st, a, port, key, subkey, value, config, s).value, s.sequence + 1)
  {
    hide Authorize, Inv, ClaimsOk, ClaimOk, Known, NewClaim, PublishOnPort;
    var q := s.sequence;
    var e := Epochs(st.sources);
    InvLater(st, q, q + 1);
    KnownAuthority(st, a, q, q + 1);
    var r := if port in st.ports then st.ports[port] else PortRecord(port, s.generation, s.sequence, s.now, []);
    if port in st.ports {
      PortAt(st, port, q);
    } else {
      NothingOk<CapabilityValue>(0, 0, port, e, q);
    }
    var d := NewClaim(key, subkey, value, a, 0, 0, port, s);
    NewClaimOk(key, subkey, value, a, 0, 0, port, s, e);
    PublishOnPortOk(r.declarations, d, config.maxDeclarationsPerPort, port, e, q);
    var kept := PublishOnPort(r.declarations, d, config.maxDeclarationsPerPort).value;
    PortPutKeeps(st, port, r.(declarations := kept), q + 1);
  }

  // ----- Sources -----

  lemma EpochsAdvance(sources: map<nat, SourceRecord>, id: nat, r: SourceRecord)
    requires id in sources ==> sources[id].epoch <= r.epoch
    ensures Later(Epochs(sources), Epochs(sources[id := r]))
  {
  }

  lemma RenewedSourcesOk(sources: map<nat, SourceRecord>, byName: map<Text, nat>, nextId: nat, r: SourceRecord, q: nat)
    requires SourcesOk(sources, byName, nextId, q) && r.id in sources
    requires r.name == sources[r.id].name && r.epoch >= 1 && r.sequence <= q
    ensures SourcesOk(sources[r.id := r], byName, nextId, q + 1)
  {
  }

  lemma NewSourceOk(sources: map<nat, SourceRecord>, byName: map<Text, nat>, r: SourceRecord, q: nat)
    requires SourcesOk(sources, byName, r.id, q) && r.name !in byName && r.epoch >= 1 && r.sequence <= q
    ensures SourcesOk(sources[r.id := r], byName[r.name := r.id], r.id + 1, q + 1)
    ensures r.id !in sources
  {
  }

  lemma InvFromTables(st: State, next: State, n: nat, m: nat)
    requires Inv(st, n) && n <= m && Later(Epochs(st.sources), Epochs(next.sources))
    requires SourcesOk(next.sources, next.sourceIdByName, next.nextSourceId, m)
    requires next == st.(sources := next.sources, sourceIdByName := next.sourceIdByName,
                         nextSourceId := next.nextSourceId)
    ensures Inv(next, m)
  {
    hide RecordsOk, PortsOk, AttachmentsOk, ThresholdsOk, RulesOk, ModuleIndexOk, Later, Epochs, SourcesOk;
    TablesLater(st, Epochs(st.sources), Epochs(next.sources), n, m);
  }

  lemma SourceFound(st: State, name: Text, n: nat)
    requires Inv(st, n) && name in st.sourceIdByName
    ensures st.sourceIdByName[name] in st.sources
    ensures var r := st.sources[st.sourceIdByName[name]];
      r.id == st.sourceIdByName[name] && r.epoch >= 1 && r.name == name
  {
    hide RecordsOk, PortsOk, AttachmentsOk, ThresholdsOk, RulesOk, ModuleIndexOk;
  }

  lemma SourcesOf(st: State, n: nat)
    requires Inv(st, n)
    ensures SourcesOk(st.sources, st.sourceIdByName, st.nextSourceId, n)
  {
    hide SourcesOk;
  }

  lemma RegisterSourceKeeps(st: State, name: Text, instanceId: Text, description: Text, config: Config, s: Stamp)
    requires Inv(st, s.sequence)
    requires RegisterSourceBody(st, name, instanceId, description, config, s).Ok?
    ensures Inv(RegisterSourceBody(st, name, instanceId, description, config, s).value, s.sequence + 1)
    ensures Later(Epochs(st.sources), Epochs(RegisterSourceBody(st, name, instanceId, description, config,
                                                                s).value.sources))
  {
    hide Inv, Later, Epochs, SourcesOk;
    var q := s.sequence;
    var next := RegisterSourceBody(st, name, instanceId, description, config, s).value;
    SourcesOf(st, q);
    if name in st.sourceIdByName {
      SourceFound(st, name, q);
      var r := st.sources[st.sourceIdByName[name]];
      EpochsAdvance(st.sources, r.id, next.sources[r.id]);
      RenewedSourcesOk(st.sources, st.sourceIdByName, st.nextSourceId, next.sources[r.id], q);
    } else {
      var r := SourceRecord(st.nextSourceId, name, 1, instanceId, description, s.generation, s.sequence, s.now);
      NewSourceOk(st.sources, st.sourceIdByName, r, q);
      EpochsAdvance(st.sources, st.nextSourceId, r);
    }
    InvFromTables(st, next, q, q + 1);
  }

  // ----- Lifecycle -----

  lemma EventOfOk(from: LifecycleState, to: LifecycleState, i: nat, incarnation: nat, a: RegistryState.Authority,
                  s: Stamp, events: seq<LifecycleEvent>, e: map<nat, nat>)
    requires EventsOk(events, i, e, s.sequence + 1) && i <= incarnation
    requires Known(e, a.source, a.epoch, s.sequence, s.sequence + 1)
    ensures EventsOk(events + [EventOf(from, to, incarnation, a, s)], incarnation, e, s.sequence + 1)
  {
  }

  lemma LastEventsOk(events: seq<LifecycleEvent>, max: nat, incarnation: nat, e: map<nat, nat>, n: nat)
    requires EventsOk(events, incarnation, e, n)
    ensures EventsOk(LastEvents(events, max), incarnation, e, n)
  {
  }

  lemma RecordWithEvents(r: ModuleRecord, t: ModuleRecord, uid: nat, e: map<nat, nat>, n: nat)
    requires RecordOk(r, uid, e, n) && EventsOk(t.lifecycle, t.incarnation, e, n)
    requires t.uid == r.uid && t.incarnation == r.incarnation && t.claims == r.claims
    requires t.declarations == r.declarations && t.samples == r.samples
    ensures RecordOk(t, uid, e, n)
  {
    hide ClaimsOk, SamplesOk, EventsOk;
  }

  lemma MovedOk(r: ModuleRecord, to: LifecycleState, a: RegistryState.Authority, s: Stamp, uid: nat, e: map<nat, nat>)
    requires RecordOk(r, uid, e, s.sequence + 1) && Known(e, a.source, a.epoch, s.sequence, s.sequence + 1)
    ensures RecordOk(Advanced(r, to, a, s), uid, e, s.sequence + 1)
    ensures Advanced(r, to, a, s).incarnation == r.incarnation && Advanced(r, to, a, s).key == r.key
  {
    hide RecordOk, EventsOk, Known;
    OwnLists(r, uid, e, s.sequence + 1);
    EventOfOk(r.state, to, r.incarnation, r.incarnation, a, s, r.lifecycle, e);
    RecordWithEvents(r, Advanced(r, to, a, s), uid, e, s.sequence + 1);
  }

  lemma CappedOk(r: ModuleRecord, config: Config, uid: nat, e: map<nat, nat>, n: nat)
    requires RecordOk(r, uid, e, n)
    ensures RecordOk(Capped(r, config), uid, e, n)
    ensures Capped(r, config).incarnation == r.incarnation && Capped(r, config).key == r.key
  {
    hide RecordOk, EventsOk;
    OwnLists(r, uid, e, n);
    LastEventsOk(r.lifecycle, config.maxLifecycleHistory, r.incarnation, e, n);
    RecordWithEvents(r, Capped(r, config), uid, e, n);
  }

  /** Moving one module and bounding its history. */
  lemma MoveKeeps(st: State, uid: nat, to: LifecycleState, a: RegistryState.Authority, config: Config, s: Stamp)
    requires Inv(st, s.sequence) && uid in st.modules && Authorize(st, a).Ok?
    ensures Inv(PutModule(st, uid, Capped(Advanced(st.modules[uid], to, a, s), config)), s.sequence + 1)
  {
    hide Inv, RecordOk, Advanced, Capped, Known, Authorize, PutModule;
    var q, e, r := s.sequence, Epochs(st.sources), st.modules[uid];
    InvLater(st, q, q + 1);
    RecordAt(st, uid, q + 1);
    KnownAuthority(st, a, q, q + 1);
    MovedOk(r, to, a, s, uid, e);
    CappedOk(Advanced(r, to, a, s), config, uid, e, q + 1);
    PutKeeps(st, uid, Capped(Advanced(r, to, a, s), config), q + 1);
  }

  lemma RecordAt(st: State, uid: nat, n: nat)
    requires Inv(st, n) && uid in st.modules
    ensures RecordOk(st.modules[uid], uid, Epochs(st.sources), n)
  {
    hide RecordOk;
  }

  lemma ReachedIsAuthorized(st: State, a: RegistryState.Authority, h: Handle)
    requires ModuleAt(st, a, h).Ok?
    ensures Authorize(st, a).Ok? && h.uid in st.modules && ModuleAt(st, a, h).value == st.modules[h.uid]
    ensures st.modules[h.uid].incarnation == h.incarnation
  {
  }

  lemma TransitionKeeps(st: State, a: RegistryState.Authority, h: Handle, to: LifecycleState, config: Config, s: Stamp)
    requires Inv(st, s.sequence) && TransitionBody(st, a, h, to, config, s).Ok?
    ensures Inv(TransitionBody(st, a, h, to, config, s).value, s.sequence + 1)
  {
    hide Inv, ModuleAt, Advanced, Capped, PutModule, TransitionAllowed;
    ReachedIsAuthorized(st, a, h);
    MoveKeeps(st, h.uid, to, a, config, s);
  }

  lemma ReconcileKeeps(st: State, a: RegistryState.Authority, h: Handle, config: Config, clock: Clock, s: Stamp)
    requires Inv(st, s.sequence) && ReconcileBody(st, a, h, config, clock, s).Ok?
    ensures Inv(ReconcileBody(st, a, h, config, clock, s).value, s.sequence + 1)
  {
    hide Inv, ModuleAt, Advanced, Capped, PutModule, TransitionAllowed, ReportOf, EvidenceOf, ReconcileTarget;
    ReachedIsAuthorized(st, a, h);
    InvLater(st, s.sequence, s.sequence + 1);
    var report := ReportOf(EvidenceOf(st, st.modules[h.uid], config, clock.reportWallNs));
    MoveKeeps(st, h.uid, ReconcileTarget(st.modules[h.uid].state, report), a, config, s);
  }

  // ----- Attachments -----

  lemma AttachmentPutKeeps(st: State, slot: Text, t: AttachmentRecord, n: nat)
    requires Inv(st, n)
    requires t.slot == slot && t.uid in st.modules && t.incarnation <= st.modules[t.uid].incarnation
    requires Known(Epochs(st.sources), t.source, t.epoch, t.sequence, n)
    ensures Inv(st.(attachments := st.attachments[slot := t]), n)
  {
    hide RecordsOk, PortsOk, ThresholdsOk, RulesOk, SourcesOk, ModuleIndexOk, Known;
  }

  lemma AttachKeeps(st: State, a: RegistryState.Authority, h: Handle, slot: Text, portIndex: nat, config: Config,
                    s: Stamp)
    requires Inv(st, s.sequence) && AttachBody(st, a, h, slot, portIndex, config, s).Ok?
    ensures Inv(AttachBody(st, a, h, slot, portIndex, config, s).value, s.sequence + 1)
  {
    hide Inv, ModuleAt, Advanced, Capped, TransitionAllowed, Known, LiveSlots, HeldBy, Authorize, RecordOk;
    var q, r := s.sequence, st.modules;
    InvLater(st, q, q + 1);
    ReachedIsAuthorized(st, a, h);
    KnownAuthority(st, a, q, q + 1);
    var record := st.modules[h.uid];
    if !HeldBy(st.attachments, slot, record) {
      var moved := if record.state != Attached then Capped(Advanced(record, Attached, a, s), config) else record;
      RecordAt(st, h.uid, q + 1);
      OwnUid(record, h.uid, Epochs(st.sources), q + 1);
      if record.state != Attached {
        MoveKeeps(st, h.uid, Attached, a, config, s);
        MovedIncarnation(record, Attached, a, s, config);
      } else {
        PutSame(st, h.uid);
      }
      AttachmentPutKeeps(PutModule(st, h.uid, moved), slot,
                         AttachmentRecord(slot, portIndex, record.uid, record.incarnation, a.source, a.epoch,
                                          s.generation, s.sequence, s.now, true), q + 1);
    }
  }

  lemma OwnUid(r: ModuleRecord, uid: nat, e: map<nat, nat>, n: nat)
    requires RecordOk(r, uid, e, n)
    ensures r.uid == uid
  {
  }

  lemma PutSame(st: State, uid: nat)
    requires uid in st.modules
    ensures PutModule(st, uid, st.modules[uid]) == st
  {
    assert st.modules[uid := st.modules[uid]] == st.modules;
  }

  lemma MovedIncarnation(r: ModuleRecord, to: LifecycleState, a: RegistryState.Authority, s: Stamp, config: Config)
    ensures Capped(Advanced(r, to, a, s), config).incarnation == r.incarnation
    ensures Capped(Advanced(r, to, a, s), config).uid == r.uid
  {
  }

  lemma FreeKeeps(st: State, slot: Text, n: nat)
    requires Inv(st, n) && slot in st.attachments
    ensures Inv(st.(attachments := st.attachments[slot := st.attachments[slot].(live := false)]), n)
  {
    hide RecordsOk, PortsOk, ThresholdsOk, RulesOk, SourcesOk, ModuleIndexOk, Known;
  }

  lemma DetachKeeps(st: State, a: RegistryState.Authority, slot: Text, config: Config, s: Stamp)
    requires Inv(st, s.sequence) && DetachBody(st, a, slot, config, s).Ok?
    ensures Inv(DetachBody(st, a, slot, config, s).value, s.sequence + 1)
  {
    hide Inv, Advanced, Capped, TransitionAllowed, Authorize, ImpliesAttachment, PutModule;
    var attachment := st.attachments[slot];
    var freed := st.(attachments := st.attachments[slot := attachment.(live := false)]);
    FreeKeeps(st, slot, s.sequence);
    InvLater(freed, s.sequence, s.sequence + 1);
    assert Authorize(freed, a).Ok? by { SameSources(st, freed, a); }
    if attachment.uid in st.modules {
      MoveKeeps(freed, attachment.uid, Removed, a, config, s);
    }
  }

  lemma SameSources(st: State, next: State, a: RegistryState.Authority)
    requires st.sources == next.sources
    ensures Authorize(st, a) == Authorize(next, a)
  {
  }

  // ----- Rules and thresholds -----

  lemma RulePutKeeps(st: State, nextId: nat, r: Rule, n: nat)
    requires Inv(st, n) && st.nextRuleId <= nextId && r.id < nextId
    requires Known(Epochs(st.sources), r.source, r.epoch, r.sequence, n)
    ensures Inv(st.(nextRuleId := nextId, rules := st.rules[r.id := r]), n)
  {
    hide RecordsOk, PortsOk, ThresholdsOk, AttachmentsOk, SourcesOk, ModuleIndexOk, Known;
  }

  lemma PublishRuleKeeps(st: State, a: RegistryState.Authority, rule: Rule, config: Config, s: Stamp)
    requires Inv(st, s.sequence) && PublishRuleBody(st, a, rule, config, s).Ok?
    ensures Inv(PublishRuleBody(st, a, rule, config, s).value, s.sequence + 1)
  {
    hide Inv, Authorize, Known;
    InvLater(st, s.sequence, s.sequence + 1);
    KnownAuthority(st, a, s.sequence, s.sequence + 1);
    var id := st.nextRuleId % 0x1_0000_0000;
    RulePutKeeps(st, st.nextRuleId + 1,
                 rule.(id := id, source := a.source, epoch := a.epoch, generation := s.generation,
                       sequence := s.sequence, live := true), s.sequence + 1);
  }

  lemma RuleAt(st: State, id: nat, n: nat)
    requires Inv(st, n) && id in st.rules
    ensures st.rules[id].id == id && id < st.nextRuleId
    ensures st.rules[id].source in Epochs(st.sources) && st.rules[id].epoch <= Epochs(st.sources)[st.rules[id].source]
  {
  }

  lemma RetireRuleKeeps(st: State, a: RegistryState.Authority, id: nat, s: Stamp)
    requires Inv(st, s.sequence) && RetireRuleBody(st, a, id, s).Ok?
    ensures Inv(RetireRuleBody(st, a, id, s).value, s.sequence + 1)
  {
    hide Inv, Authorize;
    InvLater(st, s.sequence, s.sequence + 1);
    RuleAt(st, id, s.sequence);
    RulePutKeeps(st, st.nextRuleId,
                 st.rules[id].(live := false, generation := s.generation, sequence := s.sequence), s.sequence + 1);
  }

  lemma RetireOk(ts: seq<ThresholdRecord>, t: Threshold, e: map<nat, nat>, n: nat)
    requires ThresholdsOk(ts, e, n)
    ensures ThresholdsOk(Retire(ts, t), e, n)
    ensures forall i :: 0 <= i < |Retire(ts, t)| && Retire(ts, t)[i].live ==>
            !SameSubject(Retire(ts, t)[i].threshold, t)
  {
    hide Known;
    var r := Retire(ts, t);
    forall x | x in r ensures Known(e, x.threshold.source, x.threshold.epoch, x.threshold.sequence, n) {
      var i :| 0 <= i < |r| && r[i] == x;
      assert ts[i] in ts;
    }
  }

  lemma ThresholdPushOk(ts: seq<ThresholdRecord>, t: Threshold, e: map<nat, nat>, n: nat)
    requires ThresholdsOk(ts, e, n)
    requires forall i :: 0 <= i < |ts| && ts[i].live ==> !SameSubject(ts[i].threshold, t)
    requires Known(e, t.source, t.epoch, t.sequence, n)
    ensures ThresholdsOk(ts + [ThresholdRecord(t, true)], e, n)
  {
    hide Known;
  }

  lemma BoundHistoryOk(ts: seq<ThresholdRecord>, t: Threshold, max: nat, e: map<nat, nat>, n: nat)
    requires ThresholdsOk(ts, e, n)
    ensures ThresholdsOk(BoundHistory(ts, t, max), e, n)
  {
    hide Known, FirstRetired, HistoryOf;
    var i := FirstRetired(ts, t);
    if i < |ts| {
      var r := Erase(ts, i);
      forall x | x in r ensures x in ts {}
      forall j, k | 0 <= j < k < |r| && r[j].live && r[k].live ensures !SameSubject(r[j].threshold, r[k].threshold) {
        assert r[j] == ts[if j < i then j else j + 1] && r[k] == ts[if k < i then k else k + 1];
      }
    }
  }

  lemma ThresholdsPutKeeps(st: State, ts: seq<ThresholdRecord>, n: nat)
    requires Inv(st, n) && ThresholdsOk(ts, Epochs(st.sources), n)
    ensures Inv(st.(thresholds := ts), n)
  {
    hide RecordsOk, PortsOk, ThresholdsOk, AttachmentsOk, SourcesOk, ModuleIndexOk, RulesOk;
  }

  lemma PublishThresholdKeeps(st: State, a: RegistryState.Authority, t: Threshold, config: Config, s: Stamp)
    requires Inv(st, s.sequence) && PublishThresholdBody(st, a, t, config, s).Ok?
    ensures Inv(PublishThresholdBody(st, a, t, config, s).value, s.sequence + 1)
  {
    hide Inv, Authorize, Known, Retire, ThresholdsOk, LiveThresholds, BoundHistory;
    var q, e := s.sequence, Epochs(st.sources);
    InvLater(st, q, q + 1);
    KnownAuthority(st, a, q, q + 1);
    ThresholdsOf(st, q + 1);
    RetireOk(st.thresholds, t, e, q + 1);
    var published := t.(source := a.source, epoch := a.epoch, generation := s.generation, sequence := s.sequence,
                        live := true);
    ThresholdPushOk(Retire(st.thresholds, t), published, e, q + 1);
    var pushed := Retire(st.thresholds, t) + [ThresholdRecord(published, true)];
    BoundHistoryOk(pushed, t, config.maxClaimHistory, e, q + 1);
    ThresholdsPutKeeps(st, BoundHistory(pushed, t, config.maxClaimHistory), q + 1);
  }

  lemma ThresholdsOf(st: State, n: nat)
    requires Inv(st, n)
    ensures ThresholdsOk(st.thresholds, Epochs(st.sources), n)
  {
    hide ThresholdsOk;
  }

  // ----- Telemetry -----

  lemma SamplePushOk(s: seq<HealthSample>, x: HealthSample, uid: nat, incarnation: nat, e: map<nat, nat>, q: nat)
    requires SamplesOk(s, uid, incarnation, e, q)
    requires x.moduleUid == uid && x.incarnation == incarnation && x.sequence == q
    requires Known(e, x.source, x.epoch, q, q + 1)
    ensures SamplesOk(s + [x], uid, incarnation, e, q + 1)
  {
    var t := s + [x];
    forall i, j | 0 <= i < j < |t| ensures t[i].sequence < t[j].sequence && t[i].incarnation <= t[j].incarnation {
      assert t[i] in s;
    }
  }

  lemma SamplesSubsequence(a: seq<HealthSample>, b: seq<HealthSample>, uid: nat, incarnation: nat, e: map<nat, nat>,
                           n: nat)
    requires Subsequence(a, b) && SamplesOk(b, uid, incarnation, e, n)
    ensures SamplesOk(a, uid, incarnation, e, n)
  {
    hide SampleOk;
    var f :| Picks(a, b, f);
    forall x | x in a ensures SampleOk(x, uid, incarnation, e, n) {
      var i :| 0 <= i < |a| && a[i] == x;
      assert b[f[i]] in b;
    }
    forall i, j | 0 <= i < j < |a| ensures a[i].sequence < a[j].sequence && a[i].incarnation <= a[j].incarnation {
      assert f[i] < f[j];
      assert a[i] == b[f[i]] && a[j] == b[f[j]];
    }
  }

  lemma {:induction false} TrimSeriesSubsequence(r: Ring, code: nat, limit: nat)
    ensures Subsequence(TrimSeries(r, code, limit).samples, r.samples)
    decreases CountOf(r.counts, code)
  {
    hide FirstOf, Subsequence;
    var count := CountOf(r.counts, code);
    var i := FirstOf(r.samples, code);
    if count > limit && i < |r.samples| {
      var next := Ring(Erase(r.samples, i), r.counts[code := count - 1], r.dropped + 1);
      TrimSeriesSubsequence(next, code, limit);
      SubsequenceErase(r.samples, i);
      SubsequenceTransitive(TrimSeries(r, code, limit).samples, next.samples, r.samples);
    } else {
      SubsequenceSelf(r.samples);
    }
  }

  lemma {:induction false} TrimAllSubsequence(r: Ring, codes: seq<nat>, limit: nat)
    ensures Subsequence(TrimAllSeries(r, codes, limit).samples, r.samples)
  {
    hide TrimSeries, Subsequence;
    if codes == [] {
      SubsequenceSelf(r.samples);
    } else {
      var before := TrimAllSeries(r, codes[..|codes| - 1], limit);
      TrimAllSubsequence(r, codes[..|codes| - 1], limit);
      TrimSeriesSubsequence(before, codes[|codes| - 1], limit);
      SubsequenceTransitive(TrimAllSeries(r, codes, limit).samples, before.samples, r.samples);
    }
  }

  lemma SubsequenceSuffix<T>(s: seq<T>, n: nat)
    requires n <= |s|
    ensures Subsequence(s[n..], s)
  {
    var f := seq(|s| - n, (k: nat) => k + n);
    assert Picks(s[n..], s, f);
  }

  lemma TrimRingSubsequence(r: Ring, limit: nat, maxTotal: nat)
    ensures Subsequence(TrimRing(r, limit, maxTotal).samples, r.samples)
  {
    hide TrimAllSeries, Ascending, Subsequence;
    var t := TrimAllSeries(r, Ascending(r.counts.Keys), limit);
    TrimAllSubsequence(r, Ascending(r.counts.Keys), limit);
    if |t.samples| > maxTotal {
      SubsequenceSuffix(t.samples, |t.samples| - maxTotal);
      SubsequenceTransitive(KeepNewest(t, maxTotal).samples, t.samples, r.samples);
    }
  }

  lemma RecordWithSamples(r: ModuleRecord, t: ModuleRecord, uid: nat, e: map<nat, nat>, n: nat)
    requires RecordOk(r, uid, e, n) && SamplesOk(t.samples, uid, r.incarnation, e, n)
    requires t.uid == r.uid && t.incarnation == r.incarnation && t.claims == r.claims
    requires t.declarations == r.declarations && t.lifecycle == r.lifecycle
    ensures RecordOk(t, uid, e, n)
  {
    hide ClaimsOk, SamplesOk, EventsOk;
  }

  lemma DropsKeep(st: State, dropped: nat, n: nat)
    requires Inv(st, n)
    ensures Inv(st.(droppedSamples := dropped), n)
  {
    hide RecordsOk, PortsOk, ThresholdsOk, AttachmentsOk, SourcesOk, ModuleIndexOk, RulesOk;
  }

  lemma StoredSampleFacts(i: SampleInput, record: ModuleRecord, a: RegistryState.Authority, clock: Clock, s: Stamp)
    ensures var x := StoredSample(i, record, a, clock, s);
      && x.moduleUid == record.uid && x.incarnation == record.incarnation && x.sequence == s.sequence
      && x.source == a.source && x.epoch == a.epoch
  {
  }

  lemma LatchedFacts(record: ModuleRecord, thresholds: seq<Threshold>, sample: HealthSample)
    ensures Latched(record, thresholds, sample) == record.(latches := Latched(record, thresholds, sample).latches)
  {
  }

  lemma IngestKeeps(st: State, a: RegistryState.Authority, h: Handle, input: SampleInput, config: Config, clock: Clock,
                    s: Stamp)
    requires Inv(st, s.sequence) && IngestBody(st, a, h, input, config, clock, s).Ok?
    ensures Inv(IngestBody(st, a, h, input, config, clock, s).value, s.sequence + 1)
  {
    hide ModuleAt, Inv, RecordOk, SamplesOk, Known, StoredSample, Replayed, Latched, TrimRing, LiveThresholds,
         SampleSeries, CountOf;
    var q, e := s.sequence, Epochs(st.sources);
    InvLater(st, q, q + 1);
    ReachedModule(st, a, h, q);
    var r := st.modules[h.uid];
    OwnLists(r, h.uid, e, q);
    RecordLater(r, h.uid, e, e, q, q + 1) by { LaterSelf(e); }
    var x := StoredSample(input, r, a, clock, s);
    StoredSampleFacts(input, r, a, clock, s);
    SamplePushOk(r.samples, x, h.uid, r.incarnation, e, q);
    var ring := TrimRing(Pushed(r, x), config.maxSamplesPerSeries, config.maxSamplesPerModule);
    TrimRingSubsequence(Pushed(r, x), config.maxSamplesPerSeries, config.maxSamplesPerModule);
    SamplesSubsequence(ring.samples, r.samples + [x], h.uid, r.incarnation, e, q + 1);
    LatchedFacts(r, LiveThresholds(st.thresholds), x);
    var t := Latched(r, LiveThresholds(st.thresholds), x).(samples := ring.samples, seriesCounts := ring.counts);
    RecordWithSamples(r, t, h.uid, e, q + 1);
    PutKeeps(st, h.uid, t, q + 1);
    DropsKeep(PutModule(st, h.uid, t), st.droppedSamples + ring.dropped, q + 1);
  }

  /** The history is counted per metric and lane. */
  lemma {:induction false} SubjectHistory(ts: seq<ThresholdRecord>, t: Threshold, u: Threshold)
    requires SameSubject(t, u)
    ensures HistoryOf(ts, t) == HistoryOf(ts, u)
  {
    if ts != [] {
      SubjectHistory(ts[..|ts| - 1], t, u);
    }
  }
}
