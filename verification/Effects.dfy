/** What a caller may rely on after each committed call. */
module Effects {
  import opened Bytes
  import opened Ordering
  import A = Authority
  import opened Consensus
  import opened Capability
  import opened Lifecycle
  import opened Latch
  import opened Health
  import opened HealthReport
  import opened Trim
  import opened TrimAnswers
  import opened Answers
  import opened RegistryState
  import opened Validation
  import opened Mutations
  import opened RegistryInvariant
  import opened InvariantSteps
  import opened InvariantRegistration
  import opened Resurrection

  // ----- Publication -----

  /** Everything stored is older than a call; the entries the call adds carry its sequence and the live incarnation. */
  ghost predicate JustAdded<V>(s: seq<Claim<V>>, added: seq<Claim<V>>, incarnation: nat, e: map<nat, nat>, q: nat) {
    && (forall o :: o in s ==> o.sequence < q)
    && forall c :: c in added ==>
      c.sequence == q && c.incarnation == incarnation && A.SourceIsLive(e, c.source, c.epoch)
  }

  /** Some added entry states anew what x states. */
  ghost predicate RestatedIn<V(!new)>(added: seq<Claim<V>>, x: Claim<V>) {
    exists c :: c in added && Restates(c, x)
  }

  lemma ShadowedAfter<V(!new)>(kind: ClaimKind, s: seq<Claim<V>>, added: seq<Claim<V>>, incarnation: nat,
                               e: map<nat, nat>, q: nat, x: Claim<V>)
    requires OneSubject(kind, s + added) && JustAdded(s, added, incarnation, e, q)
    requires x in s + added && x.incarnation == incarnation
    ensures x in added ==> !Shadowed(kind, s + added, x)
    ensures x in s ==> (Shadowed(kind, s + added, x) <==> Shadowed(kind, s, x) || RestatedIn(added, x))
  {
    var t := s + added;
    forall j | 0 <= j < |t| ensures t[j] in s || t[j] in added {
    }
    if x in s && Shadowed(kind, s, x) {
      var j :| 0 <= j < |s| && Shadows(kind, s[j], x);
      assert t[j] == s[j];
    }
    if x in s && RestatedIn(added, x) {
      var c :| c in added && Restates(c, x);
      var j :| 0 <= j < |added| && added[j] == c;
      var i :| 0 <= i < |s| && s[i] == x;
      assert t[i] == x && t[|s| + j] == c;
      assert Shadows(kind, t[|s| + j], x);
    }
  }

  /** Whatever trimming removes, exactly the added entries and those they do not restate are live afterwards. */
  lemma LiveAfter<V(!new)>(kind: ClaimKind, s: seq<Claim<V>>, added: seq<Claim<V>>, kept: seq<Claim<V>>,
                           incarnation: nat, e: map<nat, nat>, q: nat, x: Claim<V>)
    requires OneSubject(kind, s + added) && JustAdded(s, added, incarnation, e, q)
    requires Faithful(kind, s + added, kept, incarnation)
    ensures ClaimLive(kind, kept, incarnation, e, x) <==>
            x in added || (ClaimLive(kind, s, incarnation, e, x) && !RestatedIn(added, x))
    ensures x in kept ==> x in s || x in added
  {
    hide Shadowed, OneSubject, RestatedIn, Filter, A.SourceIsLive, Subsequence;
    var t := s + added;
    SubsequenceMembers(kept, t);
    FilterHolds(kept, Unrevised(kind, kept, incarnation), x);
    FilterHolds(t, Unrevised(kind, t, incarnation), x);
    if x in t && x.incarnation == incarnation {
      ShadowedAfter(kind, s, added, incarnation, e, q, x);
    }
  }

  lemma FilterHolds<T>(s: seq<T>, p: T -> bool, x: T)
    ensures x in Filter(s, p) <==> x in s && p(x)
  {
  }

  lemma ListBelow<V>(s: seq<Claim<V>>, uid: nat, incarnation: nat, port: Text, e: map<nat, nat>, q: nat, c: Claim<V>)
    requires ClaimsOk(s, uid, incarnation, port, e, q)
    requires c.sequence == q && c.incarnation == incarnation && A.SourceIsLive(e, c.source, c.epoch)
    ensures JustAdded(s, [c], incarnation, e, q)
  {
  }

  lemma RestatedByOne<V(!new)>(c: Claim<V>, x: Claim<V>)
    ensures RestatedIn([c], x) <==> Restates(c, x)
  {
    assert c in [c];
  }

  /**
   * An identity update that commits is stored and counts, whatever trimming removed: the value the call gave, for the
   * field it gave, by the authority that gave it. Of the entries that counted before, exactly those it restates no
   * longer do.
   */
  lemma UpdateIsLive(st: State, a: RegistryState.Authority, h: Handle, v: IdentityValue, config: Config, s: Stamp,
                     x: IdentityClaim)
    requires Inv(st, s.sequence) && config.maxClaimHistory >= 1
    requires UpdateIdentityBody(st, a, h, v, config, s).Ok?
    ensures var next := UpdateIdentityBody(st, a, h, v, config, s).value;
      var c := Claim(v.attr, v.subkey, v.value, a.source, a.epoch, h.uid, h.incarnation, [], s.generation, s.sequence,
                     s.now, s.provenance, true);
      && IdentityLive(next, h.uid, c)
      && (IdentityLive(next, h.uid, x) <==> x == c || (IdentityLive(st, h.uid, x) && !Restates(c, x)))
      && h.uid in st.modules && h.uid in next.modules
      && (x in next.modules[h.uid].claims ==> x == c || x in st.modules[h.uid].claims)
      && next == st.(modules := st.modules[h.uid := st.modules[h.uid].(claims := next.modules[h.uid].claims)])
  {
    hide Inv, RecordOk, ClaimsOk, ClaimOk, Known, TrimList, OneSubject, Orderly, UpTo, Authorize, ClaimLive, JustAdded,
         RestatedIn, Faithful;
    var q, e := s.sequence, Epochs(st.sources);
    ReachedModule(st, a, h, q);
    ReachedIsAuthorized(st, a, h);
    AuthorizedIsLive(st, a);
    var r := st.modules[h.uid];
    OwnLists(r, h.uid, e, q);
    var c := NewClaim(v.attr, v.subkey, v.value, a, r.uid, r.incarnation, [], s);
    PushOk(r.claims, c, h.uid, r.incarnation, [], e, q) by {
      NewClaimOk(v.attr, v.subkey, v.value, a, r.uid, r.incarnation, [], s, e);
    }
    var all := r.claims + [c];
    ListsAreTrimmable(OfIdentity, all, h.uid, r.incarnation, [], e, q + 1);
    TrimFaithful(OfIdentity, all, config.maxClaimsPerModule, config.maxClaimHistory, r.incarnation);
    var kept := TrimList(OfIdentity, all, config.maxClaimsPerModule, config.maxClaimHistory).value;
    ListBelow(r.claims, h.uid, r.incarnation, [], e, q, c);
    LiveAfter(OfIdentity, r.claims, [c], kept, r.incarnation, e, q, c);
    LiveAfter(OfIdentity, r.claims, [c], kept, r.incarnation, e, q, x);
    RestatedByOne(c, x);
  }

  lemma AuthorizedIsLive(st: State, a: RegistryState.Authority)
    requires Authorize(st, a).Ok?
    ensures A.SourceIsLive(Epochs(st.sources), a.source, a.epoch)
  {
  }

  /** A committed capability declaration likewise. */
  lemma DeclarationIsLive(st: State, a: RegistryState.Authority, h: Handle, key: nat, subkey: Text,
                          value: CapabilityValue, config: Config, s: Stamp, x: Declaration)
    requires Inv(st, s.sequence) && config.maxClaimHistory >= 1
    requires PublishCapabilityBody(st, a, h, key, subkey, value, config, s).Ok?
    ensures var next := PublishCapabilityBody(st, a, h, key, subkey, value, config, s).value;
      var d := Claim(key, subkey, value, a.source, a.epoch, h.uid, h.incarnation, [], s.generation, s.sequence,
                     s.now, s.provenance, true);
      && DeclarationLive(next, h.uid, d)
      && (DeclarationLive(next, h.uid, x) <==> x == d || (DeclarationLive(st, h.uid, x) && !Restates(d, x)))
      && h.uid in st.modules && h.uid in next.modules
      && (x in next.modules[h.uid].declarations ==> x == d || x in st.modules[h.uid].declarations)
      && next == st.(modules := st.modules[h.uid :=
                                             st.modules[h.uid].(declarations := next.modules[h.uid].declarations)])
  {
    hide Inv, RecordOk, ClaimsOk, ClaimOk, Known, TrimList, OneSubject, Orderly, UpTo, Authorize, ClaimLive, JustAdded,
         RestatedIn, Faithful;
    var q, e := s.sequence, Epochs(st.sources);
    ReachedModule(st, a, h, q);
    ReachedIsAuthorized(st, a, h);
    AuthorizedIsLive(st, a);
    var r := st.modules[h.uid];
    OwnLists(r, h.uid, e, q);
    var d := NewClaim(key, subkey, value, a, r.uid, r.incarnation, [], s);
    PushOk(r.declarations, d, h.uid, r.incarnation, [], e, q) by {
      NewClaimOk(key, subkey, value, a, r.uid, r.incarnation, [], s, e);
    }
    var all := r.declarations + [d];
    ListsAreTrimmable(OfModule, all, h.uid, r.incarnation, [], e, q + 1);
    TrimFaithful(OfModule, all, config.maxDeclarationsPerModule, config.maxClaimHistory, r.incarnation);
    var kept := TrimList(OfModule, all, config.maxDeclarationsPerModule, config.maxClaimHistory).value;
    ListBelow(r.declarations, h.uid, r.incarnation, [], e, q, d);
    LiveAfter(OfModule, r.declarations, [d], kept, r.incarnation, e, q, d);
    LiveAfter(OfModule, r.declarations, [d], kept, r.incarnation, e, q, x);
    RestatedByOne(d, x);
  }

  lemma PortLiveAfter(s: seq<Declaration>, d: Declaration, max: U32, port: Text, e: map<nat, nat>, q: nat,
                      x: Declaration)
    requires ClaimsOk(s, 0, 0, port, e, q) && A.SourceIsLive(e, d.source, d.epoch)
    requires ClaimOk(d, 0, 0, port, e, q + 1) && d.sequence == q && d.incarnation == 0
    requires PublishOnPort(s, d, max).Ok?
    ensures var kept := PublishOnPort(s, d, max).value;
      && (ClaimLive(OfPort, kept, 0, e, x) <==> x == d || (ClaimLive(OfPort, s, 0, e, x) && !Restates(d, x)))
      && (x in kept ==> x == d || x in s)
  {
    hide ClaimsOk, ClaimOk, Shrink, OneBelow, OneSubject, Orderly, UpTo, ClaimLive, JustAdded, RestatedIn, Faithful,
         A.SourceIsLive, Restates;
    var room := if |s| >= max then Shrink(OfPort, s, OneBelow(max)).value else s;
    if |s| >= max {
      ShrinkOk(s, OneBelow(max), port, e, q);
      ListsAreTrimmable(OfPort, s, 0, 0, port, e, q);
      ShrinkFaithful(OfPort, s, OneBelow(max), 0);
      FaithfulIsLive(OfPort, s, room, 0, e, x);
      assert x in room ==> x in s;
    }
    PushOk(room, d, 0, 0, port, e, q);
    ListsAreTrimmable(OfPort, room + [d], 0, 0, port, e, q + 1);
    ShrinkFaithful(OfPort, room + [d], max, 0);
    ListBelow(room, 0, 0, port, e, q, d);
    LiveAfter(OfPort, room, [d], Shrink(OfPort, room + [d], max).value, 0, e, q, x);
    RestatedByOne(d, x);
  }

  lemma FaithfulIsLive<V(!new)>(kind: ClaimKind, s: seq<Claim<V>>, kept: seq<Claim<V>>, incarnation: nat,
                                e: map<nat, nat>, x: Claim<V>)
    requires Faithful(kind, s, kept, incarnation)
    ensures ClaimLive(kind, kept, incarnation, e, x) <==> ClaimLive(kind, s, incarnation, e, x)
    ensures x in kept ==> x in s
  {
    hide Shadowed, Filter, A.SourceIsLive, Subsequence;
    SubsequenceMembers(kept, s);
    FilterHolds(kept, Unrevised(kind, kept, incarnation), x);
    FilterHolds(s, Unrevised(kind, s, incarnation), x);
  }

  /** A committed port declaration likewise, through both of its trims; it opens the port if there was none. */
  lemma PortDeclarationIsLive(st: State, a: RegistryState.Authority, port: Text, key: nat, subkey: Text,
                              value: CapabilityValue, config: Config, s: Stamp, x: Declaration)
    requires Inv(st, s.sequence) && PublishPortCapabilityBody(st, a, port, key, subkey, value, config, s).Ok?
    ensures var next := PublishPortCapabilityBody(st, a, port, key, subkey, value, config, s).value;
      var d := Claim(key, subkey, value, a.source, a.epoch, 0, 0, port, s.generation, s.sequence, s.now, s.provenance,
                     true);
      && PortDeclarationLive(next, port, d)
      && (PortDeclarationLive(next, port, x) <==> x == d || (PortDeclarationLive(st, port, x) && !Restates(d, x)))
      && port in next.ports
      && (x in next.ports[port].declarations ==> x == d || (port in st.ports && x in st.ports[port].declarations))
      && next == st.(ports := st.ports[port :=
                                         (if port in st.ports then st.ports[port]
                                          else PortRecord(port, s.generation, s.sequence, s.now, []))
                                         .(declarations := next.ports[port].declarations)])
  {
    hide Inv, ClaimsOk, ClaimOk, Known, PublishOnPort, ClaimLive, Authorize, Restates;
    var q, e := s.sequence, Epochs(st.sources);
    KnownAuthority(st, a, q, q + 1);
    AuthorizedIsLive(st, a);
    var declarations := if port in st.ports then st.ports[port].declarations else [];
    if port in st.ports {
      PortAt(st, port, q);
    } else {
      NothingOk<CapabilityValue>(0, 0, port, e, q);
      NothingIsLive(e, x);
    }
    var d := NewClaim(key, subkey, value, a, 0, 0, port, s);
    NewClaimOk(key, subkey, value, a, 0, 0, port, s, e);
    PortLiveAfter(declarations, d, config.maxDeclarationsPerPort, port, e, q, d);
    PortLiveAfter(declarations, d, config.maxDeclarationsPerPort, port, e, q, x);
  }

  lemma NothingIsLive(e: map<nat, nat>, x: Declaration)
    ensures !ClaimLive(OfPort, [], 0, e, x)
  {
  }

  // ----- Reconciliation -----

  /** Reconciliation only follows evidence: Active exactly on healthy evidence, Degraded exactly on bad evidence. */
  lemma ReconcileFollowsEvidence(st: State, a: RegistryState.Authority, h: Handle, config: Config, clock: Clock,
                                 s: Stamp)
    requires ReconcileBody(st, a, h, config, clock, s).Ok?
    ensures h.uid in st.modules && h.uid in ReconcileBody(st, a, h, config, clock, s).value.modules
    ensures var before := st.modules[h.uid];
      var after := ReconcileBody(st, a, h, config, clock, s).value.modules[h.uid];
      var report := ReportOf(EvidenceOf(st, before, config, clock.reportWallNs));
      && (after.state != before.state && after.state == Active <==>
          Healthy(report) && (before.state == Degraded || before.state == Attached))
      && (after.state != before.state && after.state == Degraded <==>
          (report.worst == CriticalState || report.worst == DegradedState)
          && (before.state == Active || before.state == Attached))
      && (after.state == before.state || after.state == Active || after.state == Degraded)
      && (after.state == before.state ==> ReconcileBody(st, a, h, config, clock, s).value == st)
  {
    hide ModuleAt, ReportOf, EvidenceOf, LastEvents, TransitionAllowed;
    ReachedIsAuthorized(st, a, h);
  }

  // ----- Sources -----

  /** The epoch stays exactly for the same agent instance; any other registration retires every older token. */
  lemma EpochStaysExactly(st: State, name: Text, instanceId: Text, description: Text, config: Config, s: Stamp)
    requires Inv(st, s.sequence) && name in st.sourceIdByName
    requires RegisterSourceBody(st, name, instanceId, description, config, s).Ok?
    ensures var id := st.sourceIdByName[name];
      var next := RegisterSourceBody(st, name, instanceId, description, config, s).value;
      && id in st.sources && id in next.sources
      && (next.sources[id].epoch == st.sources[id].epoch <==>
          instanceId != [] && instanceId == st.sources[id].instanceId)
      && (next.sources[id].epoch != st.sources[id].epoch ==>
          forall a: RegistryState.Authority :: a.source == id && Authorize(st, a).Ok? ==> RetiredToken(next, a))
      && (forall other :: other in st.sources && other != id ==>
          other in next.sources && next.sources[other] == st.sources[other])
  {
    hide Inv;
    SourceFound(st, name, s.sequence);
  }

  // ----- Attachment -----

  /** After an attach the slot holds this module incarnation; no other slot and no other module changed. */
  lemma AttachEffect(st: State, a: RegistryState.Authority, h: Handle, slot: Text, portIndex: nat, config: Config,
                     s: Stamp)
    requires Inv(st, s.sequence) && AttachBody(st, a, h, slot, portIndex, config, s).Ok?
    ensures var next := AttachBody(st, a, h, slot, portIndex, config, s).value;
      && h.uid in st.modules && h.uid in next.modules && HeldBy(next.attachments, slot, next.modules[h.uid])
      && (next != st ==> next.modules[h.uid].state == Attached)
      && (next == st <==> HeldBy(st.attachments, slot, st.modules[h.uid]))
      && (forall other :: other != slot ==> (other in st.attachments <==> other in next.attachments))
      && (forall other :: other != slot && other in st.attachments ==> next.attachments[other] == st.attachments[other])
      && (forall uid :: uid != h.uid && uid in st.modules ==>
          uid in next.modules && next.modules[uid] == st.modules[uid])
  {
    hide Inv, ModuleAt, Capped, Advanced, TransitionAllowed, LiveSlots;
    ReachedIsAuthorized(st, a, h);
    var r := st.modules[h.uid];
    AttachedFacts(r, a, s, config);
    RecordUidIs(st, h.uid, s.sequence);
  }

  lemma RecordUidIs(st: State, uid: nat, n: nat)
    requires Inv(st, n) && uid in st.modules
    ensures st.modules[uid].uid == uid
  {
  }

  lemma AttachedFacts(r: ModuleRecord, a: RegistryState.Authority, s: Stamp, config: Config)
    ensures var t := Capped(Advanced(r, Attached, a, s), config);
      t.state == Attached && t.uid == r.uid && t.incarnation == r.incarnation
  {
  }

  lemma RemovedFacts(r: ModuleRecord, a: RegistryState.Authority, s: Stamp, config: Config)
    ensures Capped(Advanced(r, Removed, a, s), config).state == Removed
  {
  }

  /** Detaching frees exactly this slot and leaves a module that counted as attached removed. */
  lemma DetachEffect(st: State, a: RegistryState.Authority, slot: Text, config: Config, s: Stamp)
    requires Inv(st, s.sequence) && DetachBody(st, a, slot, config, s).Ok?
    ensures var next := DetachBody(st, a, slot, config, s).value;
      && slot in st.attachments && st.attachments[slot].live
      && next.attachments == st.attachments[slot := st.attachments[slot].(live := false)]
      && var uid := st.attachments[slot].uid;
         && uid in st.modules && uid in next.modules
         && (if st.modules[uid].incarnation == st.attachments[slot].incarnation
             && ImpliesAttachment(st.modules[uid].state)
             then next.modules[uid].state == Removed else next.modules == st.modules)
         && (forall other :: other != uid && other in st.modules ==> next.modules[other] == st.modules[other])
  {
    hide Capped, Advanced, Authorize, RecordsOk, PortsOk, ThresholdsOk, RulesOk, SourcesOk, ModuleIndexOk;
    var uid := st.attachments[slot].uid;
    assert uid in st.modules;
    RemovedFacts(st.modules[uid], a, s, config);
    TableShape(st.modules[uid].state, Removed);
  }

  /** Attach then detach: the slot is free again and the module removed, unless a new incarnation came between. */
  lemma DetachUndoesAttach(st: State, a: RegistryState.Authority, b: RegistryState.Authority, h: Handle, slot: Text,
                           portIndex: nat, config: Config, s: Stamp, t: Stamp)
    requires Inv(st, s.sequence) && AttachBody(st, a, h, slot, portIndex, config, s).Ok?
    requires t.sequence == s.sequence + 1 && AttachBody(st, a, h, slot, portIndex, config, s).value != st
    requires DetachBody(AttachBody(st, a, h, slot, portIndex, config, s).value, b, slot, config, t).Ok?
    ensures var next := DetachBody(AttachBody(st, a, h, slot, portIndex, config, s).value, b, slot, config, t).value;
      && slot in next.attachments && !next.attachments[slot].live
      && h.uid in next.modules && next.modules[h.uid].state == Removed
  {
    hide Inv, AttachBody, DetachBody;
    AttachEffect(st, a, h, slot, portIndex, config, s);
    AttachKeeps(st, a, h, slot, portIndex, config, s);
    RecordUidIs(AttachBody(st, a, h, slot, portIndex, config, s).value, h.uid, t.sequence);
    DetachEffect(AttachBody(st, a, h, slot, portIndex, config, s).value, b, slot, config, t);
  }

  // ----- Registration -----

  lemma CappedState(r: ModuleRecord, config: Config)
    ensures Capped(r, config).state == r.state && Capped(r, config).incarnation == r.incarnation
    ensures Capped(r, config).latches == r.latches
  {
  }

  /** Declaring a new incarnation of a known module fences the old one and everything attached through it. */
  lemma NewIncarnationEffect(st: State, key: Text, identity: seq<IdentityValue>, a: RegistryState.Authority,
                             config: Config, s: Stamp)
    requires Inv(st, s.sequence) && key in st.moduleUidByKey && st.moduleUidByKey[key] in st.modules
    requires RegisterModuleBody(st, key, identity, NewIncarnation, a, config, s).Ok?
    ensures var uid := st.moduleUidByKey[key];
      var next := RegisterModuleBody(st, key, identity, NewIncarnation, a, config, s).value;
      && uid in next.modules && next.modules[uid].incarnation == st.modules[uid].incarnation + 1
      && next.modules[uid].state == Registered && next.modules[uid].latches == []
      && (!Gone(st.modules[uid].state) ==>
          forall slot :: slot in next.attachments && next.attachments[slot].live ==> next.attachments[slot].uid != uid)
      && (forall h: Handle :: h.uid == uid && h.incarnation <= st.modules[uid].incarnation && Authorize(next, a).Ok? ==>
          ModuleAt(next, a, h) == Err(Fenced))
  {
    hide Inv, RecordOk, IdentityClaims, TrimList, Capped, TransitionAllowed, Authorize;
    var uid := st.moduleUidByKey[key];
    RecordUidIs(st, uid, s.sequence);
    var found := OpenModule(st, key, NewIncarnation, a, config, s).value;
    var t := EnsureRegistered(found.st.modules[uid], a, s);
    var claims := t.claims + IdentityClaims(identity, a, t.uid, t.incarnation, s);
    var trimmed := TrimClaims(t.(claims := claims), config).value;
    CappedState(trimmed, config);
  }

  // ----- Thresholds -----

  lemma {:induction false} LiveInOrder(ts: seq<ThresholdRecord>, t: Threshold)
    ensures t in LiveThresholds(ts) <==> exists i :: 0 <= i < |ts| && ts[i].live && ts[i].threshold == t
  {
    if ts != [] {
      LiveInOrder(ts[..|ts| - 1], t);
      assert ts == ts[..|ts| - 1] + [ts[|ts| - 1]];
    }
  }

  lemma PublishedIsLive(ts: seq<ThresholdRecord>, t: Threshold, max: nat)
    ensures t in LiveThresholds(BoundHistory(ts + [ThresholdRecord(t, true)], t, max))
  {
    hide FirstRetired, HistoryOf, LiveThresholds;
    var all := ts + [ThresholdRecord(t, true)];
    var kept := BoundHistory(all, t, max);
    LiveInOrder(kept, t);
    var i := FirstRetired(all, t);
    assert all[|ts|] == ThresholdRecord(t, true);
    if kept != all {
      assert i < |ts|;
      assert kept[|ts| - 1] == ThresholdRecord(t, true);
    } else {
      assert kept[|ts|] == ThresholdRecord(t, true);
    }
  }

  lemma SubjectOnly(ts: seq<ThresholdRecord>, t: Threshold, u: Threshold, max: nat)
    requires SameSubject(t, u)
    ensures BoundHistory(ts, t, max) == BoundHistory(ts, u, max)
  {
    SubjectHistory(ts, t, u);
    SubjectRetired(ts, t, u);
  }

  lemma {:induction false} SubjectRetired(ts: seq<ThresholdRecord>, t: Threshold, u: Threshold)
    requires SameSubject(t, u)
    ensures FirstRetired(ts, t) == FirstRetired(ts, u)
  {
    if ts != [] {
      SubjectRetired(ts[1..], t, u);
    }
  }

  /** The threshold just published is the one every later classification of its series selects. */
  lemma PublishedIsSelected(st: State, a: RegistryState.Authority, t: Threshold, config: Config, s: Stamp)
    requires Inv(st, s.sequence) && PublishThresholdBody(st, a, t, config, s).Ok?
    ensures var next := PublishThresholdBody(st, a, t, config, s).value;
      SelectedThreshold(LiveThresholds(next.thresholds), t.metric, t.lane)
      == Some(t.(source := a.source, epoch := a.epoch, generation := s.generation, sequence := s.sequence,
                 live := true))
  {
    hide Inv, Authorize, Retire, LiveThresholds, BoundHistory, LastFor, ThresholdsOk;
    var next := PublishThresholdBody(st, a, t, config, s).value;
    var published := t.(source := a.source, epoch := a.epoch, generation := s.generation, sequence := s.sequence,
                        live := true);
    PublishThresholdKeeps(st, a, t, config, s);
    ThresholdsOf(next, s.sequence + 1);
    SubjectOnly(Retire(st.thresholds, t) + [ThresholdRecord(published, true)], t, published, config.maxClaimHistory);
    PublishedIsLive(Retire(st.thresholds, t), published, config.maxClaimHistory);
    LastForExact(LiveThresholds(next.thresholds), t.metric, t.lane);
    OneLiveOnly(next.thresholds, published, LastFor(LiveThresholds(next.thresholds), t.metric, t.lane),
                Epochs(next.sources), s.sequence + 1);
  }

  lemma OneLiveOnly(ts: seq<ThresholdRecord>, t: Threshold, last: Option<Threshold>, e: map<nat, nat>, n: nat)
    requires ThresholdsOk(ts, e, n) && t in LiveThresholds(ts)
    requires last.Some? ==> last.value in LiveThresholds(ts) && SameSubject(last.value, t)
    ensures last.Some? ==> last.value == t
  {
    hide LiveThresholds, Known;
    LiveInOrder(ts, t);
    if last.Some? {
      LiveInOrder(ts, last.value);
    }
  }
}
