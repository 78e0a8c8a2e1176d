/** What every table of the registry keeps, whatever sequence of calls is made. */
module RegistryInvariant {
  import opened Bytes
  import opened Ordering
  import A = Authority
  import opened Consensus
  import opened Capability
  import opened Compatibility
  import opened Lifecycle
  import opened Latch
  import opened Health
  import opened HealthReport
  import opened Trim
  import opened Samples
  import opened RegistryState
  import opened Validation
  import opened Mutations

  // ----- The invariant -----

  /** A known source, an epoch it has reached, and a sequence already given out. */
  ghost predicate Known(epochs: map<nat, nat>, source: nat, epoch: nat, sequence: nat, n: nat) {
    source in epochs && epoch <= epochs[source] && sequence < n
  }

  ghost predicate ClaimOk<V>(c: Claim<V>, uid: nat, incarnation: nat, port: Text, epochs: map<nat, nat>, n: nat) {
    && c.moduleUid == uid && c.incarnation <= incarnation && c.port == port
    && Known(epochs, c.source, c.epoch, c.sequence, n)
  }

  /** Every entry is about this subject, and stored order follows publication order. */
  ghost predicate ClaimsOk<V>(s: seq<Claim<V>>, uid: nat, incarnation: nat, port: Text, epochs: map<nat, nat>, n: nat) {
    Orderly(s) && forall c :: c in s ==> ClaimOk(c, uid, incarnation, port, epochs, n)
  }

  ghost predicate SampleOk(x: HealthSample, uid: nat, incarnation: nat, epochs: map<nat, nat>, n: nat) {
    x.moduleUid == uid && x.incarnation <= incarnation && Known(epochs, x.source, x.epoch, x.sequence, n)
  }

  ghost predicate SamplesOk(s: seq<HealthSample>, uid: nat, incarnation: nat, epochs: map<nat, nat>, n: nat) {
    && (forall x :: x in s ==> SampleOk(x, uid, incarnation, epochs, n))
    && (forall i, j :: 0 <= i < j < |s| ==> s[i].sequence < s[j].sequence && s[i].incarnation <= s[j].incarnation)
  }

  ghost predicate EventsOk(s: seq<LifecycleEvent>, incarnation: nat, epochs: map<nat, nat>, n: nat) {
    forall e :: e in s ==> e.incarnation <= incarnation && Known(epochs, e.source, e.epoch, e.sequence, n)
  }

  ghost predicate RecordOk(r: ModuleRecord, uid: nat, epochs: map<nat, nat>, n: nat) {
    && r.uid == uid && r.incarnation >= 1
    && ClaimsOk(r.claims, uid, r.incarnation, [], epochs, n)
    && ClaimsOk(r.declarations, uid, r.incarnation, [], epochs, n)
    && SamplesOk(r.samples, uid, r.incarnation, epochs, n)
    && EventsOk(r.lifecycle, r.incarnation, epochs, n)
  }

  /** The name index is the exact inverse of the source table, and ids lie below the counter. */
  ghost predicate SourcesOk(sources: map<nat, SourceRecord>, byName: map<Text, nat>, nextId: nat, n: nat) {
    && nextId >= 1
    && (forall name :: name in byName ==> byName[name] in sources && sources[byName[name]].name == name)
    && (forall id :: id in sources ==> sources[id].name in byName && byName[sources[id].name] == id)
    && (forall id :: id in sources ==> sources[id].id == id && 1 <= id < nextId && sources[id].epoch >= 1
                                       && sources[id].sequence < n)
  }

  ghost predicate ModuleIndexOk(modules: map<nat, ModuleRecord>, byKey: map<Text, nat>, nextUid: nat) {
    && nextUid >= 1
    && (forall key :: key in byKey ==> byKey[key] in modules && modules[byKey[key]].key == key)
    && (forall uid :: uid in modules ==> modules[uid].key in byKey && byKey[modules[uid].key] == uid)
    && (forall uid :: uid in modules ==> 1 <= uid < nextUid)
  }

  ghost predicate RecordsOk(modules: map<nat, ModuleRecord>, epochs: map<nat, nat>, n: nat) {
    forall uid :: uid in modules ==> RecordOk(modules[uid], uid, epochs, n)
  }

  ghost predicate PortsOk(ports: map<Text, PortRecord>, epochs: map<nat, nat>, n: nat) {
    forall port :: port in ports ==>
      && ports[port].key == port && ports[port].sequence < n
      && ClaimsOk(ports[port].declarations, 0, 0, port, epochs, n)
  }

  /** Every attachment, live or not, names an existing module and an incarnation it has had. */
  ghost predicate AttachmentsOk(attachments: map<Text, AttachmentRecord>, modules: map<nat, ModuleRecord>,
                                epochs: map<nat, nat>, n: nat)
  {
    forall slot :: slot in attachments ==>
      var a := attachments[slot];
      && a.slot == slot && a.uid in modules && a.incarnation <= modules[a.uid].incarnation
      && Known(epochs, a.source, a.epoch, a.sequence, n)
  }

  /** At most one threshold is live per metric and lane. */
  ghost predicate OneLive(thresholds: seq<ThresholdRecord>) {
    forall i, j :: 0 <= i < j < |thresholds| && thresholds[i].live && thresholds[j].live ==>
      !SameSubject(thresholds[i].threshold, thresholds[j].threshold)
  }

  ghost predicate ThresholdsOk(thresholds: seq<ThresholdRecord>, epochs: map<nat, nat>, n: nat) {
    && OneLive(thresholds)
    && (forall t :: t in thresholds ==> Known(epochs, t.threshold.source, t.threshold.epoch, t.threshold.sequence, n))
  }

  ghost predicate RulesOk(rules: map<nat, Rule>, nextId: nat, epochs: map<nat, nat>, n: nat) {
    forall id :: id in rules ==>
      rules[id].id == id && id < nextId && Known(epochs, rules[id].source, rules[id].epoch, rules[id].sequence, n)
  }

  /** All tables, relative to the next sequence number n. */
  ghost predicate Inv(st: State, n: nat) {
    var epochs := Epochs(st.sources);
    && SourcesOk(st.sources, st.sourceIdByName, st.nextSourceId, n)
    && ModuleIndexOk(st.modules, st.moduleUidByKey, st.nextModuleUid)
    && RecordsOk(st.modules, epochs, n)
    && PortsOk(st.ports, epochs, n)
    && AttachmentsOk(st.attachments, st.modules, epochs, n)
    && ThresholdsOk(st.thresholds, epochs, n)
    && RulesOk(st.rules, st.nextRuleId, epochs, n)
  }

  // ----- More time, more epochs -----

  /** No source is forgotten and no epoch goes back. */
  ghost predicate Later(before: map<nat, nat>, after: map<nat, nat>) {
    forall id :: id in before ==> id in after && before[id] <= after[id]
  }

  lemma ClaimsLater<V>(s: seq<Claim<V>>, uid: nat, i: nat, j: nat, port: Text, e: map<nat, nat>, f: map<nat, nat>,
                       n: nat, m: nat)
    requires ClaimsOk(s, uid, i, port, e, n) && i <= j && Later(e, f) && n <= m
    ensures ClaimsOk(s, uid, j, port, f, m)
  {
    hide Orderly;
  }

  lemma RecordLater(r: ModuleRecord, uid: nat, e: map<nat, nat>, f: map<nat, nat>, n: nat, m: nat)
    requires RecordOk(r, uid, e, n) && Later(e, f) && n <= m
    ensures RecordOk(r, uid, f, m)
  {
    hide ClaimsOk;
    ClaimsLater(r.claims, uid, r.incarnation, r.incarnation, [], e, f, n, m);
    ClaimsLater(r.declarations, uid, r.incarnation, r.incarnation, [], e, f, n, m);
  }

  lemma RecordsLater(modules: map<nat, ModuleRecord>, e: map<nat, nat>, f: map<nat, nat>, n: nat, m: nat)
    requires RecordsOk(modules, e, n) && Later(e, f) && n <= m
    ensures RecordsOk(modules, f, m)
  {
    hide RecordOk, Later;
    forall uid | uid in modules ensures RecordOk(modules[uid], uid, f, m) {
      RecordLater(modules[uid], uid, e, f, n, m);
    }
  }

  lemma PortsLater(ports: map<Text, PortRecord>, e: map<nat, nat>, f: map<nat, nat>, n: nat, m: nat)
    requires PortsOk(ports, e, n) && Later(e, f) && n <= m
    ensures PortsOk(ports, f, m)
  {
    hide ClaimsOk, Later;
    forall port | port in ports ensures ClaimsOk(ports[port].declarations, 0, 0, port, f, m) {
      ClaimsLater(ports[port].declarations, 0, 0, 0, port, e, f, n, m);
    }
  }

  /** Tables other than the sources survive later epochs and a higher sequence bound. */
  lemma TablesLater(st: State, e: map<nat, nat>, f: map<nat, nat>, n: nat, m: nat)
    requires RecordsOk(st.modules, e, n) && PortsOk(st.ports, e, n) && AttachmentsOk(st.attachments, st.modules, e, n)
    requires ThresholdsOk(st.thresholds, e, n) && RulesOk(st.rules, st.nextRuleId, e, n)
    requires Later(e, f) && n <= m
    ensures RecordsOk(st.modules, f, m) && PortsOk(st.ports, f, m) && AttachmentsOk(st.attachments, st.modules, f, m)
    ensures ThresholdsOk(st.thresholds, f, m) && RulesOk(st.rules, st.nextRuleId, f, m)
  {
    RecordsLater(st.modules, e, f, n, m);
    PortsLater(st.ports, e, f, n, m);
    hide RecordsOk, PortsOk, OneLive;
  }

  lemma InvLater(st: State, n: nat, m: nat)
    requires Inv(st, n) && n <= m
    ensures Inv(st, m)
  {
    hide RecordsOk, PortsOk, AttachmentsOk, ThresholdsOk, RulesOk, ModuleIndexOk;
    TablesLater(st, Epochs(st.sources), Epochs(st.sources), n, m);
  }

  // ----- One module record -----

  lemma PutKeeps(st: State, uid: nat, r: ModuleRecord, n: nat)
    requires Inv(st, n) && uid in st.modules
    requires RecordOk(r, uid, Epochs(st.sources), n)
    requires r.key == st.modules[uid].key && r.incarnation >= st.modules[uid].incarnation
    ensures Inv(PutModule(st, uid, r), n)
  {
    hide RecordOk, PortsOk, ThresholdsOk, RulesOk, SourcesOk;
  }

  lemma KnownAuthority(st: State, a: RegistryState.Authority, q: nat, n: nat)
    requires Authorize(st, a).Ok? && q < n
    ensures Known(Epochs(st.sources), a.source, a.epoch, q, n)
  {
  }

  lemma ReachedModule(st: State, a: RegistryState.Authority, h: Handle, n: nat)
    requires Inv(st, n) && ModuleAt(st, a, h).Ok?
    ensures h.uid in st.modules && ModuleAt(st, a, h).value == st.modules[h.uid]
    ensures RecordOk(st.modules[h.uid], h.uid, Epochs(st.sources), n)
    ensures Known(Epochs(st.sources), a.source, a.epoch, n, n + 1)
  {
    hide RecordOk;
    KnownAuthority(st, a, n, n + 1);
  }

  lemma PushOk<V>(s: seq<Claim<V>>, c: Claim<V>, uid: nat, incarnation: nat, port: Text, e: map<nat, nat>, q: nat)
    requires ClaimsOk(s, uid, incarnation, port, e, q)
    requires ClaimOk(c, uid, incarnation, port, e, q + 1) && c.sequence == q && c.incarnation == incarnation
    ensures ClaimsOk(s + [c], uid, incarnation, port, e, q + 1)
  {
    var t := s + [c];
    forall i, j | 0 <= i < j < |t|
      ensures t[i].sequence <= t[j].sequence && t[i].incarnation <= t[j].incarnation
      ensures t[i].sequence == t[j].sequence ==> KeyOf(t[i]) != KeyOf(t[j]) && t[i].incarnation == t[j].incarnation
    {
      assert s[i] in s;
      assert t[i] == s[i];
      if j < |s| {
        assert t[j] == s[j];
      }
    }
  }

  lemma SubsequenceOk<V>(a: seq<Claim<V>>, b: seq<Claim<V>>, uid: nat, incarnation: nat, port: Text, e: map<nat, nat>,
                         n: nat)
    requires Subsequence(a, b) && ClaimsOk(b, uid, incarnation, port, e, n)
    ensures ClaimsOk(a, uid, incarnation, port, e, n)
  {
    hide Orderly, ClaimOk, Subsequence;
    SubsequenceTidy(OfIdentity, a, b);
  }

  /** The lists of a subject meet what trimming asks of them. */
  lemma ListsAreTrimmable<V>(kind: ClaimKind, s: seq<Claim<V>>, uid: nat, incarnation: nat, port: Text,
                             e: map<nat, nat>, n: nat)
    requires ClaimsOk(s, uid, incarnation, port, e, n)
    requires kind == OfPort ==> incarnation == 0
    ensures OneSubject(kind, s) && Orderly(s) && UpTo(s, incarnation)
  {
    hide Orderly;
    assert forall i :: 0 <= i < |s| ==> s[i] in s;
  }

  lemma TrimListOk<V(!new)>(kind: ClaimKind, s: seq<Claim<V>>, maxTotal: nat, maxHistory: nat, uid: nat,
                            incarnation: nat, port: Text, e: map<nat, nat>, n: nat)
    requires ClaimsOk(s, uid, incarnation, port, e, n) && kind != OfPort
    requires TrimList(kind, s, maxTotal, maxHistory).Ok?
    ensures ClaimsOk(TrimList(kind, s, maxTotal, maxHistory).value, uid, incarnation, port, e, n)
    ensures Subsequence(TrimList(kind, s, maxTotal, maxHistory).value, s)
  {
    hide ClaimsOk, Shrink, OneSubject, Orderly, UpTo, Faithful, KeepRecent;
    ListsAreTrimmable(kind, s, uid, incarnation, port, e, n);
    ShrinkFaithful(kind, s, maxTotal, incarnation);
    var r := Shrink(kind, s, maxTotal).value;
    FaithfulIsSubsequence(kind, s, r, incarnation);
    KeepRecentSubsequence(r, maxHistory);
    SubsequenceTransitive(KeepRecent(r, maxHistory), r, s);
    SubsequenceOk(KeepRecent(r, maxHistory), s, uid, incarnation, port, e, n);
  }

  lemma KeepRecentSubsequence<V>(s: seq<Claim<V>>, maxHistory: nat)
    ensures Subsequence(KeepRecent(s, maxHistory), s)
  {
    hide Picks, KeepRecent;
    var f := RecentPositions(s, maxHistory);
  }

  lemma NewClaimOk<V>(attr: nat, subkey: Text, value: V, a: RegistryState.Authority, uid: nat, incarnation: nat,
                      port: Text, s: Stamp, e: map<nat, nat>)
    requires Known(e, a.source, a.epoch, s.sequence, s.sequence + 1)
    ensures ClaimOk(NewClaim(attr, subkey, value, a, uid, incarnation, port, s), uid, incarnation, port, e,
                    s.sequence + 1)
    ensures NewClaim(attr, subkey, value, a, uid, incarnation, port, s).sequence == s.sequence
    ensures NewClaim(attr, subkey, value, a, uid, incarnation, port, s).incarnation == incarnation
  {
  }

  // ----- Publications -----

  lemma RecordWithClaims(r: ModuleRecord, claims: seq<IdentityClaim>, uid: nat, e: map<nat, nat>, n: nat)
    requires RecordOk(r, uid, e, n) && ClaimsOk(claims, uid, r.incarnation, [], e, n)
    ensures RecordOk(r.(claims := claims), uid, e, n)
  {
    hide ClaimsOk, SamplesOk, EventsOk;
  }

  lemma UpdateIdentityKeeps(st: State, a: RegistryState.Authority, h: Handle, v: IdentityValue, config: Config,
                            s: Stamp)
    requires Inv(st, s.sequence)
    requires UpdateIdentityBody(st, a, h, v, config, s).Ok?
    ensures Inv(UpdateIdentityBody(st, a, h, v, config, s).value, s.sequence + 1)
  {
    hide ModuleAt, Inv, RecordOk, ClaimsOk, ClaimOk, Known, NewClaim, TrimList, PutModule;
    var q := s.sequence;
    var e := Epochs(st.sources);
    InvLater(st, q, q + 1);
    ReachedModule(st, a, h, q);
    var r := st.modules[h.uid];
    OwnLists(r, h.uid, e, q);
    RecordLater(r, h.uid, e, e, q, q + 1) by { LaterSelf(e); }
    var c := NewClaim(v.attr, v.subkey, v.value, a, r.uid, r.incarnation, [], s);
    NewClaimOk(v.attr, v.subkey, v.value, a, r.uid, r.incarnation, [], s, e);
    PushOk(r.claims, c, h.uid, r.incarnation, [], e, q);
    TrimListOk(OfIdentity, r.claims + [c], config.maxClaimsPerModule, config.maxClaimHistory, h.uid, r.incarnation, [],
               e, q + 1);
    var claims := TrimList(OfIdentity, r.claims + [c], config.maxClaimsPerModule, config.maxClaimHistory).value;
    RecordWithClaims(r, claims, h.uid, e, q + 1);
    PutKeeps(st, h.uid, r.(claims := claims), q + 1);
  }

  lemma LaterSelf(e: map<nat, nat>)
    ensures Later(e, e)
  {
  }

  lemma OwnLists(r: ModuleRecord, uid: nat, e: map<nat, nat>, n: nat)
    requires RecordOk(r, uid, e, n)
    ensures r.uid == uid && r.incarnation >= 1
    ensures ClaimsOk(r.claims, uid, r.incarnation, [], e, n)
    ensures ClaimsOk(r.declarations, uid, r.incarnation, [], e, n)
    ensures SamplesOk(r.samples, uid, r.incarnation, e, n)
    ensures EventsOk(r.lifecycle, r.incarnation, e, n)
  {
    hide ClaimsOk, SamplesOk, EventsOk;
  }

  lemma UidIsNew(st: State, n: nat)
    requires Inv(st, n)
    ensures st.nextModuleUid !in st.modules
  {
    hide RecordsOk, PortsOk, AttachmentsOk, ThresholdsOk, RulesOk, SourcesOk;
  }
}
