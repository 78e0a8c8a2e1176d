/** The general theorems, for the states a registry can really be in. */
module Reachable {
  import opened Bytes
  import opened Ordering
  import A = Authority
  import opened Consensus
  import opened Capability
  import opened Compatibility
  import CT = CompatibilityTheorems
  import opened Latch
  import opened Health
  import opened HealthReport
  import opened Trim
  import opened TrimAnswers
  import opened Samples
  import opened RegistryState
  import opened Validation
  import opened Mutations
  import opened RegistryInvariant
  import opened InvariantSteps
  import opened InvariantRegistration
  import opened Runs
  import opened SampleRuns

  // ----- Trimming on reachable lists -----

  /** What an identity update stores answers every question as the untrimmed list would. */
  lemma UpdateAnswersExact(st: State, a: RegistryState.Authority, h: Handle, v: IdentityValue, config: Config, s: Stamp,
                           epochs: map<nat, nat>)
    requires Inv(st, s.sequence) && config.maxClaimHistory >= 1
    requires UpdateIdentityBody(st, a, h, v, config, s).Ok?
    ensures h.uid in st.modules
    ensures var record := st.modules[h.uid];
      var all := record.claims + [NewClaim(v.attr, v.subkey, v.value, a, record.uid, record.incarnation, [], s)];
      var kept := UpdateIdentityBody(st, a, h, v, config, s).value.modules[h.uid].claims;
      var before := Build(LiveView(OfIdentity, all, record.incarnation, epochs));
      var after := Build(LiveView(OfIdentity, kept, record.incarnation, epochs));
      |after| == |before| && forall i :: 0 <= i < |before| ==> SameAnswer(before[i], after[i])
  {
    hide ModuleAt, Inv, RecordOk, ClaimsOk, ClaimOk, Known, NewClaim, TrimList, Build, LiveView, SameAnswer, OneSubject,
         Orderly, UpTo, Filter;
    var q, e := s.sequence, Epochs(st.sources);
    ReachedModule(st, a, h, q);
    var r := st.modules[h.uid];
    OwnLists(r, h.uid, e, q);
    var c := NewClaim(v.attr, v.subkey, v.value, a, r.uid, r.incarnation, [], s);
    NewClaimOk(v.attr, v.subkey, v.value, a, r.uid, r.incarnation, [], s, e);
    PushOk(r.claims, c, h.uid, r.incarnation, [], e, q);
    ListsAreTrimmable(OfIdentity, r.claims + [c], h.uid, r.incarnation, [], e, q + 1);
    TrimKeepsAnswers(OfIdentity, r.claims + [c], config.maxClaimsPerModule, config.maxClaimHistory, r.incarnation,
                     epochs);
  }

  /** The same for a capability declaration. */
  lemma PublishAnswersExact(st: State, a: RegistryState.Authority, h: Handle, key: nat, subkey: Text,
                            value: CapabilityValue, config: Config, s: Stamp, epochs: map<nat, nat>)
    requires Inv(st, s.sequence) && config.maxClaimHistory >= 1
    requires PublishCapabilityBody(st, a, h, key, subkey, value, config, s).Ok?
    ensures h.uid in st.modules
    ensures var record := st.modules[h.uid];
      var all := record.declarations + [NewClaim(key, subkey, value, a, record.uid, record.incarnation, [], s)];
      var kept := PublishCapabilityBody(st, a, h, key, subkey, value, config, s).value.modules[h.uid].declarations;
      var before := Build(LiveView(OfModule, all, record.incarnation, epochs));
      var after := Build(LiveView(OfModule, kept, record.incarnation, epochs));
      |after| == |before| && forall i :: 0 <= i < |before| ==> SameAnswer(before[i], after[i])
  {
    hide ModuleAt, Inv, RecordOk, ClaimsOk, ClaimOk, Known, NewClaim, TrimList, Build, LiveView, SameAnswer, OneSubject,
         Orderly, UpTo, Filter;
    var q, e := s.sequence, Epochs(st.sources);
    ReachedModule(st, a, h, q);
    var r := st.modules[h.uid];
    OwnLists(r, h.uid, e, q);
    var d := NewClaim(key, subkey, value, a, r.uid, r.incarnation, [], s);
    NewClaimOk(key, subkey, value, a, r.uid, r.incarnation, [], s, e);
    PushOk(r.declarations, d, h.uid, r.incarnation, [], e, q);
    ListsAreTrimmable(OfModule, r.declarations + [d], h.uid, r.incarnation, [], e, q + 1);
    TrimKeepsAnswers(OfModule, r.declarations + [d], config.maxDeclarationsPerModule, config.maxClaimHistory,
                     r.incarnation, epochs);
  }

  // ----- Consensus on reachable lists does not depend on order -----

  lemma {:induction false} ViewFrom<V>(kind: ClaimKind, s: seq<Claim<V>>, part: seq<Claim<V>>, incarnation: nat,
                                       epochs: map<nat, nat>, x: Claim<V>)
    requires x in ViewPart(kind, s, part, incarnation, epochs)
    ensures exists i :: 0 <= i < |part| && KeyOf(part[i]) == KeyOf(x) && part[i].sequence == x.sequence
  {
    hide Shadowed;
    var front, c := part[..|part| - 1], part[|part| - 1];
    if x in ViewPart(kind, s, front, incarnation, epochs) {
      ViewFrom(kind, s, front, incarnation, epochs, x);
      var i :| 0 <= i < |front| && KeyOf(front[i]) == KeyOf(x) && front[i].sequence == x.sequence;
      assert KeyOf(part[i]) == KeyOf(x);
    } else {
      assert x == TrimAnswers.Marked(kind, s, epochs, c);
      assert KeyOf(part[|part| - 1]) == KeyOf(x);
    }
  }

  lemma {:induction false} ViewDistinct<V>(kind: ClaimKind, s: seq<Claim<V>>, part: seq<Claim<V>>, incarnation: nat,
                                           epochs: map<nat, nat>)
    requires Orderly(part)
    ensures DistinctInGroups(ViewPart(kind, s, part, incarnation, epochs))
  {
    hide Shadowed;
    if part != [] {
      var front, c := part[..|part| - 1], part[|part| - 1];
      ViewDistinct(kind, s, front, incarnation, epochs);
      var v := ViewPart(kind, s, front, incarnation, epochs);
      forall x | x in v && KeyOf(x) == KeyOf(c) ensures x.sequence != c.sequence {
        ViewFrom(kind, s, front, incarnation, epochs, x);
        var i :| 0 <= i < |front| && KeyOf(front[i]) == KeyOf(x) && front[i].sequence == x.sequence;
        assert KeyOf(part[i]) == KeyOf(part[|part| - 1]);
      }
    }
  }

  /**
   * In a good registry, so after any run or load, no two entries of an attribute share a sequence, and their order is
   * irrelevant.
   */
  lemma ConsensusOrderFree(st: State, uid: nat, shuffled: seq<IdentityClaim>)
    requires Good(st) && uid in st.modules
    requires var r := st.modules[uid];
      multiset(shuffled) == multiset(LiveView(OfIdentity, r.claims, r.incarnation, Epochs(st.sources)))
    ensures var r := st.modules[uid];
      Build(shuffled) == Build(LiveView(OfIdentity, r.claims, r.incarnation, Epochs(st.sources)))
  {
    hide Inv, RecordOk, ClaimsOk, Orderly, Build, UpTo, OneSubject, DistinctInGroups, ViewPart;
    var r, e := st.modules[uid], Epochs(st.sources);
    RecordAt(st, uid, st.nextSequence);
    OwnLists(r, uid, e, st.nextSequence);
    ListsAreTrimmable(OfIdentity, r.claims, uid, r.incarnation, [], e, st.nextSequence);
    ViewDistinct(OfIdentity, r.claims, r.claims, r.incarnation, e);
    OrderFree(LiveView(OfIdentity, r.claims, r.incarnation, e), shuffled);
  }

  // ----- Rules -----

  /** Any listing of the rule table has unique ids, which is what order independence of decisions asks. */
  lemma RuleIdsAreUnique(st: State, ids: seq<nat>)
    requires Good(st)
    requires (forall i :: 0 <= i < |ids| ==> ids[i] in st.rules)
             && (forall i, j :: 0 <= i < j < |ids| ==> ids[i] != ids[j])
    ensures CT.UniqueIds(seq(|ids|, i requires 0 <= i < |ids| => st.rules[ids[i]]))
  {
    hide Inv;
    forall i | 0 <= i < |ids| ensures st.rules[ids[i]].id == ids[i] {
      RuleAt(st, ids[i], st.nextSequence);
    }
  }

  // ----- Stored observations are never from the future -----

  /** The wall clock does not go back over the run, and has reached at most `now`. */
  ghost predicate ClockForward(calls: seq<Call>, now: int) {
    && (forall i, j :: 0 <= i < j < |calls| ==> calls[i].clock.wallNs <= calls[j].clock.wallNs)
    && (forall i :: 0 <= i < |calls| ==> calls[i].clock.wallNs <= now)
  }

  lemma IngestMembers(st: State, a: RegistryState.Authority, h: Handle, input: SampleInput, config: Config,
                      clock: Clock, s: Stamp, uid: nat, x: HealthSample)
    requires IngestBody(st, a, h, input, config, clock, s).Ok?
    requires x in SamplesOf(IngestBody(st, a, h, input, config, clock, s).value, uid)
    ensures h.uid in st.modules
    ensures x in SamplesOf(st, uid) || x == StoredSample(input, st.modules[h.uid], a, clock, s)
  {
    hide ModuleAt, StoredSample, Replayed, Latched, TrimRing, LiveThresholds, SampleSeries, CountOf, Subsequence;
    ReachedIsAuthorized(st, a, h);
    var r := st.modules[h.uid];
    var sample := StoredSample(input, r, a, clock, s);
    TrimRingSubsequence(Pushed(r, sample), config.maxSamplesPerSeries, config.maxSamplesPerModule);
    Members(TrimRing(Pushed(r, sample), config.maxSamplesPerSeries, config.maxSamplesPerModule).samples,
            r.samples + [sample]);
  }

  lemma Members<T>(a: seq<T>, b: seq<T>)
    requires Subsequence(a, b)
    ensures forall x :: x in a ==> x in b
  {
  }

  lemma AcceptedStamp(input: SampleInput, r: ModuleRecord, a: RegistryState.Authority, clock: Clock, s: Stamp,
                      config: Config)
    requires CheckSample(input, config, clock.wallNs).Ok? && s.now == clock.wallNs && config.maxFutureSkewNs >= 0
    ensures StoredSample(input, r, a, clock, s).wallNs <= clock.wallNs + config.maxFutureSkewNs
  {
    hide CheckProvenance;
  }

  lemma StepStamps(before: State, call: Call, config: Config, uid: nat, x: HealthSample)
    requires Attempt(before, call, config).Ok? && before.nextModuleUid !in before.modules && config.maxFutureSkewNs >= 0
    requires x in SamplesOf(Attempt(before, call, config).value, uid)
    ensures x in SamplesOf(before, uid) || x.wallNs <= call.clock.wallNs + config.maxFutureSkewNs
  {
    hide Attempt, IngestBody, StoredSample, CheckSample;
    CommitParts(before, call, config);
    var begun := before.(nextSequence := before.nextSequence + 1);
    var s := StampOf(before, call);
    if call.op.IngestHealth? {
      IngestMembers(begun, call.op.authority, call.op.target, call.op.input, config, call.clock, s, uid, x);
      AcceptedStamp(call.op.input, begun.modules[call.op.target.uid], call.op.authority, call.clock, s, config);
    } else {
      hide Body;
      BodyQuiet(begun, call, config, s);
      QuietNothing(begun, call, config, s, uid, 0);
    }
  }

  /** No stored sample is stamped further ahead than the tolerance allowed when it was accepted. */
  lemma {:induction false} StampsBounded(calls: seq<Call>, config: Config, now: int, uid: nat, x: HealthSample)
    requires ClockForward(calls, now) && config.maxFutureSkewNs >= 0
    requires x in SamplesOf(RunCalls(EMPTY_STATE, calls, config), uid)
    ensures x.wallNs <= now + config.maxFutureSkewNs
  {
    hide Attempt, Inv;
    if calls != [] {
      var front, call := calls[..|calls| - 1], calls[|calls| - 1];
      var before := RunCalls(EMPTY_STATE, front, config);
      NextUidIsNew(front, config);
      if Attempt(before, call, config).Ok? {
        StepStamps(before, call, config, uid, x);
      }
      if x in SamplesOf(before, uid) {
        StampsBounded(front, config, now, uid, x);
      }
    }
  }

  lemma SeriesFrom(e: Evidence, code: nat, x: HealthSample)
    requires x in Series(e, e.samples, code)
    ensures exists s :: s in e.samples && s.wallNs == x.wallNs
  {
    hide Series;
    var s :| s in e.samples && SampleSeries(s) == code && x == HealthReport.Marked(e, s);
  }

  /** In one reached state, read later: fewer sources support a series, and a stale one stays stale. */
  lemma ReachableEvidenceOnlyAges(calls: seq<Call>, config: Config, uid: nat, code: nat, t: Threshold, earlier: int,
                                  later: int)
    requires ClockForward(calls, earlier) && earlier <= later && config.maxFutureSkewNs >= 0
    requires uid in RunCalls(EMPTY_STATE, calls, config).modules
    ensures var st := RunCalls(EMPTY_STATE, calls, config);
      var r := st.modules[uid];
      var series := Series(EvidenceOf(st, r, config, earlier), r.samples, code);
      && series == Series(EvidenceOf(st, r, config, later), r.samples, code)
      && Contributing(series, t, r.uid, r.incarnation, later, config.maxFutureSkewNs)
         <= Contributing(series, t, r.uid, r.incarnation, earlier, config.maxFutureSkewNs)
      && (Classify(series, Some(t), r.uid, r.incarnation, earlier, config.maxFutureSkewNs).state == StaleState
          ==> Classify(series, Some(t), r.uid, r.incarnation, later, config.maxFutureSkewNs).state == StaleState)
  {
    hide Series, Classify, Contributing, RunCalls, LiveThresholds, DeclaredTelemetry;
    var st := RunCalls(EMPTY_STATE, calls, config);
    var r := st.modules[uid];
    var e := EvidenceOf(st, r, config, earlier);
    var series := Series(e, r.samples, code);
    SeriesIgnoresClock(e, EvidenceOf(st, r, config, later), r.samples, code);
    forall x | x in series ensures x.wallNs <= earlier + config.maxFutureSkewNs {
      SeriesFrom(e, code, x);
      var s :| s in e.samples && s.wallNs == x.wallNs;
      StampsBounded(calls, config, earlier, uid, s);
    }
    EvidenceOnlyAges(series, t, r.uid, r.incarnation, earlier, later, config.maxFutureSkewNs);
  }

  lemma {:induction false} SeriesIgnoresClock(e: Evidence, f: Evidence, samples: seq<HealthSample>, code: nat)
    requires f == e.(now := f.now)
    ensures Series(e, samples, code) == Series(f, samples, code)
  {
    if samples != [] {
      SeriesIgnoresClock(e, f, samples[..|samples| - 1], code);
    }
  }
}
