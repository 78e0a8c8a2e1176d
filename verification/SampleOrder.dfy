/** The order of stored samples over runs: commits in sequence, and each source's own clock only forward. */
module SampleOrder {
  import opened Bytes
  import opened Ordering
  import opened Consensus
  import opened Lifecycle
  import opened Latch
  import opened Health
  import opened HealthReport
  import opened Trim
  import opened Samples
  import opened RegistryState
  import opened Validation
  import opened Mutations
  import opened RegistryInvariant
  import opened InvariantSteps
  import opened Runs
  import opened SampleRuns

  /** By one source, of one metric and lane, read off one monotonic clock. */
  predicate SameClock(x: HealthSample, y: HealthSample) {
    x.source == y.source && x.metric == y.metric && x.lane == y.lane && x.clockDomain == y.clockDomain
  }

  /** Readings of one clock are stored in the order that clock gave them; 0 stands for no reading. */
  ghost predicate Ascend(s: seq<HealthSample>) {
    forall i, j :: 0 <= i < j < |s| && SameClock(s[i], s[j]) && s[i].monotonicNs != 0 && s[j].monotonicNs != 0 ==>
      s[i].monotonicNs < s[j].monotonicNs
  }

  ghost predicate AllAscend(modules: map<nat, ModuleRecord>) {
    forall uid :: uid in modules ==> Ascend(modules[uid].samples)
  }

  lemma PushAscends(s: seq<HealthSample>, x: HealthSample)
    requires Ascend(s) && !Replayed(s, x)
    ensures Ascend(s + [x])
  {
    var t := s + [x];
    forall i, j | 0 <= i < j < |t| && SameClock(t[i], t[j]) && t[i].monotonicNs != 0 && t[j].monotonicNs != 0
      ensures t[i].monotonicNs < t[j].monotonicNs
    {
      if j < |s| {
        assert t[i] == s[i] && t[j] == s[j];
      } else {
        assert !Replays(s[i], x);
      }
    }
  }

  lemma PartAscends(a: seq<HealthSample>, b: seq<HealthSample>)
    requires Subsequence(a, b) && Ascend(b)
    ensures Ascend(a)
  {
    var f :| Picks(a, b, f);
    forall i, j | 0 <= i < j < |a| && SameClock(a[i], a[j]) && a[i].monotonicNs != 0 && a[j].monotonicNs != 0
      ensures a[i].monotonicNs < a[j].monotonicNs
    {
      assert a[i] == b[f[i]] && a[j] == b[f[j]] && f[i] < f[j];
    }
  }

  lemma IngestAscends(st: State, a: RegistryState.Authority, h: Handle, input: SampleInput, config: Config,
                      clock: Clock, s: Stamp)
    requires AllAscend(st.modules) && IngestBody(st, a, h, input, config, clock, s).Ok?
    ensures AllAscend(IngestBody(st, a, h, input, config, clock, s).value.modules)
  {
    hide ModuleAt, TrimRing, Latched, LiveThresholds, Replayed, Ascend, StoredSample;
    ReachedIsAuthorized(st, a, h);
    var record := st.modules[h.uid];
    var x := StoredSample(input, record, a, clock, s);
    PushAscends(record.samples, x);
    TrimRingSubsequence(Pushed(record, x), config.maxSamplesPerSeries, config.maxSamplesPerModule);
    PartAscends(TrimRing(Pushed(record, x), config.maxSamplesPerSeries, config.maxSamplesPerModule).samples,
                record.samples + [x]);
  }

  lemma AttemptAscends(st: State, call: Call, config: Config)
    requires Good(st) && AllAscend(st.modules) && Attempt(st, call, config).Ok?
    ensures AllAscend(Attempt(st, call, config).value.modules)
  {
    hide Attempt, Body, IngestBody, Ascend, Quiet, Good;
    CommitParts(st, call, config);
    var begun, s := st.(nextSequence := st.nextSequence + 1), StampOf(st, call);
    if call.op.IngestHealth? {
      BodyOfIngest(begun, call, config, s);
      IngestAscends(begun, call.op.authority, call.op.target, call.op.input, config, call.clock, s);
    } else {
      FreshUid(st);
      BodyQuiet(begun, call, config, s);
      QuietAscends(begun.modules, Body(begun, call, config, s).value.modules);
    }
  }

  lemma BodyOfIngest(st: State, call: Call, config: Config, s: Stamp)
    requires call.op.IngestHealth?
    ensures Body(st, call, config, s)
         == IngestBody(st, call.op.authority, call.op.target, call.op.input, config, call.clock, s)
  {
    hide IngestBody;
  }

  lemma FreshUid(st: State)
    requires Good(st)
    ensures st.nextModuleUid !in st.modules
  {
  }

  lemma QuietAscends(before: map<nat, ModuleRecord>, after: map<nat, ModuleRecord>)
    requires Quiet(before, after) && AllAscend(before)
    ensures AllAscend(after)
  {
    hide Ascend;
    assert Ascend([]) by { NothingAscends(); }
  }

  lemma NothingAscends()
    ensures Ascend([])
  {
  }

  /**
   * Over any run no source turns its clock back: two stored readings of one source, series and clock domain are in the
   * order of that clock, strictly, and stored samples are in the order of their commits.
   */
  lemma {:induction false} ReadingsAscend(calls: seq<Call>, config: Config, uid: nat, i: nat, j: nat)
    requires var end := RunCalls(EMPTY_STATE, calls, config);
      uid in end.modules && i < j < |end.modules[uid].samples|
    ensures var s := RunCalls(EMPTY_STATE, calls, config).modules[uid].samples;
      && s[i].sequence < s[j].sequence
      && (SameClock(s[i], s[j]) && s[i].monotonicNs != 0 && s[j].monotonicNs != 0 ==>
            s[i].monotonicNs < s[j].monotonicNs)
  {
    hide Inv, Attempt, RunCalls;
    RunAscends(calls, config);
    EmptyIsGood();
    RunKeepsInvariant(EMPTY_STATE, calls, config);
    var end := RunCalls(EMPTY_STATE, calls, config);
    assert Ascend(end.modules[uid].samples);
    RecordAt(end, uid, end.nextSequence);
  }

  lemma {:induction false} RunAscends(calls: seq<Call>, config: Config)
    ensures AllAscend(RunCalls(EMPTY_STATE, calls, config).modules)
  {
    hide Inv, Attempt, Ascend;
    if calls != [] {
      var front := calls[..|calls| - 1];
      RunAscends(front, config);
      EmptyIsGood();
      RunKeepsInvariant(EMPTY_STATE, front, config);
      var before := RunCalls(EMPTY_STATE, front, config);
      if Attempt(before, calls[|calls| - 1], config).Ok? {
        AttemptAscends(before, calls[|calls| - 1], config);
      }
    }
  }
}
