/**
 * Why a series can stop storing for good: its counter outlives the samples the module cap evicted,
 * src/registry.cpp:378-406.
 */
module Starvation {
  import opened Bytes
  import opened Ordering
  import opened Health
  import opened HealthReport
  import opened Trim
  import opened Samples
  import opened RegistryState
  import opened Validation
  import opened Mutations
  import opened RegistryInvariant
  import opened InvariantSteps
  import opened Runs
  import opened SampleRuns

  /** Caps hold and every ring is as a trim leaves it. */
  ghost predicate RingOk(r: ModuleRecord, config: Config) {
    WithinCaps(r, config) && Balanced(RingOf(r), config.maxSamplesPerSeries)
  }

  ghost predicate RingsOk(modules: map<nat, ModuleRecord>, config: Config) {
    forall uid :: uid in modules ==> RingOk(modules[uid], config)
  }

  /** No ring disappears and no surplus falls. */
  ghost predicate SurplusGrows(before: map<nat, ModuleRecord>, after: map<nat, ModuleRecord>, code: nat) {
    forall uid :: uid in before ==>
      uid in after && Surplus(RingOf(before[uid]), code) <= Surplus(RingOf(after[uid]), code)
  }

  lemma EmptyRing(r: ModuleRecord, config: Config)
    requires r.samples == [] && r.seriesCounts == map[]
    ensures RingOk(r, config)
  {
    hide WithinCaps;
    EmptyWithinCaps(r, config);
    forall code ensures SeriesIn(r.samples, code) == [] {
      FilterNone(OfSeries(code));
    }
  }

  lemma SameRing(r: ModuleRecord, t: ModuleRecord, config: Config)
    requires RingOk(r, config) && t.samples == r.samples && t.seriesCounts == r.seriesCounts
    ensures RingOk(t, config)
  {
    hide Counted, SeriesIn, CountOf, Balanced;
  }

  lemma QuietRings(before: map<nat, ModuleRecord>, after: map<nat, ModuleRecord>, config: Config, code: nat)
    requires Quiet(before, after) && RingsOk(before, config)
    ensures RingsOk(after, config) && SurplusGrows(before, after, code)
  {
    hide RingOk, SeriesIn, CountOf;
    if after != before {
      var uid :| QuietAt(before, after, uid);
      if uid in before {
        SameRing(before[uid], after[uid], config);
      } else {
        EmptyRing(after[uid], config);
      }
    }
  }

  lemma IngestRings(st: State, a: RegistryState.Authority, h: Handle, input: SampleInput, config: Config, clock: Clock,
                    s: Stamp, code: nat)
    requires RingsOk(st.modules, config) && IngestBody(st, a, h, input, config, clock, s).Ok?
    ensures var next := IngestBody(st, a, h, input, config, clock, s).value;
      RingsOk(next.modules, config) && SurplusGrows(st.modules, next.modules, code)
  {
    hide ModuleAt, StoredSample, Replayed, Latched, TrimRing, LiveThresholds, RingOk, Surplus, Balanced;
    ReachedIsAuthorized(st, a, h);
    var r := st.modules[h.uid];
    var x := StoredSample(input, r, a, clock, s);
    var next := IngestBody(st, a, h, input, config, clock, s).value;
    var t := next.modules[h.uid];
    RingParts(r, config);
    PushedCounted(r, x, code);
    SurplusNeverFalls(RingOf(r), x, config.maxSamplesPerSeries, config.maxSamplesPerModule, code);
    TrimmedWithinCaps(Pushed(r, x), t, config);
    RingFromParts(Arrive(RingOf(r), x, config.maxSamplesPerSeries, config.maxSamplesPerModule), t, config, code);
  }

  lemma RingParts(r: ModuleRecord, config: Config)
    requires RingOk(r, config)
    ensures Counted(RingOf(r)) && Balanced(RingOf(r), config.maxSamplesPerSeries)
  {
    hide Counted, Balanced;
  }

  lemma RingFromParts(ring: Ring, t: ModuleRecord, config: Config, code: nat)
    requires WithinCaps(t, config) && Balanced(ring, config.maxSamplesPerSeries)
    requires t.samples == ring.samples && t.seriesCounts == ring.counts
    ensures RingOk(t, config) && Surplus(RingOf(t), code) == Surplus(ring, code)
  {
    hide WithinCaps, SeriesIn, CountOf;
  }

  lemma AttemptRings(st: State, call: Call, config: Config, code: nat)
    requires Good(st) && RingsOk(st.modules, config) && Attempt(st, call, config).Ok?
    ensures var next := Attempt(st, call, config).value;
      RingsOk(next.modules, config) && SurplusGrows(st.modules, next.modules, code)
  {
    hide Attempt, RingsOk, SurplusGrows, Inv, IngestBody;
    UidIsNew(st, st.nextSequence);
    CommitParts(st, call, config);
    var begun, s := st.(nextSequence := st.nextSequence + 1), StampOf(st, call);
    if call.op.IngestHealth? {
      IngestRings(begun, call.op.authority, call.op.target, call.op.input, config, call.clock, s, code);
    } else {
      hide Body;
      BodyQuiet(begun, call, config, s);
      QuietRings(st.modules, Body(begun, call, config, s).value.modules, config, code);
    }
  }

  lemma SurplusTwice(a: map<nat, ModuleRecord>, b: map<nat, ModuleRecord>, c: map<nat, ModuleRecord>, code: nat)
    requires SurplusGrows(a, b, code) && SurplusGrows(b, c, code)
    ensures SurplusGrows(a, c, code)
  {
    hide Surplus;
  }

  lemma SurplusSame(a: map<nat, ModuleRecord>, code: nat)
    ensures SurplusGrows(a, a, code)
  {
    hide Surplus;
  }

  /** Over every run no surplus falls, and every ring stays balanced within the caps. */
  lemma {:induction false} RingsOverRuns(st: State, calls: seq<Call>, config: Config, code: nat)
    requires Good(st) && RingsOk(st.modules, config)
    ensures var next := RunCalls(st, calls, config);
      RingsOk(next.modules, config) && SurplusGrows(st.modules, next.modules, code)
  {
    hide Good, RingsOk, SurplusGrows, Attempt;
    SurplusSame(st.modules, code);
    if calls != [] {
      var front, call := calls[..|calls| - 1], calls[|calls| - 1];
      var before := RunCalls(st, front, config);
      RingsOverRuns(st, front, config, code);
      RunKeepsInvariant(st, front, config);
      if Attempt(before, call, config).Ok? {
        AttemptRings(before, call, config, code);
        SurplusTwice(st.modules, before.modules, Attempt(before, call, config).value.modules, code);
      }
    }
  }

  /**
   * Once the surplus of a series has reached the per-series limit, the series is empty in every later state of every
   * run: each new sample of it is accepted, counted and dropped.
   */
  lemma StarvedForGood(st: State, calls: seq<Call>, config: Config, uid: nat, code: nat)
    requires Good(st) && RingsOk(st.modules, config)
    requires uid in st.modules && Surplus(RingOf(st.modules[uid]), code) >= config.maxSamplesPerSeries
    ensures var later := RunCalls(st, calls, config);
      && uid in later.modules && SeriesIn(later.modules[uid].samples, code) == []
      && Surplus(RingOf(later.modules[uid]), code) >= config.maxSamplesPerSeries
  {
    hide Good, RunCalls, Surplus, SeriesIn, RingOk;
    var later := RunCalls(st, calls, config);
    RingsOverRuns(st, calls, config, code);
    RingParts(later.modules[uid], config);
    SurplusStarves(RingOf(later.modules[uid]), config.maxSamplesPerSeries, code);
  }

  /** Runs start with no module, so all of this holds of every reachable registry. */
  lemma ReachedRings(calls: seq<Call>, config: Config)
    ensures RingsOk(RunCalls(EMPTY_STATE, calls, config).modules, config)
    ensures Good(RunCalls(EMPTY_STATE, calls, config))
  {
    hide Good, RingOk, RunCalls;
    EmptyIsGood();
    RingsOverRuns(EMPTY_STATE, calls, config, 0);
    RunKeepsInvariant(EMPTY_STATE, calls, config);
  }
}
