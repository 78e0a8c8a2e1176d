/**
 * The stored latch of a series over runs: it is the latch automaton fed with the committed measurements,
 * src/registry.cpp:1440-1460.
 */
module LatchRuns {
  import opened Bytes
  import opened Ordering
  import opened Lifecycle
  import opened Latch
  import opened Health
  import opened HealthReport
  import opened Samples
  import opened RegistryState
  import opened Validation
  import opened Mutations
  import opened RegistryInvariant
  import opened InvariantSteps
  import opened Runs
  import opened SampleRuns

  // ----- One ingest -----

  /** The latch a report finds for a series; before the first measurement it is the empty one. */
  function LatchOf(latches: seq<LatchRecord>, metric: Metric, lane: U16): Latch {
    match FindLatch(latches, metric, lane)
    case Some(r) => r.latch
    case None => EMPTY_LATCH
  }

  lemma {:induction false} FoundAt(latches: seq<LatchRecord>, metric: Metric, lane: U16)
    ensures var i := LatchIndex(latches, metric, lane);
      FindLatch(latches, metric, lane) == if i < |latches| then Some(latches[i]) else None
  {
    if latches != [] {
      FoundAt(latches[1..], metric, lane);
    }
  }

  lemma {:induction false} FindUpdated(latches: seq<LatchRecord>, i: nat, r: LatchRecord, metric: Metric, lane: U16)
    requires i < |latches| && latches[i].metric == r.metric && latches[i].lane == r.lane
    requires i == LatchIndex(latches, r.metric, r.lane)
    ensures FindLatch(latches[i := r], metric, lane) ==
            if metric == r.metric && lane == r.lane then Some(r) else FindLatch(latches, metric, lane)
  {
    if i == 0 {
      assert latches[i := r] == [r] + latches[1..];
    } else {
      assert latches[i := r] == [latches[0]] + latches[1..][i - 1 := r];
      FindUpdated(latches[1..], i - 1, r, metric, lane);
    }
  }

  lemma {:induction false} FindAppended(latches: seq<LatchRecord>, r: LatchRecord, metric: Metric, lane: U16)
    requires LatchIndex(latches, r.metric, r.lane) == |latches|
    ensures FindLatch(latches + [r], metric, lane) ==
            if metric == r.metric && lane == r.lane then Some(r) else FindLatch(latches, metric, lane)
  {
    if latches == [] {
      assert latches + [r] == [r];
    } else {
      assert latches + [r] == [latches[0]] + (latches[1..] + [r]);
      FindAppended(latches[1..], r, metric, lane);
    }
  }

  lemma SeriesAdvances(latches: seq<LatchRecord>, t: Threshold, x: HealthSample, metric: Metric, lane: U16)
    ensures FindLatch(AdvanceSeries(latches, t, x), metric, lane) ==
            if metric == x.metric && lane == x.lane
            then Some(LatchRecord(metric, lane, AdvanceLatch(t, LatchOf(latches, metric, lane), x.value, x.wallNs,
                                                             x.sequence,
                                                             x.generation)))
            else FindLatch(latches, metric, lane)
  {
    hide AdvanceLatch, FindLatch;
    var i := LatchIndex(latches, x.metric, x.lane);
    FoundAt(latches, x.metric, x.lane);
    var before := if i < |latches| then latches[i].latch else EMPTY_LATCH;
    assert before == LatchOf(latches, x.metric, x.lane);
    var after := LatchRecord(x.metric, x.lane, AdvanceLatch(t, before, x.value, x.wallNs, x.sequence, x.generation));
    if i < |latches| {
      FindUpdated(latches, i, after, metric, lane);
    } else {
      FindAppended(latches, after, metric, lane);
    }
  }

  /** What an ingest observes, as the latch sees it. */
  function ReadingOf(input: SampleInput, s: Stamp): Reading {
    Reading(input.value, if input.wallNs == 0 then s.now else input.wallNs, s.sequence, s.generation)
  }

  function Advance(t: Threshold, latch: Latch, r: Reading): Latch {
    AdvanceLatch(t, latch, r.value, r.wallNs, r.sequence, r.generation)
  }

  /**
   * A committed ingest of a measurement with a threshold in force advances the stored latch of its series by that
   * measurement and leaves every other series alone; any other ingest changes no latch.
   */
  lemma IngestLatches(st: State, a: RegistryState.Authority, h: Handle, input: SampleInput, config: Config,
                      clock: Clock, s: Stamp, metric: Metric, lane: U16)
    requires IngestBody(st, a, h, input, config, clock, s).Ok?
    ensures h.uid in st.modules && h.uid in IngestBody(st, a, h, input, config, clock, s).value.modules
    ensures var before, after := st.modules[h.uid], IngestBody(st, a, h, input, config, clock, s).value.modules[h.uid];
      var threshold := SelectedThreshold(LiveThresholds(st.thresholds), input.metric, input.lane);
      && after.incarnation == before.incarnation
      && (input.presence == Present && threshold.Some? ==>
            FindLatch(after.latches, metric, lane) ==
            if metric == input.metric && lane == input.lane
            then Some(LatchRecord(metric, lane,
                                  Advance(threshold.value, LatchOf(before.latches, metric, lane), ReadingOf(input, s))))
            else FindLatch(before.latches, metric, lane))
      && (input.presence != Present || threshold.None? ==> after.latches == before.latches)
  {
    hide ModuleAt, Replayed, LiveThresholds, SelectedThreshold, TrimRing, Pushed, AdvanceSeries, AdvanceLatch,
         FindLatch;
    ReachedIsAuthorized(st, a, h);
    var before := st.modules[h.uid];
    var x := StoredSample(input, before, a, clock, s);
    var threshold := SelectedThreshold(LiveThresholds(st.thresholds), input.metric, input.lane);
    if input.presence == Present && threshold.Some? {
      SeriesAdvances(before.latches, threshold.value, x, metric, lane);
    }
  }

  /** The other modules' latches do not notice. */
  lemma IngestElsewhere(st: State, a: RegistryState.Authority, h: Handle, input: SampleInput, config: Config,
                        clock: Clock, s: Stamp, uid: nat)
    requires IngestBody(st, a, h, input, config, clock, s).Ok? && uid in st.modules && uid != h.uid
    ensures var next := IngestBody(st, a, h, input, config, clock, s).value;
      uid in next.modules && next.modules[uid] == st.modules[uid]
  {
    hide ModuleAt, Replayed, LiveThresholds, TrimRing, Pushed, Latched, StoredSample;
  }

  // ----- Runs -----

  /** A measurement and the threshold it was judged by. */
  datatype Judgement = Judgement(t: Threshold, reading: Reading)

  /** The latch after a history of judged measurements. */
  function Follow(start: Latch, history: seq<Judgement>): Latch {
    if history == [] then start
    else
      var j := history[|history| - 1];
      Advance(j.t, Follow(start, history[..|history| - 1]), j.reading)
  }

  /** The measurement the call commits to the series, if it does, with the threshold then in force. */
  function Judged(st: State, call: Call, config: Config, uid: nat, metric: Metric, lane: U16): seq<Judgement> {
    if Attempt(st, call, config).Ok? && call.op.IngestHealth? && call.op.target.uid == uid
       && call.op.input.metric == metric && call.op.input.lane == lane && call.op.input.presence == Present
    then
      (match SelectedThreshold(LiveThresholds(st.thresholds), metric, lane)
       case None => []
       case Some(t) => [Judgement(t, ReadingOf(call.op.input, StampOf(st, call)))])
    else []
  }

  /** All of them, in the order of commitment. */
  function History(st: State, calls: seq<Call>, config: Config, uid: nat, metric: Metric, lane: U16): seq<Judgement> {
    if calls == [] then []
    else
      var front := calls[..|calls| - 1];
      History(st, front, config, uid, metric, lane)
      + Judged(RunCalls(st, front, config), calls[|calls| - 1], config, uid, metric, lane)
  }

  /** The module keeps its incarnation the whole run. */
  ghost predicate SameModule(st: State, calls: seq<Call>, config: Config, uid: nat) {
    forall i :: 0 <= i <= |calls| ==>
      uid in RunCalls(st, calls[..i], config).modules && uid in st.modules
      && RunCalls(st, calls[..i], config).modules[uid].incarnation == st.modules[uid].incarnation
  }

  lemma FollowNext(start: Latch, history: seq<Judgement>, j: Judgement)
    ensures Follow(start, history + [j]) == Advance(j.t, Follow(start, history), j.reading)
  {
    assert (history + [j])[..|history|] == history;
  }

  lemma StepLatches(st: State, call: Call, config: Config, uid: nat, metric: Metric, lane: U16)
    requires Good(st) && uid in st.modules && Attempt(st, call, config).Ok?
    requires uid in Attempt(st, call, config).value.modules
    requires Attempt(st, call, config).value.modules[uid].incarnation == st.modules[uid].incarnation
    ensures var before, after := st.modules[uid].latches, Attempt(st, call, config).value.modules[uid].latches;
      var judged := Judged(st, call, config, uid, metric, lane);
      && (judged == [] ==> FindLatch(after, metric, lane) == FindLatch(before, metric, lane))
      && (judged != [] ==>
            FindLatch(after, metric, lane) ==
            Some(LatchRecord(metric, lane, Advance(judged[0].t, LatchOf(before, metric, lane), judged[0].reading))))
  {
    hide Attempt, Body, IngestBody, FindLatch, SelectedThreshold, LiveThresholds, Quiet, LatchesStay, Good;
    CommitParts(st, call, config);
    var begun, s := st.(nextSequence := st.nextSequence + 1), StampOf(st, call);
    if call.op.IngestHealth? {
      var input, h := call.op.input, call.op.target;
      BodyIngests(begun, call, config, s);
      if h.uid == uid {
        IngestLatches(begun, call.op.authority, h, input, config, call.clock, s, metric, lane);
      } else {
        IngestElsewhere(begun, call.op.authority, h, input, config, call.clock, s, uid);
      }
    } else {
      UidFree(st);
      BodyQuiet(begun, call, config, s);
      QuietLatches(begun, call, config, s, uid);
    }
  }

  lemma BodyIngests(st: State, call: Call, config: Config, s: Stamp)
    requires call.op.IngestHealth?
    ensures Body(st, call, config, s)
         == IngestBody(st, call.op.authority, call.op.target, call.op.input, config, call.clock, s)
  {
    hide IngestBody;
  }

  lemma UidFree(st: State)
    requires Good(st)
    ensures st.nextModuleUid !in st.modules
  {
  }

  lemma QuietLatches(st: State, call: Call, config: Config, s: Stamp, uid: nat)
    requires Body(st, call, config, s).Ok? && Quiet(st.modules, Body(st, call, config, s).value.modules)
    requires uid in st.modules && uid in Body(st, call, config, s).value.modules
    requires Body(st, call, config, s).value.modules[uid].incarnation == st.modules[uid].incarnation
    ensures Body(st, call, config, s).value.modules[uid].latches == st.modules[uid].latches
  {
    hide Body;
    var after := Body(st, call, config, s).value.modules;
    if after != st.modules {
      var u :| QuietAt(st.modules, after, u);
    }
  }

  /**
   * Over any run in which the module keeps its incarnation, the stored latch of a series is the automaton run over
   * exactly the committed measurements of that series, each judged by the threshold in force when it was committed.
   */
  lemma {:induction false} LatchFollowsMeasurements(st: State, calls: seq<Call>, config: Config, uid: nat,
                                                    metric: Metric, lane: U16)
    requires Good(st) && SameModule(st, calls, config, uid)
    ensures uid in st.modules && uid in RunCalls(st, calls, config).modules
    ensures var latches := RunCalls(st, calls, config).modules[uid].latches;
      var history := History(st, calls, config, uid, metric, lane);
      && LatchOf(latches, metric, lane) == Follow(LatchOf(st.modules[uid].latches, metric, lane), history)
      && (FindLatch(latches, metric, lane).Some? <==>
          history != [] || FindLatch(st.modules[uid].latches, metric, lane).Some?)
  {
    hide Good, Attempt, Judged, FindLatch, Advance;
    if calls == [] {
      assert calls[..0] == [] && RunCalls(st, [], config) == st;
    } else {
      var front, call := calls[..|calls| - 1], calls[|calls| - 1];
      SameModuleBefore(st, calls, config, uid);
      LatchFollowsMeasurements(st, front, config, uid, metric, lane);
      var before, after := RunCalls(st, front, config), RunCalls(st, calls, config);
      RunKeepsInvariant(st, front, config);
      var judged := Judged(before, call, config, uid, metric, lane);
      var earlier := History(st, front, config, uid, metric, lane);
      if Attempt(before, call, config).Ok? {
        StepLatches(before, call, config, uid, metric, lane);
      } else {
        NothingJudged(before, call, config, uid, metric, lane);
      }
      AtMostOne(before, call, config, uid, metric, lane);
      if judged == [] {
        assert earlier + judged == earlier;
      } else {
        assert earlier + judged == earlier + [judged[0]];
        FollowNext(LatchOf(st.modules[uid].latches, metric, lane), earlier, judged[0]);
      }
    }
  }

  lemma NothingJudged(st: State, call: Call, config: Config, uid: nat, metric: Metric, lane: U16)
    requires Attempt(st, call, config).Err?
    ensures Judged(st, call, config, uid, metric, lane) == []
  {
    hide Attempt;
  }

  lemma AtMostOne(st: State, call: Call, config: Config, uid: nat, metric: Metric, lane: U16)
    ensures |Judged(st, call, config, uid, metric, lane)| <= 1
  {
    hide Attempt, SelectedThreshold;
  }

  lemma SameModuleBefore(st: State, calls: seq<Call>, config: Config, uid: nat)
    requires calls != [] && SameModule(st, calls, config, uid)
    ensures SameModule(st, calls[..|calls| - 1], config, uid)
    ensures uid in st.modules && uid in RunCalls(st, calls, config).modules
    ensures uid in RunCalls(st, calls[..|calls| - 1], config).modules
    ensures RunCalls(st, calls[..|calls| - 1], config).modules[uid].incarnation == st.modules[uid].incarnation
    ensures RunCalls(st, calls, config).modules[uid].incarnation == st.modules[uid].incarnation
  {
    hide RunCalls;
    var front := calls[..|calls| - 1];
    forall i | 0 <= i <= |front| ensures front[..i] == calls[..i] {
    }
    assert calls[..|calls|] == calls;
  }

  // ----- Under one threshold -----

  function Readings(history: seq<Judgement>): seq<Reading> {
    seq(|history|, i requires 0 <= i < |history| => history[i].reading)
  }

  /** Judged by one threshold throughout, it is the plain run of the automaton. */
  lemma {:induction false} FollowIsRun(start: Latch, history: seq<Judgement>, t: Threshold)
    requires forall j :: j in history ==> j.t == t
    ensures Follow(start, history) == Run(t, start, Readings(history))
  {
    hide AdvanceLatch;
    if history != [] {
      FollowIsRun(start, history[..|history| - 1], t);
      assert Readings(history)[..|history| - 1] == Readings(history[..|history| - 1]);
    } else {
      assert Readings(history) == [];
    }
  }

  /**
   * The registry's latch and its counter, for a series first measured in this run and judged by one accepted threshold:
   * the counter is the trailing run of out-of-zone measurements since the last transition, and the latest measurement
   * moved the latch exactly when it completed the configured run.
   */
  lemma StoredLatchExactly(st: State, calls: seq<Call>, config: Config, uid: nat, metric: Metric, lane: U16,
                           t: Threshold)
    requires Good(st) && SameModule(st, calls, config, uid) && ValidateThreshold(t).Ok?
    requires uid in st.modules && FindLatch(st.modules[uid].latches, metric, lane).None?
    requires forall j :: j in History(st, calls, config, uid, metric, lane) ==> j.t == t
    ensures uid in RunCalls(st, calls, config).modules
    ensures var latch := LatchOf(RunCalls(st, calls, config).modules[uid].latches, metric, lane);
      var readings := Readings(History(st, calls, config, uid, metric, lane));
      && latch == Run(t, EMPTY_LATCH, readings)
      && latch.consecutive == OutOfZoneTail(t, latch.state, SinceTransition(t, EMPTY_LATCH, readings))
      && (|readings| > 1 ==>
            var before := Run(t, EMPTY_LATCH, readings[..|readings| - 1]).state;
            var zone := Zone(t, before, readings[|readings| - 1].value);
            && (latch.state != before <==>
                && zone != before
                && OutOfZoneTail(t, before, SinceTransition(t, EMPTY_LATCH, readings[..|readings| - 1])) + 1
                   >= (if ZoneRank(zone) > ZoneRank(before) then t.escalateAfter else t.recoverAfter))
            && (latch.state != before ==> latch.state == zone))
  {
    hide Good, SameModule, History, RunCalls, FindLatch, Run, OutOfZoneTail, SinceTransition, Zone, ZoneRank,
         ValidateThreshold, Follow, Readings;
    LatchFollowsMeasurements(st, calls, config, uid, metric, lane);
    var history := History(st, calls, config, uid, metric, lane);
    FollowIsRun(EMPTY_LATCH, history, t);
    ConsecutiveIsTrailingRun(t, Readings(history));
    if |Readings(history)| > 1 {
      TransitionExactly(t, Readings(history));
    }
  }

  // ----- An example -----

  const WARM := Threshold(TemperatureCelsius, 0, Above, true, 70.0, 60.0, false, 0.0, 0.0, 3, 2, 1000, 0.0, 1, 1, 1, 1,
                          NO_PROVENANCE, true)
  const SETTLED := Latch(OkState, 0, 10, 1, 1, 10)

  const HOT := Reading(75.0, 20, 2, 2)

  lemma HotStep(n: nat)
    requires n <= 2
    ensures var next := Advance(WARM, SETTLED.(consecutive := n), HOT);
      && (n < 2 ==> next == SETTLED.(consecutive := n + 1, lastSampleWallNs := 20, lastSampleSequence := 2))
      && (n == 2 ==> next.state == DegradedState)
    ensures var again := SETTLED.(consecutive := n, lastSampleWallNs := 20, lastSampleSequence := 2);
      Advance(WARM, again, HOT) == Advance(WARM, SETTLED.(consecutive := n), HOT)
  {
    assert Zone(WARM, OkState, 75.0) == DegradedState;
    hide Zone;
  }

  /** One hot measurement counts towards escalation but does not escalate; the third in a row does. */
  lemma ThirdTimeEscalates()
    ensures Advance(WARM, SETTLED, HOT).state == OkState && Advance(WARM, SETTLED, HOT).consecutive == 1
    ensures Advance(WARM, Advance(WARM, Advance(WARM, SETTLED, HOT), HOT), HOT).state == DegradedState
  {
    hide Advance;
    HotStep(0);
    HotStep(1);
    HotStep(2);
    assert SETTLED.(consecutive := 0) == SETTLED;
  }
}
